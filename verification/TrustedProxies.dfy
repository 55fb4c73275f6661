/** Which peers may speak for others: loopback and the configured networks, by address and not by text. */
module TrustedProxies {
  import opened Wrappers
  import opened Texts
  import opened Addresses
  import opened AddressSpelling
  import opened AddressClass
  import opened ClientIp

  /** Texts that agree up to and including their first dot begin with the same part. */
  lemma HeadsAgree(a: string, b: string, rest: string)
    requires '.' !in a && '.' !in b && a + "." <= b + "." + rest
    ensures a == b
  {
    var s := b + "." + rest;
    var behind := s[|a| + 1..];
    assert s == a + ['.'] + behind;
    assert s == b + ['.'] + rest;
    SplitHead(a, '.', behind);
    SplitHead(b, '.', rest);
    assert ([a] + Split(behind, '.'))[0] == a && ([b] + Split(rest, '.'))[0] == b;
  }

  lemma LoopbackText(n: nat)
    requires n < TWO_32
    ensures "127." <= Dotted(n) <==> n / 0x100_0000 == 127
  {
    hide Dotted, Decimal;
    var p := DottedParts(n);
    DottedText(n, p[0], p[1], p[2], p[3]);
    DottedPartsClean(n);
    DecimalRoundTrip(n / 0x100_0000);
    DecimalRoundTrip(127);
    DecimalOfLoopback();
    var rest := p[1] + "." + (p[2] + "." + p[3]);
    assert p[0] in p && Dotted(n) == p[0] + "." + rest;
    assert "127." == "127" + ".";
    if "127." <= Dotted(n) { HeadsAgree("127", p[0], rest); }
  }

  lemma DecimalOfLoopback()
    ensures Decimal(127) == "127"
  {
    assert Decimal(12) == "12";
  }

  /** A peer of this IPv4 address is trusted exactly if it is in 127.0.0.0/8, in a configured network, or listed. */
  lemma TrustedV4Exact(n: nat, rules: seq<Rule>)
    requires n < TWO_32
    requires forall i | 0 <= i < |rules| && rules[i].NetRule? :: rules[i].v4 < TWO_32 && rules[i].prefix <= 32
    ensures IsTrustedProxy(Dotted(n), rules) <==>
      || 0x7f00_0000 <= n < 0x8000_0000
      || exists i | 0 <= i < |rules| ::
           if rules[i].NetRule?
           then n / Pow2(32 - rules[i].prefix) == rules[i].v4 / Pow2(32 - rules[i].prefix)
           else rules[i].literal == Dotted(n)
  {
    hide Dotted, InV4Net, Pow2, ParseV4;
    CharsOfDotted(n);
    LoopbackText(n);
    DottedParses(n);
    assert ':' in "::1" && "127." <= "127.0.0.1";
    forall i | 0 <= i < |rules| && rules[i].NetRule?
      ensures InV4Net(n, rules[i].v4, rules[i].prefix) <==>
              n / Pow2(32 - rules[i].prefix) == rules[i].v4 / Pow2(32 - rules[i].prefix)
    {
      InV4NetIsPrefix(n, rules[i].v4, rules[i].prefix);
    }
  }

  lemma BeforeIsHex(s: string, cut: nat)
    requires cut <= |s| && HexOrColon(Undotted(s)) && cut <= |Undotted(s)| && Undotted(s)[..cut] == s[..cut]
    ensures forall i | 0 <= i < cut :: s[i] != '.'
  {
    hide Undotted;
    forall i | 0 <= i < cut ensures s[i] != '.' {
      assert Undotted(s)[..cut][i] == s[..cut][i] == s[i];
    }
  }

  /** In an IPv6 text a dot stands behind a colon. */
  lemma DotsComeLast(s: string, i: nat)
    requires ParseIpv6Words(s).Some? && i < |s| && s[i] == '.'
    ensures exists j | 0 <= j < i :: s[j] == ':'
  {
    var cut := AfterLastColon(s);
    LastColonSplits(s);
    ParsedHasEightGroups(s);
    NothingDotted(s);
    hide ParseIpv6Words, EightGroups, ParseV4, AfterLastColon;
    if cut > 0 && ParseV4(s[cut..]).Some? {
      ParsedIsDotted(s[cut..], ParseV4(s[cut..]).value);
      UndottedAt(s, cut, ParseV4(s[cut..]).value);
      assert Undotted(s)[..cut] == s[..cut] && s[cut - 1] == ':';
      BeforeIsHex(s, cut);
    }
  }

  lemma NotLoopbackText(s: string)
    requires ParseIpv6Words(s).Some?
    ensures !("127." <= s) && s != "127.0.0.1"
  {
    hide ParseIpv6Words;
    assert "127."[3] == '.' && "127."[0] == '1' && "127."[1] == '2' && "127."[2] == '7';
    assert "127.0.0.1"[..4] == "127.";
    if |s| > 3 && s[3] == '.' { DotsComeLast(s, 3); }
  }

  /** An IPv6 peer is trusted exactly if its text is `::1` or listed. */
  lemma TrustedV6Exact(s: string, v: nat, rules: seq<Rule>)
    requires Spells(s, V6(v))
    ensures IsTrustedProxy(s, rules) <==>
      s == "::1" || exists i | 0 <= i < |rules| :: rules[i].LiteralRule? && rules[i].literal == s
  {
    var sp :| ValidSpelling(sp) && Render(sp) == s && Value(WordsOf(sp)) == v;
    SpellingParses(sp);
    ParsedLooksLikeV6(s);
    NotLoopbackText(s);
    hide ParseIpv6Words, ParseV4, Spells, LooksLikeV6, Value;
  }
}
