/**
 The parsers accept exactly the spellings of section 2.2 of RFC 4291 (and, for IPv4, exactly
 one spelling per address), and give each the value it spells.
 */
module AddressSpelling {
  import opened Wrappers
  import opened Texts
  import opened Addresses

  // ---- IPv4: one address, one spelling ----------------------------------------

  lemma DigitRoundTrip(d: nat)
    requires d < 10
    ensures IsDigit(DigitChar(d)) && DigitValue(DigitChar(d)) == d && (DigitChar(d) == '0' <==> d == 0)
  {
  }

  lemma {:induction false} DecimalRoundTrip(o: nat)
    ensures AllDigits(Decimal(o)) && DecimalValue(Decimal(o)) == o && Decimal(o) != ""
    ensures |Decimal(o)| > 1 ==> Decimal(o)[0] != '0'
    ensures o < 10 ==> |Decimal(o)| == 1
    ensures o < 100 ==> |Decimal(o)| <= 2
    ensures o < 1000 ==> |Decimal(o)| <= 3
  {
    DigitRoundTrip(o % 10);
    var s := Decimal(o);
    if o < 10 {
      assert s[..|s| - 1] == "";
    } else {
      DecimalRoundTrip(o / 10);
      DigitRoundTrip(o / 10 % 10);
      assert s[..|s| - 1] == Decimal(o / 10);
      assert |Decimal(o / 10)| == 1 ==> Decimal(o / 10)[0] != '0' by {
        if |Decimal(o / 10)| == 1 {
          assert Decimal(o / 10) == [DigitChar(o / 10)];
          DigitRoundTrip(o / 10);
        }
      }
    }
  }

  /** A text of digits without padding is the decimal form of its value. */
  lemma {:induction false} UnpaddedIsDecimal(s: string)
    requires AllDigits(s) && s != "" && (|s| > 1 ==> s[0] != '0')
    ensures s == Decimal(DecimalValue(s)) && (|s| > 1 ==> DecimalValue(s) >= 10)
    decreases |s|
  {
    var init, d := s[..|s| - 1], DigitValue(s[|s| - 1]);
    assert s == init + [s[|s| - 1]] && DigitChar(d) == s[|s| - 1];
    if init == "" {
      assert DecimalValue(init) == 0;
    } else {
      UnpaddedIsDecimal(init);
      if |init| == 1 {
        assert init[..0] == "" && DecimalValue(init) == DigitValue(init[0]);
      }
      var v := DecimalValue(s);
      assert v == DecimalValue(init) * 10 + d && v / 10 == DecimalValue(init) && v % 10 == d;
    }
  }

  lemma OctetExact(part: string, o: nat)
    ensures Octet(part) == Some(o) <==> o < 256 && part == Decimal(o)
  {
    DecimalRoundTrip(o);
    if Octet(part) == Some(o) {
      UnpaddedIsDecimal(part);
    }
  }

  lemma {:induction false} DecimalHasNoDot(o: nat)
    ensures '.' !in Decimal(o) && ':' !in Decimal(o)
  {
    DecimalRoundTrip(o);
  }

  lemma OctetsStep(parts: seq<string>, k: nat)
    requires k < |parts|
    ensures Octets(parts[..k + 1]) ==
      if Octets(parts[..k]).Some? && Octet(parts[k]).Some?
      then Some(Octets(parts[..k]).value * 256 + Octet(parts[k]).value) else None
  {
    assert parts[..k + 1][..k] == parts[..k];
  }

  lemma OctetsOfFour(parts: seq<string>, a: nat, b: nat, c: nat, d: nat)
    requires |parts| == 4
    requires Octet(parts[0]) == Some(a) && Octet(parts[1]) == Some(b)
    requires Octet(parts[2]) == Some(c) && Octet(parts[3]) == Some(d)
    ensures Octets(parts) == Some(((a * 256 + b) * 256 + c) * 256 + d)
  {
    assert parts[..0] == [] && parts[..4] == parts;
    OctetsStep(parts, 0);
    OctetsStep(parts, 1);
    OctetsStep(parts, 2);
    OctetsStep(parts, 3);
  }

  lemma OctetsOfFourSome(parts: seq<string>)
    requires |parts| == 4 && Octets(parts).Some?
    ensures forall i | 0 <= i < 4 :: Octet(parts[i]).Some?
  {
    assert parts[..4] == parts;
    OctetsStep(parts, 3);
    OctetsStep(parts, 2);
    OctetsStep(parts, 1);
    OctetsStep(parts, 0);
  }

  lemma DottedPartsClean(n: nat)
    requires n < TWO_32
    ensures Without(DottedParts(n), '.') && Without(DottedParts(n), ':')
  {
    DecimalHasNoDot(n / 0x100_0000);
    DecimalHasNoDot(n / 0x1_0000 % 256);
    DecimalHasNoDot(n / 0x100 % 256);
    DecimalHasNoDot(n % 256);
  }

  lemma BytesOf(n: nat, a: nat, b: nat, c: nat, d: nat)
    requires a < 256 && b < 256 && c < 256 && d < 256
    ensures n == ((a * 256 + b) * 256 + c) * 256 + d
       <==> n < TWO_32 && a == n / 0x100_0000 && b == n / 0x1_0000 % 256 && c == n / 0x100 % 256 && d == n % 256
  {
  }

  /** `parseIpv4` accepts a text exactly if it is the dotted form of the address it returns. */
  lemma ParseV4Exact(s: string, n: nat)
    ensures ParseV4(s) == Some(n) <==> n < TWO_32 && s == Dotted(n)
  {
    if n < TWO_32 && s == Dotted(n) {
      DottedParses(n);
    }
    if ParseV4(s) == Some(n) {
      ParsedIsDotted(s, n);
    }
  }

  lemma DottedParses(n: nat)
    requires n < TWO_32
    ensures ParseV4(Dotted(n)) == Some(n)
  {
    hide Decimal, Octet, Octets, Split, Join;
    var a, b, c, d := n / 0x100_0000, n / 0x1_0000 % 256, n / 0x100 % 256, n % 256;
    DottedPartsClean(n);
    SplitJoin(DottedParts(n), '.');
    OctetExact(Decimal(a), a);
    OctetExact(Decimal(b), b);
    OctetExact(Decimal(c), c);
    OctetExact(Decimal(d), d);
    OctetsOfFour(DottedParts(n), a, b, c, d);
    BytesOf(n, a, b, c, d);
  }

  lemma ParsedIsDotted(s: string, n: nat)
    requires ParseV4(s) == Some(n)
    ensures n < TWO_32 && s == Dotted(n)
  {
    var parts := Split(s, '.');
    OctetsOfFourSome(parts);
    var a, b, c, d := Octet(parts[0]).value, Octet(parts[1]).value, Octet(parts[2]).value, Octet(parts[3]).value;
    OctetExact(parts[0], a);
    OctetExact(parts[1], b);
    OctetExact(parts[2], c);
    OctetExact(parts[3], d);
    OctetsOfFour(parts, a, b, c, d);
    BytesOf(n, a, b, c, d);
    assert parts == DottedParts(n);
    JoinSplit(s, '.');
  }

  // ---- IPv6 spellings ---------------------------------------------------------

  /**
   Section 2.2 of RFC 4291: eight groups; or groups around one `::` for one or more zero
   groups; either with the last two groups as a dotted IPv4 address. Leading zeros are free.
   */
  datatype Spelling =
    | Full(groups: seq<string>, tail: Option<nat>)
    | Compressed(left: seq<string>, right: seq<string>, tail: Option<nat>)

  function TailLength(tail: Option<nat>): nat {
    if tail.Some? then 2 else 0
  }

  predicate ValidSpelling(sp: Spelling) {
    && (sp.tail.Some? ==> sp.tail.value < TWO_32)
    && match sp
       case Full(groups, tail) => AllGroups(groups) && |groups| + TailLength(tail) == 8
       case Compressed(left, right, tail) =>
         AllGroups(left) && AllGroups(right) && |left| + |right| + TailLength(tail) <= 7
  }

  function TailTexts(tail: Option<nat>): seq<string>
    requires tail.Some? ==> tail.value < TWO_32
  {
    if tail.Some? then [Dotted(tail.value)] else []
  }

  function JoinOrEmpty(parts: seq<string>): string {
    if parts == [] then "" else Join(parts, ':')
  }

  function Render(sp: Spelling): string
    requires ValidSpelling(sp)
  {
    match sp
    case Full(groups, tail) => Join(groups + TailTexts(tail), ':')
    case Compressed(left, right, tail) => JoinOrEmpty(left) + "::" + JoinOrEmpty(right + TailTexts(tail))
  }

  function TailWords(tail: Option<nat>): seq<nat> {
    if tail.Some? then [tail.value / 0x1_0000, tail.value % 0x1_0000] else []
  }

  function ZeroWords(n: nat): seq<nat> {
    seq(n, _ => 0)
  }

  /** The eight groups a spelling stands for. */
  function WordsOf(sp: Spelling): seq<nat>
    requires ValidSpelling(sp)
  {
    match sp
    case Full(groups, tail) => Values(groups) + TailWords(tail)
    case Compressed(left, right, tail) =>
      Values(left) + ZeroWords(8 - |left| - |right| - TailLength(tail)) + Values(right) + TailWords(tail)
  }

  // ---- without a dotted tail --------------------------------------------------

  lemma GroupsAreClean(groups: seq<string>)
    requires AllGroups(groups)
    ensures Without(groups, ':') && Without(groups, '.')
  {
  }

  lemma {:induction false} JoinOfGroups(groups: seq<string>)
    requires AllGroups(groups) && groups != []
    ensures var s := Join(groups, ':');
      s != "" && s[0] != ':' && s[|s| - 1] != ':' && NoDouble(s, ':') && HexOrColon(s)
  {
    if |groups| > 1 {
      JoinOfGroups(groups[1..]);
    }
  }

  lemma {:induction false} JoinHasColon(parts: seq<string>)
    requires |parts| >= 2
    ensures ':' in Join(parts, ':')
  {
  }

  lemma NoDotNoV4(s: string)
    requires '.' !in s
    ensures ParseV4(s) == None
  {
    SplitOne(s, '.');
  }

  lemma UndottedWithoutDots(s: string)
    requires '.' !in s
    ensures Undotted(s) == s
  {
    NoDotNoV4(s[AfterLastColon(s)..]);
  }

  lemma HexOrColonHasNoDot(s: string)
    requires HexOrColon(s)
    ensures '.' !in s
  {
  }

  lemma ValuesAppend(a: seq<string>, b: seq<string>)
    requires AllGroups(a) && AllGroups(b)
    ensures AllGroups(a + b) && Values(a + b) == Values(a) + Values(b)
  {
  }

  lemma ZerosAreZero(n: nat)
    ensures AllGroups(Zeros(n)) && Values(Zeros(n)) == ZeroWords(n)
  {
    assert GroupValue("0") == 0 by {
      var z := "0";
      assert z[..0] == "" && GroupValue(z) == GroupValue(z[..|z| - 1]) * 16 + HexValue(z[0]);
    }
  }

  lemma FullGroups(groups: seq<string>)
    requires AllGroups(groups) && |groups| == 8
    ensures EightGroups(Join(groups, ':')) == Some(groups)
  {
    var s := Join(groups, ':');
    JoinOfGroups(groups);
    GroupsAreClean(groups);
    SplitDoubleNone(s, ':');
    SplitJoin(groups, ':');
  }

  lemma HalfGroups(groups: seq<string>)
    requires AllGroups(groups)
    ensures Groups(JoinOrEmpty(groups)) == groups
    ensures HexOrColon(JoinOrEmpty(groups)) && NoDouble(JoinOrEmpty(groups), ':')
    ensures JoinOrEmpty(groups) != "" ==> JoinOrEmpty(groups)[|JoinOrEmpty(groups)| - 1] != ':'
  {
    if groups != [] {
      JoinOfGroups(groups);
      GroupsAreClean(groups);
      SplitJoin(groups, ':');
    }
  }

  lemma CompressedGroups(left: seq<string>, right: seq<string>)
    requires AllGroups(left) && AllGroups(right) && |left| + |right| <= 7
    ensures var s := JoinOrEmpty(left) + "::" + JoinOrEmpty(right);
      HexOrColon(s) && ':' in s && EightGroups(s) == Some(left + Zeros(8 - |left| - |right|) + right)
  {
    hide JoinOrEmpty, HexOrColon, IsHex;
    HalfGroups(left);
    HalfGroups(right);
    var a, b := JoinOrEmpty(left), JoinOrEmpty(right);
    TwoHalves(a, b);
    assert (a + "::" + b)[|a|] == ':';
    HexOrColonAcross(a, b);
  }

  lemma HexOrColonAcross(a: string, b: string)
    requires HexOrColon(a) && HexOrColon(b)
    ensures HexOrColon(a + "::" + b)
  {
    var s := a + "::" + b;
    forall i | 0 <= i < |s| ensures IsHex(s[i]) || s[i] == ':' {
      if i >= |a| + 2 {
        assert s[i] == b[i - |a| - 2];
      }
    }
  }

  lemma TwoHalves(a: string, b: string)
    requires NoDouble(a, ':') && NoDouble(b, ':') && (a != "" ==> a[|a| - 1] != ':')
    ensures SplitDouble(a + "::" + b, ':') == [a, b]
  {
    SplitDoubleAt(a, ':', b);
    SplitDoubleNone(b, ':');
    assert "::" == [':', ':'];
  }

  lemma FullParses(groups: seq<string>)
    requires AllGroups(groups) && |groups| == 8
    ensures var s := Join(groups, ':');
      ParseIpv6Words(s) == Some(Values(groups)) && HexOrColon(s) && ':' in s
  {
    JoinOfGroups(groups);
    JoinHasColon(groups);
    FullGroups(groups);
    GroupsParse(Join(groups, ':'), groups);
  }

  lemma CompressedParses(left: seq<string>, right: seq<string>)
    requires AllGroups(left) && AllGroups(right) && |left| + |right| <= 7
    ensures var s := JoinOrEmpty(left) + "::" + JoinOrEmpty(right);
      && ParseIpv6Words(s) == Some(Values(left) + ZeroWords(8 - |left| - |right|) + Values(right))
      && HexOrColon(s) && ':' in s
  {
    var s := JoinOrEmpty(left) + "::" + JoinOrEmpty(right);
    var n := 8 - |left| - |right|;
    hide *;
    CompressedGroups(left, right);
    PaddedValues(left, n, right);
    GroupsParse(s, left + Zeros(n) + right);
  }

  lemma PaddedValues(left: seq<string>, n: nat, right: seq<string>)
    requires AllGroups(left) && AllGroups(right)
    ensures AllGroups(left + Zeros(n) + right)
    ensures Values(left + Zeros(n) + right) == Values(left) + ZeroWords(n) + Values(right)
  {
    ZerosAreZero(n);
    ValuesAppend(left, Zeros(n));
    ValuesAppend(left + Zeros(n), right);
  }

  lemma GroupsParse(s: string, words: seq<string>)
    requires HexOrColon(s) && ':' in s && EightGroups(s) == Some(words) && AllGroups(words)
    ensures ParseIpv6Words(s) == Some(Values(words))
  {
    HexOrColonHasNoDot(s);
    UndottedWithoutDots(s);
  }

  /** Every spelling without a dotted tail parses to its value. */
  lemma PlainSpellingParses(sp: Spelling)
    requires ValidSpelling(sp) && sp.tail.None?
    ensures ParseIpv6Words(Render(sp)) == Some(WordsOf(sp)) && HexOrColon(Render(sp)) && ':' in Render(sp)
  {
    hide ParseIpv6Words, HexOrColon, JoinOrEmpty, Join, Values;
    match sp
    case Full(groups, _) =>
      assert groups + TailTexts(sp.tail) == groups && Values(groups) + TailWords(sp.tail) == Values(groups);
      FullParses(groups);
    case Compressed(left, right, _) =>
      assert right + TailTexts(sp.tail) == right;
      CompressedParses(left, right);
      var ws := Values(left) + ZeroWords(8 - |left| - |right|) + Values(right);
      assert ws + TailWords(sp.tail) == ws;
  }

  // ---- a dotted tail is two groups --------------------------------------------

  lemma {:induction false} HexRoundTrip(n: nat)
    ensures Hex(n) != "" && (forall i | 0 <= i < |Hex(n)| :: IsHex(Hex(n)[i])) && GroupValue(Hex(n)) == n
    ensures n < 16 ==> |Hex(n)| == 1
    ensures n < 256 ==> |Hex(n)| <= 2
    ensures n < 4096 ==> |Hex(n)| <= 3
    ensures n < 65536 ==> |Hex(n)| <= 4
  {
    var s := Hex(n);
    if n < 16 {
      assert s[..|s| - 1] == "";
    } else {
      HexRoundTrip(n / 16);
      assert s[..|s| - 1] == Hex(n / 16);
    }
  }

  lemma HexIsGroup(n: nat)
    requires n < 0x1_0000
    ensures IsGroup(Hex(n)) && GroupValue(Hex(n)) == n
  {
    HexRoundTrip(n);
  }

  /** The spelling with its dotted tail written as two groups. */
  function Undot(sp: Spelling): Spelling
    requires ValidSpelling(sp) && sp.tail.Some?
  {
    var two := [Hex(sp.tail.value / 0x1_0000), Hex(sp.tail.value % 0x1_0000)];
    match sp
    case Full(groups, _) => Full(groups + two, None)
    case Compressed(left, right, _) => Compressed(left, right + two, None)
  }

  lemma UndotKeepsWords(sp: Spelling)
    requires ValidSpelling(sp) && sp.tail.Some?
    ensures ValidSpelling(Undot(sp)) && WordsOf(Undot(sp)) == WordsOf(sp)
  {
    var hi, lo := sp.tail.value / 0x1_0000, sp.tail.value % 0x1_0000;
    var two := [Hex(hi), Hex(lo)];
    TwoGroups(hi, lo);
    ValuesAppend(if sp.Full? then sp.groups else sp.right, two);
  }

  lemma TwoGroups(hi: nat, lo: nat)
    requires hi < 0x1_0000 && lo < 0x1_0000
    ensures AllGroups([Hex(hi), Hex(lo)]) && Values([Hex(hi), Hex(lo)]) == [hi, lo]
  {
    HexIsGroup(hi);
    HexIsGroup(lo);
  }

  /** Everything before the dotted tail; it ends in a colon. */
  function BeforeTail(sp: Spelling): string
    requires ValidSpelling(sp) && sp.tail.Some?
  {
    match sp
    case Full(groups, _) => Join(groups, ':') + ":"
    case Compressed(left, right, _) => JoinOrEmpty(left) + "::" + (if right == [] then "" else Join(right, ':') + ":")
  }

  lemma JoinWithTail(parts: seq<string>, last: string)
    ensures JoinOrEmpty(parts + [last]) == (if parts == [] then "" else Join(parts, ':') + ":") + last
  {
    if parts == [] {
      assert parts + [last] == [last];
    } else {
      JoinAppend(parts, [last], ':');
    }
  }

  lemma JoinWithTwo(parts: seq<string>, hi: string, lo: string)
    ensures JoinOrEmpty(parts + [hi, lo]) == (if parts == [] then "" else Join(parts, ':') + ":") + (hi + ":" + lo)
  {
    assert Join([hi, lo], ':') == hi + ":" + lo;
    if parts == [] {
      assert parts + [hi, lo] == [hi, lo];
    } else {
      JoinAppend(parts, [hi, lo], ':');
    }
  }

  lemma RenderWithTail(sp: Spelling)
    requires ValidSpelling(sp) && sp.tail.Some?
    ensures Render(sp) == BeforeTail(sp) + Dotted(sp.tail.value)
    ensures ValidSpelling(Undot(sp))
    ensures Render(Undot(sp))
         == BeforeTail(sp) + (Hex(sp.tail.value / 0x1_0000) + ":" + Hex(sp.tail.value % 0x1_0000))
  {
    hide Hex, Dotted, Join, Values;
    UndotKeepsWords(sp);
    var n := sp.tail.value;
    var hi, lo := Hex(n / 0x1_0000), Hex(n % 0x1_0000);
    var parts := if sp.Full? then sp.groups else sp.right;
    JoinWithTail(parts, Dotted(n));
    JoinWithTwo(parts, hi, lo);
    assert parts + [hi, lo] + TailTexts(None) == parts + [hi, lo];
  }

  lemma {:induction false} LastColonAt(a: string, b: string)
    requires a != "" && a[|a| - 1] == ':' && ':' !in b
    ensures AfterLastColon(a + b) == |a|
    decreases |b|
  {
    if b == "" {
      assert a + b == a;
    } else {
      var s := a + b;
      assert s[..|s| - 1] == a + b[..|b| - 1];
      LastColonAt(a, b[..|b| - 1]);
    }
  }

  lemma {:induction false} JoinStaysClean(parts: seq<string>, c: char, x: char)
    requires parts != [] && Without(parts, x) && c != x
    ensures x !in Join(parts, c)
  {
    if |parts| > 1 {
      assert parts[0] in parts;
      JoinStaysClean(parts[1..], c, x);
    }
  }

  lemma {:induction false} DottedHasNoColon(n: nat)
    requires n < TWO_32
    ensures ':' !in Dotted(n)
  {
    DottedPartsClean(n);
    var p := DottedParts(n);
    JoinStaysClean(p, '.', ':');
  }

  lemma UndottedTail(prefix: string, n: nat)
    requires prefix != "" && prefix[|prefix| - 1] == ':' && n < TWO_32
    ensures Undotted(prefix + Dotted(n)) == prefix + (Hex(n / 0x1_0000) + ":" + Hex(n % 0x1_0000))
  {
    DottedHasNoColon(n);
    LastColonAt(prefix, Dotted(n));
    assert (prefix + Dotted(n))[|prefix|..] == Dotted(n) && (prefix + Dotted(n))[..|prefix|] == prefix;
    DottedParses(n);
    UndottedAt(prefix + Dotted(n), |prefix|, n);
  }

  lemma UndottedAt(ip: string, cut: nat, n: nat)
    requires cut == AfterLastColon(ip) && cut > 0 && n < TWO_32 && ParseV4(ip[cut..]) == Some(n)
    ensures Undotted(ip) == ip[..cut] + (Hex(n / 0x1_0000) + ":" + Hex(n % 0x1_0000))
  {
    assert n / 0x1_0000 % 0x1_0000 == n / 0x1_0000;
  }

  lemma TailFollowsColon(sp: Spelling)
    requires ValidSpelling(sp) && sp.tail.Some?
    ensures BeforeTail(sp) != "" && BeforeTail(sp)[|BeforeTail(sp)| - 1] == ':'
    ensures sp.tail.value < TWO_32 && Undot(sp).tail.None?
  {
    hide Join, JoinOrEmpty, Hex;
  }

  /** The parser sees only the undotted text. */
  lemma SameUndotted(a: string, b: string)
    requires Undotted(a) == Undotted(b)
    ensures ParseIpv6Words(a) == ParseIpv6Words(b)
  {
    hide Undotted, HexOrColon, EightGroups, AllGroups, Values;
  }

  lemma DottedSpellingParses(sp: Spelling)
    requires ValidSpelling(sp) && sp.tail.Some?
    ensures ParseIpv6Words(Render(sp)) == Some(WordsOf(sp))
  {
    hide *;
    TailFollowsColon(sp);
    RenderWithTail(sp);
    UndotKeepsWords(sp);
    UndottedTail(BeforeTail(sp), sp.tail.value);
    var plain := Render(Undot(sp));
    PlainSpellingParses(Undot(sp));
    HexOrColonHasNoDot(plain);
    UndottedWithoutDots(plain);
    SameUndotted(Render(sp), plain);
  }

  /** Every spelling RFC 4291 allows parses to the value it spells. */
  lemma SpellingParses(sp: Spelling)
    requires ValidSpelling(sp)
    ensures ParseIpv6Words(Render(sp)) == Some(WordsOf(sp))
  {
    if sp.tail.Some? { DottedSpellingParses(sp); } else { PlainSpellingParses(sp); }
  }

  // ---- and nothing else parses ------------------------------------------------

  lemma GroupsJoin(half: string)
    ensures JoinOrEmpty(Groups(half)) == half
  {
    if half != "" {
      JoinSplit(half, ':');
    }
  }

  lemma EightGroupsAre(s: string) returns (sp: Spelling)
    requires HexOrColon(s) && ':' in s && EightGroups(s).Some? && AllGroups(EightGroups(s).value)
    ensures ValidSpelling(sp) && sp.tail.None? && Render(sp) == s
  {
    var halves := SplitDouble(s, ':');
    var words := EightGroups(s).value;
    JoinDouble(s, ':');
    if |halves| == 1 {
      GroupsJoin(s);
      sp := Full(words, None);
      assert words + [] == words;
    } else {
      var left, right := Groups(halves[0]), Groups(halves[1]);
      var n := 8 - |left| - |right|;
      assert words == left + Zeros(n) + right;
      forall i | 0 <= i < |left| ensures IsGroup(left[i]) { assert words[i] == left[i]; }
      forall i | 0 <= i < |right| ensures IsGroup(right[i]) { assert words[|left| + n + i] == right[i]; }
      GroupsJoin(halves[0]);
      GroupsJoin(halves[1]);
      sp := Compressed(left, right, None);
      assert right + [] == right && "::" == [':', ':'];
    }
  }

  lemma {:induction false} LastColonSplits(s: string)
    ensures var cut := AfterLastColon(s);
      (cut > 0 ==> s[cut - 1] == ':') && ':' !in s[cut..]
  {
    if s != "" && s[|s| - 1] != ':' {
      var init := s[..|s| - 1];
      LastColonSplits(init);
      var cut := AfterLastColon(init);
      assert s[cut..] == init[cut..] + [s[|s| - 1]];
    }
  }

  lemma SplitTwo(hi: string, lo: string)
    requires IsGroup(hi) && IsGroup(lo)
    ensures Split(hi + ":" + lo, ':') == [hi, lo]
  {
    GroupsAreClean([hi, lo]);
    SplitHead(hi, ':', lo);
    SplitOne(lo, ':');
  }

  /** Two groups at the end of a run of groups are its last two parts. */
  lemma EndsInTwo(run: string, hi: string, lo: string)
    requires IsGroup(hi) && IsGroup(lo) && run != "" && run[|run| - 1] == ':'
    ensures Split(run + (hi + ":" + lo), ':') == Split(run[..|run| - 1], ':') + [hi, lo]
    ensures forall x :: Join(Split(run[..|run| - 1], ':') + [x], ':') == run + x
  {
    var init := run[..|run| - 1];
    assert run == init + [':'];
    SplitTwo(hi, lo);
    SplitAppend(init, ':', hi + ":" + lo);
    assert run + (hi + ":" + lo) == init + [':'] + (hi + ":" + lo);
    forall x ensures Join(Split(init, ':') + [x], ':') == run + x {
      JoinAppend(Split(init, ':'), [x], ':');
      JoinSplit(init, ':');
    }
  }

  lemma InsideGroups(prefix: string, hi: string, lo: string, j: nat)
    requires IsGroup(hi) && IsGroup(lo)
    requires |prefix| <= j < |prefix| + |hi| + 1 + |lo| && j != |prefix| + |hi|
    ensures (prefix + (hi + ":" + lo))[j] != ':'
  {
    var s := prefix + (hi + ":" + lo);
    if j < |prefix| + |hi| {
      assert s[j] == hi[j - |prefix|];
    } else {
      assert s[j] == lo[j - |prefix| - |hi| - 1];
    }
  }

  /** The `::` of a compressed spelling lies before its last two groups. */
  lemma DoubleBeforeTail(h0: string, h1: string, prefix: string, hi: string, lo: string)
    requires IsGroup(hi) && IsGroup(lo) && h0 + "::" + h1 == prefix + (hi + ":" + lo)
    ensures |h0| + 2 <= |prefix|
    ensures prefix[..|h0|] == h0 && prefix[|h0|] == ':' && prefix[|h0| + 1] == ':'
    ensures h1 == prefix[|h0| + 2..] + (hi + ":" + lo)
  {
    var s := prefix + (hi + ":" + lo);
    assert (h0 + "::" + h1)[|h0|] == ':' && (h0 + "::" + h1)[|h0| + 1] == ':';
    assert s[|h0|] == ':' && s[|h0| + 1] == ':';
    forall j | |prefix| <= j < |s| && j != |prefix| + |hi| ensures s[j] != ':' {
      InsideGroups(prefix, hi, lo, j);
    }
    assert |h0| + 2 <= |prefix|;
    assert h0 == (h0 + "::" + h1)[..|h0|] == s[..|h0|] == prefix[..|h0|];
    assert h1 == (h0 + "::" + h1)[|h0| + 2..] == s[|h0| + 2..];
    assert s[|h0| + 2..] == prefix[|h0| + 2..] + (hi + ":" + lo);
  }

  /** A plain spelling ending in two groups is the undotted form of one with a dotted tail. */
  lemma Redot(plain: Spelling, prefix: string, n: nat) returns (sp: Spelling)
    requires ValidSpelling(plain) && plain.tail.None? && n < TWO_32
    requires prefix != "" && prefix[|prefix| - 1] == ':'
    requires Render(plain) == prefix + (Hex(n / 0x1_0000) + ":" + Hex(n % 0x1_0000))
    ensures ValidSpelling(sp) && Render(sp) == prefix + Dotted(n)
  {
    var hi, lo := Hex(n / 0x1_0000), Hex(n % 0x1_0000);
    HexIsGroup(n / 0x1_0000);
    HexIsGroup(n % 0x1_0000);
    if plain.Full? {
      sp := RedotFull(plain.groups, prefix, n);
    } else {
      sp := RedotCompressed(plain.left, plain.right, prefix, n);
    }
  }

  lemma RedotFull(groups: seq<string>, prefix: string, n: nat) returns (sp: Spelling)
    requires AllGroups(groups) && |groups| == 8 && n < TWO_32
    requires prefix != "" && prefix[|prefix| - 1] == ':'
    requires Join(groups + TailTexts(None), ':') == prefix + (Hex(n / 0x1_0000) + ":" + Hex(n % 0x1_0000))
    ensures ValidSpelling(sp) && Render(sp) == prefix + Dotted(n)
  {
    hide Hex, Dotted, Split;
    var hi, lo := Hex(n / 0x1_0000), Hex(n % 0x1_0000);
    HexIsGroup(n / 0x1_0000);
    HexIsGroup(n % 0x1_0000);
    assert groups + TailTexts(None) == groups;
    GroupsAreClean(groups);
    SplitJoin(groups, ':');
    EndsInTwo(prefix, hi, lo);
    var shorter := Split(prefix[..|prefix| - 1], ':');
    assert groups == shorter + [hi, lo];
    assert shorter == groups[..6];
    sp := Full(shorter, Some(n));
    assert TailTexts(Some(n)) == [Dotted(n)];
  }

  lemma RedotCompressed(left: seq<string>, right: seq<string>, prefix: string, n: nat) returns (sp: Spelling)
    requires AllGroups(left) && AllGroups(right) && |left| + |right| <= 7 && n < TWO_32
    requires prefix != "" && prefix[|prefix| - 1] == ':'
    requires JoinOrEmpty(left) + "::" + JoinOrEmpty(right + TailTexts(None))
          == prefix + (Hex(n / 0x1_0000) + ":" + Hex(n % 0x1_0000))
    ensures ValidSpelling(sp) && Render(sp) == prefix + Dotted(n)
  {
    hide Hex, Dotted, Join, HexOrColon, NoDouble;
    var hi, lo := Hex(n / 0x1_0000), Hex(n % 0x1_0000);
    HexIsGroup(n / 0x1_0000);
    HexIsGroup(n % 0x1_0000);
    assert right + TailTexts(None) == right;
    HalfGroups(right);
    var shorter := MoveTail(JoinOrEmpty(left), JoinOrEmpty(right), right, prefix, hi, lo, Dotted(n));
    assert shorter == right[..|right| - 2];
    sp := Compressed(left, shorter, Some(n));
  }

  lemma MoveTail(h0: string, h1: string, right: seq<string>, prefix: string, hi: string, lo: string, tail: string)
    returns (shorter: seq<string>)
    requires IsGroup(hi) && IsGroup(lo) && Groups(h1) == right
    requires prefix != "" && prefix[|prefix| - 1] == ':' && h0 + "::" + h1 == prefix + (hi + ":" + lo)
    ensures right == shorter + [hi, lo] && h0 + "::" + JoinOrEmpty(shorter + [tail]) == prefix + tail
  {
    DoubleBeforeTail(h0, h1, prefix, hi, lo);
    var run := prefix[|h0| + 2..];
    assert prefix == h0 + "::" + run;
    assert run != "" ==> run[|run| - 1] == ':';
    shorter := ShorterRight(right, run, hi, lo, tail);
    assert h0 + "::" + (run + tail) == prefix + tail;
  }

  lemma ShorterRight(right: seq<string>, run: string, hi: string, lo: string, tail: string)
    returns (shorter: seq<string>)
    requires IsGroup(hi) && IsGroup(lo) && (run != "" ==> run[|run| - 1] == ':')
    requires Groups(run + (hi + ":" + lo)) == right
    ensures right == shorter + [hi, lo] && JoinOrEmpty(shorter + [tail]) == run + tail
  {
    if run == "" {
      shorter := [];
      SplitTwo(hi, lo);
      assert run + (hi + ":" + lo) == hi + ":" + lo;
      assert [] + [tail] == [tail];
    } else {
      EndsInTwo(run, hi, lo);
      shorter := Split(run[..|run| - 1], ':');
    }
  }

  lemma ParsedHasEightGroups(s: string)
    requires ParseIpv6Words(s).Some?
    ensures var u := Undotted(s);
      HexOrColon(u) && ':' in u && EightGroups(u).Some? && AllGroups(EightGroups(u).value)
  {
    hide Undotted, HexOrColon, EightGroups, AllGroups, Values;
  }

  lemma NothingDotted(s: string)
    ensures AfterLastColon(s) <= |s|
    ensures AfterLastColon(s) == 0 || ParseV4(s[AfterLastColon(s)..]).None? ==> Undotted(s) == s
  {
    hide ParseV4, Hex;
  }

  lemma ParsedIsSpelling(s: string) returns (sp: Spelling)
    requires ParseIpv6Words(s).Some?
    ensures ValidSpelling(sp) && Render(sp) == s
  {
    hide *;
    var cut := AfterLastColon(s);
    ParsedHasEightGroups(s);
    LastColonSplits(s);
    sp := EightGroupsAre(Undotted(s));
    NothingDotted(s);
    if cut > 0 && ParseV4(s[cut..]).Some? {
      var n := ParseV4(s[cut..]).value;
      ParsedIsDotted(s[cut..], n);
      UndottedAt(s, cut, n);
      assert s == s[..cut] + s[cut..];
      sp := Redot(sp, s[..cut], n);
    }
  }

  /** `parseIpv6Words` is the inverse of spelling: a text parses to these groups exactly if it spells them. */
  lemma ParseExact(s: string, ws: seq<nat>)
    ensures ParseIpv6Words(s) == Some(ws)
       <==> exists sp :: ValidSpelling(sp) && Render(sp) == s && WordsOf(sp) == ws
  {
    if ParseIpv6Words(s) == Some(ws) {
      var sp := ParsedIsSpelling(s);
      SpellingParses(sp);
    }
    if exists sp :: ValidSpelling(sp) && Render(sp) == s && WordsOf(sp) == ws {
      var sp :| ValidSpelling(sp) && Render(sp) == s && WordsOf(sp) == ws;
      SpellingParses(sp);
    }
  }
}
