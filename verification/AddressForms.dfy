/** The forms in which headers and sockets carry one address: cased, padded, bracketed with a port, with a zone. */
module AddressForms {
  import opened Wrappers
  import opened Texts
  import opened Addresses
  import opened AddressSpelling
  import opened AddressClass

  predicate AddressChar(c: char) {
    IsHex(c) || c == ':' || c == '.'
  }

  lemma AddressChars(s: string, a: Address)
    requires Spells(s, a) && !a.NoAddress?
    ensures s != "" && forall i | 0 <= i < |s| :: AddressChar(s[i])
  {
    match a
    case V4(n) =>
      CharsOfDotted(n);
      DottedChars(n);
    case V6(v) =>
      var sp :| ValidSpelling(sp) && Render(sp) == s && Value(WordsOf(sp)) == v;
      SpellingParses(sp);
      ParsedLooksLikeV6(s);
  }

  // ---- trimming and cutting ---------------------------------------------------

  predicate Blank(s: string) {
    forall i | 0 <= i < |s| :: IsSpace(s[i])
  }

  lemma {:induction false} BlanksGo(blank: string, s: string)
    requires Blank(blank) && (s == "" || !IsSpace(s[0]))
    ensures TrimLeft(blank + s) == s
  {
    if blank == "" {
      assert blank + s == s;
    } else {
      assert (blank + s)[1..] == blank[1..] + s;
      BlanksGo(blank[1..], s);
    }
  }

  lemma {:induction false} TrimmedBehind(s: string, rest: string)
    requires s != "" && !IsSpace(s[|s| - 1])
    ensures TrimRight(s + rest) == s + TrimRight(rest)
    decreases |rest|
  {
    if rest == "" {
      assert s + rest == s;
    } else {
      assert (s + rest)[..|s + rest| - 1] == s + rest[..|rest| - 1];
      if IsSpace(rest[|rest| - 1]) { TrimmedBehind(s, rest[..|rest| - 1]); }
    }
  }

  lemma {:induction false} TrimRightFront(s: string)
    ensures TrimRight(s) <= s
    ensures Blank(s) ==> TrimRight(s) == ""
    ensures s != "" && !IsSpace(s[0]) ==> TrimRight(s) != ""
  {
    if s != "" && IsSpace(s[|s| - 1]) { TrimRightFront(s[..|s| - 1]); }
  }

  lemma {:induction false} BeforePast(head: string, tail: string, c: char)
    requires c !in head
    ensures Before(head + tail, c) == head + Before(tail, c)
  {
    if head == "" {
      assert head + tail == tail;
    } else {
      assert (head + tail)[1..] == head[1..] + tail;
      BeforePast(head[1..], tail, c);
      assert [head[0]] + (head[1..] + Before(tail, c)) == head + Before(tail, c);
    }
  }

  lemma BeforeItself(s: string, c: char)
    ensures s == "" || s[0] == c ==> Before(s, c) == ""
    ensures s != "" && s[0] != c ==> Before(s, c) != "" && Before(s, c)[0] == s[0]
  {
  }

  /** What may follow an address without belonging to it: blanks, a zone, or a closing bracket and anything. */
  predicate MayFollow(rest: string) {
    Blank(rest) || rest[0] == '%' || rest[0] == ']'
  }

  lemma CutsToNothing(rest: string)
    requires rest == "" || rest[0] == '%' || rest[0] == ']'
    ensures Before(Before(rest, ']'), '%') == ""
  {
    BeforeItself(rest, ']');
    BeforeItself(Before(rest, ']'), '%');
  }

  lemma LowerParts(a: string, b: string)
    ensures Lower(a + b) == Lower(a) + Lower(b)
  {
  }

  // ---- one address, however it is written -------------------------------------

  lemma TrimsTo(blank: string, text: string, rest: string) returns (tail: string)
    requires Blank(blank) && text != "" && !IsSpace(text[0]) && !IsSpace(text[|text| - 1]) && MayFollow(rest)
    ensures Trim(blank + (text + rest)) == text + tail && (tail == "" || tail[0] == '%' || tail[0] == ']')
  {
    BlanksGo(blank, text + rest);
    TrimmedBehind(text, rest);
    TrimRightFront(rest);
    tail := TrimRight(rest);
  }

  lemma CoreOf(value: string, s: string, bracket: bool, end: string)
    requires s != "" && forall i | 0 <= i < |s| :: AddressChar(s[i])
    requires end == "" || end[0] == '%' || end[0] == ']'
    requires Lower(Trim(value)) == (if bracket then "[" else "") + (s + end)
    ensures Core(value) == s
  {
    hide Lower, Trim, Before;
    assert AddressChar(s[0]);
    var ip := Lower(Trim(value));
    assert "unknown"[0] == 'u' && ip[0] != 'u';
    var inner := if ip[0] == '[' then ip[1..] else ip;
    assert inner == s + end;
    forall i | 0 <= i < |s| ensures s[i] != ']' && s[i] != '%' { assert AddressChar(s[i]); }
    BeforePast(s, end, ']');
    BeforePast(s, Before(end, ']'), '%');
    CutsToNothing(end);
    assert s + "" == s;
  }

  lemma CasedEnds(text: string)
    requires text != "" && forall i | 0 <= i < |text| :: AddressChar(Lower(text)[i])
    ensures !IsSpace(text[0]) && !IsSpace(text[|text| - 1])
  {
    assert AddressChar(Lower(text)[0]) && AddressChar(Lower(text)[|text| - 1]);
  }

  /** The core of any dressing of an address is the address in lower case. */
  lemma DressedCore(s: string, a: Address, text: string, blank: string, bracket: bool, rest: string)
    requires Spells(s, a) && !a.NoAddress? && Lower(text) == s && Blank(blank) && MayFollow(rest)
    ensures Core(blank + ((if bracket then "[" else "") + text + rest)) == s
  {
    hide Spells, Core, Trim, AddressChar;
    AddressChars(s, a);
    CasedEnds(text);
    var open := if bracket then "[" else "";
    var tail := TrimsTo(blank, open + text, rest);
    LowerParts(open + text, tail);
    LowerParts(open, text);
    assert Lower(open) == open;
    assert Lower(open) + Lower(text) + Lower(tail) == open + (s + Lower(tail));
    CoreOf(blank + (open + text + rest), s, bracket, Lower(tail));
  }

  /** The text every form of an address is normalised to. */
  function Normal(s: string, a: Address): string {
    match a
    case V6(v) => if 0xffff_0000_0000 <= v < 0x1_0000_0000_0000 then Dotted(v - 0xffff_0000_0000) else s
    case _ => s
  }

  /**
   However an address is written, in either case, padded, in brackets with a port behind, or
   with a zone, it is normalised to one text: its spelling, or the dotted form of a mapped one.
   */
  lemma DressedAlike(s: string, a: Address, text: string, blank: string, bracket: bool, rest: string)
    requires Spells(s, a) && !a.NoAddress? && Lower(text) == s && Blank(blank) && MayFollow(rest)
    ensures NormalizeIp(blank + ((if bracket then "[" else "") + text + rest)) == Normal(s, a)
  {
    var value := blank + ((if bracket then "[" else "") + text + rest);
    DressedCore(s, a, text, blank, bracket, rest);
    NormalizeExact(value);
    match a
    case V4(n) =>
      DottedIsNoV6(n);
    case V6(v) =>
      var sp :| ValidSpelling(sp) && Render(sp) == s && Value(WordsOf(sp)) == v;
      SpellingParses(sp);
  }

  lemma DottedIsNoV6(n: nat)
    requires n < TWO_32
    ensures ParseIpv6Words(Dotted(n)).None?
  {
    if ParseIpv6Words(Dotted(n)).Some? {
      ParsedLooksLikeV6(Dotted(n));
      CharsOfDotted(n);
    }
  }

  /** Nothing, blanks and the word `unknown` in any case name nobody. */
  lemma NobodyIsEmpty(value: string)
    requires Blank(value) || Lower(Trim(value)) == "unknown"
    ensures NormalizeIp(value) == ""
  {
    if Blank(value) {
      BlanksGo(value, "");
      assert value + "" == value;
      assert Core(value) == "";
    }
    assert Core(value) == "";
    assert MappedV4("") == "" by { assert Undotted("") == ""; }
  }
}
