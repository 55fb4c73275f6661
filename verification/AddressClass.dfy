/**
 Which addresses count as private: a fixed union of ranges of the 32-bit or 128-bit value,
 whatever spelling the request carried.
 */
module AddressClass {
  import opened Wrappers
  import opened Texts
  import opened Addresses
  import opened AddressSpelling

  // ---- masks are prefixes -----------------------------------------------------

  lemma {:induction false} BitAndOnes(a: nat, n: nat)
    requires a < Pow2(n)
    ensures BitAnd(a, Pow2(n) - 1) == a
  {
    if n > 0 && a > 0 {
      assert (Pow2(n) - 1) / 2 == Pow2(n - 1) - 1 && (Pow2(n) - 1) % 2 == 1;
      BitAndOnes(a / 2, n - 1);
    }
  }

  lemma {:induction false} Pow2Grows(k: nat, n: nat)
    requires k <= n
    ensures Pow2(k) <= Pow2(n)
    decreases n
  {
    if k < n {
      Pow2Grows(k, n - 1);
    }
  }

  lemma HalvesDivide(a: nat, p: nat)
    requires p > 0
    ensures a / 2 / p == a / (2 * p)
  {
    var q := a / 2 / p;
    var r := a / 2 % p;
    assert a / 2 == p * q + r;
    assert a == 2 * (a / 2) + a % 2;
    assert 2 * p * q == 2 * (p * q);
    QuotientIs(a, 2 * p, q, 2 * r + a % 2);
  }

  lemma QuotientIs(a: nat, d: nat, q: nat, r: nat)
    requires d > 0 && r < d && a == d * q + r
    ensures a / d == q
  {
    var e := a / d - q;
    assert a == d * (a / d) + a % d;
    assert d * (a / d) == d * q + d * e;
    assert d * e == r - a % d;
    Scale(d, e);
  }

  lemma Scale(d: int, e: int)
    requires d > 0
    ensures e >= 1 ==> d * e >= d
    ensures e <= -1 ==> d * e <= -d
  {
  }

  lemma Pow2Doubles(k: nat)
    requires k > 0
    ensures Pow2(k) == 2 * Pow2(k - 1)
  {
  }

  lemma BitAndNothing(a: nat, b: nat)
    requires a == 0 || b == 0
    ensures BitAnd(a, b) == 0
  {
  }

  /** Anding with ones shifted left by k clears the low k bits. */
  lemma {:induction false} BitAndMask(a: nat, n: nat, k: nat)
    requires k <= n && a < Pow2(n)
    ensures Pow2(k) <= Pow2(n)
    ensures BitAnd(a, Pow2(n) - Pow2(k)) == a / Pow2(k) * Pow2(k)
    decreases n
  {
    Pow2Grows(k, n);
    if k == 0 {
      BitAndOnes(a, n);
    } else if a == 0 || n == k {
      SmallQuotient(a, Pow2(k));
      BitAndNothing(a, Pow2(n) - Pow2(k));
    } else {
      hide BitAnd, Pow2;
      var p := Pow2(k - 1);
      Pow2Doubles(k);
      Pow2Doubles(n);
      Pow2Grows(k - 1, n - 1);
      BitAndMask(a / 2, n - 1, k - 1);
      EvenMask(a, Pow2(n) - Pow2(k), Pow2(n - 1) - p);
      HalvesDivide(a, p);
      Twice(a / 2 / p, p);
      assert a / Pow2(k) == a / 2 / p;
    }
  }

  lemma SmallQuotient(a: nat, d: nat)
    requires a < d
    ensures a / d == 0 && a / d * d == 0
  {
  }

  lemma EvenMask(a: nat, mask: nat, half: nat)
    requires mask == 2 * half
    ensures BitAnd(a, mask) == 2 * BitAnd(a / 2, half)
  {
  }

  lemma Twice(q: nat, p: nat)
    ensures q * (2 * p) == 2 * (q * p)
  {
  }

  lemma SameMultiple(x: nat, y: nat, p: nat)
    requires p > 0
    ensures x * p == y * p <==> x == y
  {
  }

  /** Equal under a prefix mask means equal after dropping the low bits. */
  lemma MaskComparesPrefix(a: nat, b: nat, n: nat, k: nat)
    requires k <= n && a < Pow2(n) && b < Pow2(n)
    ensures Pow2(k) <= Pow2(n)
    ensures BitAnd(a, Pow2(n) - Pow2(k)) == BitAnd(b, Pow2(n) - Pow2(k)) <==> a / Pow2(k) == b / Pow2(k)
  {
    BitAndMask(a, n, k);
    BitAndMask(b, n, k);
    SameMultiple(a / Pow2(k), b / Pow2(k), Pow2(k));
  }

  lemma Powers()
    ensures Pow2(4) == 0x10 && Pow2(6) == 0x40 && Pow2(8) == 0x100 && Pow2(9) == 0x200 && Pow2(16) == 0x1_0000
    ensures Pow2(17) == 0x2_0000 && Pow2(20) == 0x10_0000 && Pow2(22) == 0x40_0000 && Pow2(24) == 0x100_0000
    ensures Pow2(28) == 0x1000_0000 && Pow2(32) == TWO_32
  {
    assert Pow2(4) == 0x10;
    assert Pow2(8) == 0x100;
    assert Pow2(12) == 0x1000;
    assert Pow2(16) == 0x1_0000;
    assert Pow2(20) == 0x10_0000;
    assert Pow2(24) == 0x100_0000;
    assert Pow2(28) == 0x1000_0000;
  }

  lemma ShiftedOnesIsMask(k: nat)
    requires 1 <= k <= 31
    ensures Pow2(k) < TWO_32 && ShiftedOnes(k) == TWO_32 - Pow2(k)
  {
    Powers();
    Pow2Doubles(32);
    Pow2Grows(k, 31);
    hide Pow2;
    var p := Pow2(k);
    assert 0xffff_ffff * p == TWO_32 * (p - 1) + (TWO_32 - p);
  }

  /** `inV4Net` is the integer-division prefix test. */
  lemma InV4NetIsPrefix(addr: nat, network: nat, prefix: nat)
    requires addr < TWO_32 && network < TWO_32 && prefix <= 32
    ensures InV4Net(addr, network, prefix) <==> addr / Pow2(32 - prefix) == network / Pow2(32 - prefix)
  {
    Powers();
    MaskComparesPrefix(addr, network, 32, 32 - prefix);
    if 0 < prefix < 32 {
      ShiftedOnesIsMask(32 - prefix);
    }
  }

  // ---- private IPv4 ranges ----------------------------------------------------

  predicate InPrivateV4(n: nat) {
    || n < 0x0100_0000
    || 0x0a00_0000 <= n < 0x0b00_0000
    || 0x6440_0000 <= n < 0x6480_0000
    || 0x7f00_0000 <= n < 0x8000_0000
    || 0xa9fe_0000 <= n < 0xa9ff_0000
    || 0xac10_0000 <= n < 0xac20_0000
    || 0xc0a8_0000 <= n < 0xc0a9_0000
    || 0xc612_0000 <= n < 0xc614_0000
    || 0xe000_0000 <= n
  }

  lemma DottedText(n: nat, a: string, b: string, c: string, d: string)
    requires n < TWO_32 && DottedParts(n) == [a, b, c, d]
    ensures Dotted(n) == a + "." + (b + "." + (c + "." + d))
  {
    assert [a, b, c, d][1..] == [b, c, d] && [b, c, d][1..] == [c, d] && [c, d][1..] == [d];
    assert Join([d], '.') == d;
    assert Join([c, d], '.') == c + "." + d;
    assert Join([b, c, d], '.') == b + "." + Join([c, d], '.');
  }

  predicate SharesPrefix(n: nat, i: nat)
    requires i < |PRIVATE_V4|
  {
    n / Pow2(32 - PRIVATE_V4[i].1) == PRIVATE_V4[i].0 / Pow2(32 - PRIVATE_V4[i].1)
  }

  lemma InNetwork(n: nat, i: nat)
    requires n < TWO_32 && i < |PRIVATE_V4|
    ensures InV4Net(n, PRIVATE_V4[i].0, PRIVATE_V4[i].1) <==> SharesPrefix(n, i)
  {
    InV4NetIsPrefix(n, PRIVATE_V4[i].0, PRIVATE_V4[i].1);
  }

  lemma SharingIsInRange(n: nat, i: nat)
    requires n < TWO_32 && i < |PRIVATE_V4| && SharesPrefix(n, i)
    ensures InPrivateV4(n)
  {
    Powers();
    hide Pow2;
    match i
    case 0 => case 1 => case 2 => case 3 => case 4 => case 5 => case 6 => case 7 => case 8 => case _ =>
  }

  lemma LowNetworks(n: nat)
    requires n < TWO_32
    ensures n < 0x0100_0000 ==> SharesPrefix(n, 0)
    ensures 0x0a00_0000 <= n < 0x0b00_0000 ==> SharesPrefix(n, 1)
    ensures 0x7f00_0000 <= n < 0x8000_0000 ==> SharesPrefix(n, 2)
    ensures 0xa9fe_0000 <= n < 0xa9ff_0000 ==> SharesPrefix(n, 3)
    ensures 0xac10_0000 <= n < 0xac20_0000 ==> SharesPrefix(n, 4)
  {
    Powers();
    hide Pow2;
  }

  lemma HighNetworks(n: nat)
    requires n < TWO_32
    ensures 0xc0a8_0000 <= n < 0xc0a9_0000 ==> SharesPrefix(n, 5)
    ensures 0x6440_0000 <= n < 0x6480_0000 ==> SharesPrefix(n, 6)
    ensures 0xc612_0000 <= n < 0xc614_0000 ==> SharesPrefix(n, 7)
    ensures 0xe000_0000 <= n < 0xf000_0000 ==> SharesPrefix(n, 8)
    ensures 0xf000_0000 <= n ==> SharesPrefix(n, 9)
  {
    Powers();
    hide Pow2;
  }

  lemma RangeHasNetwork(n: nat)
    requires InPrivateV4(n) && n < TWO_32
    ensures exists i | 0 <= i < |PRIVATE_V4| :: SharesPrefix(n, i)
  {
    hide SharesPrefix;
    LowNetworks(n);
    HighNetworks(n);
  }

  /** The ten networks are exactly these ranges. */
  lemma PrivateV4Ranges(n: nat)
    requires n < TWO_32
    ensures PrivateV4(n) <==> InPrivateV4(n)
  {
    if PrivateV4(n) {
      var i :| 0 <= i < |PRIVATE_V4| && InV4Net(n, PRIVATE_V4[i].0, PRIVATE_V4[i].1);
      InNetwork(n, i);
      SharingIsInRange(n, i);
    }
    if InPrivateV4(n) {
      RangeHasNetwork(n);
      var i :| 0 <= i < |PRIVATE_V4| && SharesPrefix(n, i);
      InNetwork(n, i);
    }
  }

  // ---- private IPv6 ranges ----------------------------------------------------

  /** The 128-bit address. */
  function Value(words: seq<nat>): nat {
    if words == [] then 0 else Value(words[..|words| - 1]) * 0x1_0000 + words[|words| - 1]
  }

  predicate InPrivateV6(v: nat) {
    // ::/96 and ::ffff:0:0/96 carry an IPv4 address
    || (v < TWO_32 && InPrivateV4(v))
    || (0xffff_0000_0000 <= v < 0x1_0000_0000_0000 && InPrivateV4(v - 0xffff_0000_0000))
    // 64:ff9b::/96 and 64:ff9b:1::/48
    || 0x0064_ff9b_0000_0000_0000_0000_0000_0000 <= v < 0x0064_ff9b_0000_0000_0000_0001_0000_0000
    || 0x0064_ff9b_0001_0000_0000_0000_0000_0000 <= v < 0x0064_ff9b_0002_0000_0000_0000_0000_0000
    // 2002::/16, fc00::/7, fe80::/10, ff00::/8
    || 0x2002_0000_0000_0000_0000_0000_0000_0000 <= v < 0x2003_0000_0000_0000_0000_0000_0000_0000
    || 0xfc00_0000_0000_0000_0000_0000_0000_0000 <= v < 0xfe00_0000_0000_0000_0000_0000_0000_0000
    || 0xfe80_0000_0000_0000_0000_0000_0000_0000 <= v < 0xfec0_0000_0000_0000_0000_0000_0000_0000
    || 0xff00_0000_0000_0000_0000_0000_0000_0000 <= v
  }

  lemma ValueOfEight(w: seq<nat>)
    requires |w| == 8
    ensures Value(w) ==
      w[0] * 0x1_0000_0000_0000_0000_0000_0000_0000 + w[1] * 0x1_0000_0000_0000_0000_0000_0000
      + w[2] * 0x1_0000_0000_0000_0000_0000 + w[3] * 0x1_0000_0000_0000_0000 + w[4] * 0x1_0000_0000_0000
      + w[5] * 0x1_0000_0000 + w[6] * 0x1_0000 + w[7]
  {
    assert w[..7][..6] == w[..6] && w[..6][..5] == w[..5] && w[..5][..4] == w[..4];
    assert w[..4][..3] == w[..3] && w[..3][..2] == w[..2] && w[..2][..1] == w[..1] && w[..1][..0] == [];
    assert Value(w[..1]) == w[0];
    assert Value(w[..2]) == Value(w[..1]) * 0x1_0000 + w[1];
    assert Value(w[..3]) == Value(w[..2]) * 0x1_0000 + w[2];
    assert Value(w[..4]) == Value(w[..3]) * 0x1_0000 + w[3];
    assert Value(w[..5]) == Value(w[..4]) * 0x1_0000 + w[4];
    assert Value(w[..6]) == Value(w[..5]) * 0x1_0000 + w[5];
    assert Value(w[..7]) == Value(w[..6]) * 0x1_0000 + w[6];
  }

  /** A 16-bit mask test against a prefix of ones is a range test. */
  lemma GroupMasks(w: nat)
    requires w < 0x1_0000
    ensures BitAnd(w, 0xfe00) == 0xfc00 <==> 0xfc00 <= w < 0xfe00
    ensures BitAnd(w, 0xffc0) == 0xfe80 <==> 0xfe80 <= w < 0xfec0
    ensures BitAnd(w, 0xff00) == 0xff00 <==> 0xff00 <= w
  {
    hide BitAnd, Pow2;
    Powers();
    BitAndMask(w, 16, 9);
    BitAndMask(w, 16, 6);
    BitAndMask(w, 16, 8);
  }

  lemma CarriesV4Range(w: seq<nat>)
    requires IsWords(w)
    ensures CarriesV4(w) <==> Value(w) < TWO_32 || 0xffff_0000_0000 <= Value(w) < 0x1_0000_0000_0000
    ensures CarriesV4(w) ==> Value(w) == w[5] * TWO_32 + (w[6] * 0x1_0000 + w[7])
  {
    ValueOfEight(w);
    assert AllZero(w[..5]) <==> w[0] == 0 && w[1] == 0 && w[2] == 0 && w[3] == 0 && w[4] == 0 by {
      assert w[..5][0] == w[0] && w[..5][1] == w[1] && w[..5][2] == w[2] && w[..5][3] == w[3] && w[..5][4] == w[4];
    }
  }

  /** Splitting a number into a high part and a block below it turns ranges into ranges of the high part. */
  lemma BlockRange(high: nat, low: nat, block: nat, from: nat, to: nat)
    requires low < block
    ensures from * block <= high * block + low < to * block <==> from <= high < to
  {
    if from <= high { assert from * block <= high * block; }
    if high < to { assert (high + 1) * block <= to * block; }
    if high < from { assert (high + 1) * block <= from * block; }
    if to <= high { assert to * block <= high * block; }
  }

  lemma TopGroupRanges(w: seq<nat>)
    requires IsWords(w)
    ensures var v := Value(w);
      && (0x2002_0000_0000_0000_0000_0000_0000_0000 <= v < 0x2003_0000_0000_0000_0000_0000_0000_0000 <==> w[0] == 0x2002)
      && (0xfc00_0000_0000_0000_0000_0000_0000_0000 <= v < 0xfe00_0000_0000_0000_0000_0000_0000_0000 <==>
            0xfc00 <= w[0] < 0xfe00)
      && (0xfe80_0000_0000_0000_0000_0000_0000_0000 <= v < 0xfec0_0000_0000_0000_0000_0000_0000_0000 <==>
            0xfe80 <= w[0] < 0xfec0)
      && (0xff00_0000_0000_0000_0000_0000_0000_0000 <= v <==> 0xff00 <= w[0])
  {
    ValueOfEight(w);
    var block: nat := 0x1_0000_0000_0000_0000_0000_0000_0000;
    var low := Value(w) - w[0] * block;
    BlockRange(w[0], low, block, 0x2002, 0x2003);
    BlockRange(w[0], low, block, 0xfc00, 0xfe00);
    BlockRange(w[0], low, block, 0xfe80, 0xfec0);
    BlockRange(w[0], low, block, 0xff00, 0x1_0000);
  }

  lemma LocalNat64Range(w: seq<nat>)
    requires IsWords(w)
    ensures 0x0064_ff9b_0001_0000_0000_0000_0000_0000 <= Value(w) < 0x0064_ff9b_0002_0000_0000_0000_0000_0000 <==>
            w[0] == 0x64 && w[1] == 0xff9b && w[2] == 1
  {
    ValueOfEight(w);
    var three := (w[0] * 0x1_0000 + w[1]) * 0x1_0000 + w[2];
    var block: nat := 0x1_0000_0000_0000_0000_0000;
    BlockRange(three, Value(w) - three * block, block, 0x64_ff9b_0001, 0x64_ff9b_0002);
  }

  lemma Nat64Range(w: seq<nat>)
    requires IsWords(w)
    ensures 0x0064_ff9b_0000_0000_0000_0000_0000_0000 <= Value(w) < 0x0064_ff9b_0000_0000_0000_0001_0000_0000 <==>
            w[0] == 0x64 && w[1] == 0xff9b && w[2] == 0 && w[3] == 0 && w[4] == 0 && w[5] == 0
  {
    ValueOfEight(w);
    var three := (w[0] * 0x1_0000 + w[1]) * 0x1_0000 + w[2];
    var six := ((three * 0x1_0000 + w[3]) * 0x1_0000 + w[4]) * 0x1_0000 + w[5];
    BlockRange(six, Value(w) - six * TWO_32, TWO_32, 0x64_ff9b_0000_0000_0000_0000, 0x64_ff9b_0000_0000_0000_0001);
  }

  lemma PrivateWordsRange(w: seq<nat>)
    requires IsWords(w) && !CarriesV4(w)
    ensures PrivateWords(w) <==> InPrivateV6(Value(w))
  {
    CarriesV4Range(w);
    GroupMasks(w[0]);
    TopGroupRanges(w);
    Nat64Range(w);
    LocalNat64Range(w);
    MiddleZero(w);
  }

  lemma MiddleZero(w: seq<nat>)
    requires |w| == 8
    ensures AllZero(w[2..6]) <==> w[2] == 0 && w[3] == 0 && w[4] == 0 && w[5] == 0
  {
    assert w[2..6][0] == w[2] && w[2..6][1] == w[3] && w[2..6][2] == w[4] && w[2..6][3] == w[5];
  }

  // ---- the class of a text ----------------------------------------------------

  lemma {:induction false} CharsOfDotted(n: nat)
    requires n < TWO_32
    ensures Dotted(n) != "" && ':' !in Dotted(n)
  {
    DottedHasNoColon(n);
    DecimalRoundTrip(n / 0x100_0000);
  }

  /** The class of an IPv4 text is decided by its address. */
  lemma DottedClass(n: nat)
    requires n < TWO_32
    ensures IsPrivateIp(Dotted(n)) <==> InPrivateV4(n)
  {
    CharsOfDotted(n);
    DottedParses(n);
    PrivateV4Ranges(n);
  }

  lemma ParsedLooksLikeV6(s: string)
    requires ParseIpv6Words(s).Some?
    ensures LooksLikeV6(s) && s != "" && ParseV4(s) == None
  {
    var cut := AfterLastColon(s);
    LastColonSplits(s);
    if cut > 0 && ParseV4(s[cut..]).Some? {
      DottedTailLooksLikeV6(s, cut, ParseV4(s[cut..]).value);
    }
    if ParseV4(s).Some? {
      ParsedIsDotted(s, ParseV4(s).value);
      CharsOfDotted(ParseV4(s).value);
    }
  }

  lemma DottedTailLooksLikeV6(s: string, cut: nat, n: nat)
    requires cut == AfterLastColon(s) && cut > 0 && ParseV4(s[cut..]) == Some(n) && HexOrColon(Undotted(s))
    ensures LooksLikeV6(s)
  {
    ParsedIsDotted(s[cut..], n);
    DottedChars(n);
    UndottedAt(s, cut, n);
    LastColonSplits(s);
    assert s[cut - 1] == ':';
    forall i | 0 <= i < |s| ensures IsHex(s[i]) || s[i] == ':' || s[i] == '.' {
      if i < cut {
        assert Undotted(s)[i] == s[i];
      } else {
        assert s[i] == s[cut..][i - cut];
      }
    }
  }

  lemma DottedChars(n: nat)
    requires n < TWO_32
    ensures forall i | 0 <= i < |Dotted(n)| :: IsHex(Dotted(n)[i]) || Dotted(n)[i] == ':' || Dotted(n)[i] == '.'
  {
    DecimalRoundTrip(n / 0x100_0000);
    DecimalRoundTrip(n / 0x1_0000 % 256);
    DecimalRoundTrip(n / 0x100 % 256);
    DecimalRoundTrip(n % 256);
    var p := DottedParts(n);
    DottedText(n, p[0], p[1], p[2], p[3]);
  }

  /** The class of an IPv6 text is decided by its 128-bit value. */
  lemma ParsedClass(s: string)
    requires ParseIpv6Words(s).Some?
    ensures IsPrivateIp(s) <==> InPrivateV6(Value(ParseIpv6Words(s).value))
  {
    var w := ParseIpv6Words(s).value;
    ParsedLooksLikeV6(s);
    CarriesV4Range(w);
    if CarriesV4(w) {
      var n := w[6] * 0x1_0000 + w[7];
      DottedParses(n);
      PrivateV4Ranges(n);
      CarriedClass(w);
    } else {
      PrivateWordsRange(w);
    }
  }

  lemma CarriedClass(w: seq<nat>)
    requires IsWords(w) && CarriesV4(w)
    ensures InPrivateV6(Value(w)) <==> InPrivateV4(w[6] * 0x1_0000 + w[7])
  {
    CarriesV4Range(w);
  }

  /** What a text says: an IPv4 address, an IPv6 address, or nothing. */
  datatype Address = V4(n: nat) | V6(v: nat) | NoAddress

  ghost predicate Spells(s: string, a: Address) {
    match a
    case V4(n) => n < TWO_32 && s == Dotted(n)
    case V6(v) => exists sp :: ValidSpelling(sp) && Render(sp) == s && Value(WordsOf(sp)) == v
    case NoAddress =>
      && (forall n: nat | n < TWO_32 :: s != Dotted(n))
      && (forall sp | ValidSpelling(sp) :: s != Render(sp))
  }

  predicate InPrivateRanges(a: Address) {
    match a
    case V4(n) => InPrivateV4(n)
    case V6(v) => InPrivateV6(v)
    case NoAddress => true
  }

  /** `isPrivateIp` is membership of what the text spells in the fixed ranges; garbage is private. */
  lemma PrivateIsByValue(s: string, a: Address)
    requires Spells(s, a)
    ensures IsPrivateIp(s) <==> InPrivateRanges(a)
  {
    match a
    case V4(n) => DottedClass(n);
    case V6(v) =>
      var sp :| ValidSpelling(sp) && Render(sp) == s && Value(WordsOf(sp)) == v;
      SpellingParses(sp);
      ParsedClass(s);
    case NoAddress =>
      if ParseV4(s).Some? { ParsedIsDotted(s, ParseV4(s).value); }
      if ParseIpv6Words(s).Some? { var sp := ParsedIsSpelling(s); }
  }

  /** Every text spells something, and only one thing decides its class. */
  lemma EveryTextSpells(s: string) returns (a: Address)
    ensures Spells(s, a)
  {
    if ParseV4(s).Some? {
      ParsedIsDotted(s, ParseV4(s).value);
      a := V4(ParseV4(s).value);
    } else if ParseIpv6Words(s).Some? {
      var sp := ParsedIsSpelling(s);
      a := V6(Value(WordsOf(sp)));
    } else {
      a := NoAddress;
      forall n: nat | n < TWO_32 ensures s != Dotted(n) { DottedParses(n); }
      forall sp | ValidSpelling(sp) ensures s != Render(sp) { SpellingParses(sp); }
    }
  }

  // ---- normalisation ----------------------------------------------------------

  lemma MappedRange(w: seq<nat>)
    requires IsWords(w)
    ensures AllZero(w[..5]) && w[5] == 0xffff <==> 0xffff_0000_0000 <= Value(w) < 0x1_0000_0000_0000
    ensures AllZero(w[..5]) && w[5] == 0xffff ==> Embedded(w) == Dotted(Value(w) - 0xffff_0000_0000)
  {
    CarriesV4Range(w);
    ValueOfEight(w);
  }

  /** Mapped addresses come out dotted, in every spelling; everything else is left alone. */
  lemma NormalizeExact(value: string)
    ensures var ip, w := Core(value), ParseIpv6Words(Core(value));
      NormalizeIp(value) ==
        if w.Some? && 0xffff_0000_0000 <= Value(w.value) < 0x1_0000_0000_0000
        then Dotted(Value(w.value) - 0xffff_0000_0000) else ip
  {
    MappedExact(Core(value));
  }

  lemma MappedExact(ip: string)
    ensures var w := ParseIpv6Words(ip);
      if w.Some? && 0xffff_0000_0000 <= Value(w.value) < 0x1_0000_0000_0000
      then MappedV4(ip) == Dotted(Value(w.value) - 0xffff_0000_0000) && MappedV4(ip) != ""
      else MappedV4(ip) == ""
  {
    var w := ParseIpv6Words(ip);
    if w.Some? {
      MappedRange(w.value);
      if 0xffff_0000_0000 <= Value(w.value) < 0x1_0000_0000_0000 {
        CharsOfDotted(Value(w.value) - 0xffff_0000_0000);
      }
    }
  }

  /** Normalising never changes the class: only the value behind the text decides it. */
  lemma ClassSurvivesNormalisation(value: string, a: Address)
    requires Spells(Core(value), a)
    ensures IsPrivateIp(NormalizeIp(value)) <==> InPrivateRanges(a)
  {
    hide ParseIpv6Words, ParseV4, IsPrivateIp, Core, NormalizeIp, Dotted, Spells, Value;
    PrivateIsByValue(Core(value), a);
    NormalizeExact(value);
    var w := ParseIpv6Words(Core(value));
    if w.Some? && 0xffff_0000_0000 <= Value(w.value) < 0x1_0000_0000_0000 {
      var n := Value(w.value) - 0xffff_0000_0000;
      ParsedClass(Core(value));
      DottedClass(n);
    }
  }
}
