/** IPv4 and IPv6 text, prefix tests and the private-address rule of lib/traffic-class.js. */
module Addresses {
  import opened Wrappers
  import opened Texts

  const TWO_32: nat := 0x1_0000_0000

  // ---- IPv4 -------------------------------------------------------------------

  predicate IsDigit(c: char) {
    '0' <= c <= '9'
  }

  predicate AllDigits(s: string) {
    forall i | 0 <= i < |s| :: IsDigit(s[i])
  }

  function DigitValue(c: char): nat
    requires IsDigit(c)
  {
    (c - '0') as nat
  }

  /** Number(part) for a text of digits. */
  function DecimalValue(s: string): nat
    requires AllDigits(s)
  {
    if s == [] then 0 else DecimalValue(s[..|s| - 1]) * 10 + DigitValue(s[|s| - 1])
  }

  /** One dotted part: one to three digits, no padding, at most 255. */
  function Octet(part: string): Option<nat> {
    if !(1 <= |part| <= 3) || !AllDigits(part) then None
    else if |part| > 1 && part[0] == '0' then None
    else if DecimalValue(part) > 255 then None
    else Some(DecimalValue(part))
  }

  /** The accumulation over parts, most significant first. */
  function Octets(parts: seq<string>): Option<nat> {
    if parts == [] then Some(0)
    else
      match Octets(parts[..|parts| - 1])
      case None => None
      case Some(n) =>
        match Octet(parts[|parts| - 1])
        case None => None
        case Some(o) => Some(n * 256 + o)
  }

  function ParseV4(ip: string): Option<nat> {
    var parts := Split(ip, '.');
    if |parts| != 4 then None else Octets(parts)
  }

  /** `parseIpv4`: the parts in turn, giving up at the first bad one. */
  method ParseIpv4(ip: string) returns (n: Option<nat>)
    ensures n == ParseV4(ip)
  {
    var parts := Split(ip, '.');
    if |parts| != 4 {
      return None;
    }
    var sum := 0;
    for i := 0 to 4
      invariant Octets(parts[..i]) == Some(sum)
    {
      assert parts[..i + 1][..i] == parts[..i];
      var octet := Octet(parts[i]);
      if octet.None? {
        NoOctetsAfter(parts, i + 1);
        return None;
      }
      sum := sum * 256 + octet.value;
    }
    assert parts[..4] == parts;
    return Some(sum);
  }

  lemma {:induction false} NoOctetsAfter(parts: seq<string>, i: nat)
    requires i <= |parts| && Octets(parts[..i]).None?
    ensures Octets(parts).None?
    decreases |parts| - i
  {
    if i < |parts| {
      assert parts[..i + 1][..i] == parts[..i];
      NoOctetsAfter(parts, i + 1);
    } else {
      assert parts[..i] == parts;
    }
  }

  function DigitChar(d: nat): char
    requires d < 10
  {
    '0' + d as char
  }

  /** `String(o)`. */
  function Decimal(o: nat): string {
    if o < 10 then [DigitChar(o)] else Decimal(o / 10) + [DigitChar(o % 10)]
  }

  function DottedParts(n: nat): seq<string>
    requires n < TWO_32
  {
    [Decimal(n / 0x100_0000), Decimal(n / 0x1_0000 % 256), Decimal(n / 0x100 % 256), Decimal(n % 256)]
  }

  /** `[high >>> 8, high & 0xff, low >>> 8, low & 0xff].join('.')` for the address n. */
  function Dotted(n: nat): string
    requires n < TWO_32
  {
    Join(DottedParts(n), '.')
  }

  // ---- IPv6 -------------------------------------------------------------------

  predicate IsHex(c: char) {
    IsDigit(c) || 'a' <= c <= 'f'
  }

  function HexValue(c: char): nat
    requires IsHex(c)
  {
    if IsDigit(c) then (c - '0') as nat else 10 + (c - 'a') as nat
  }

  predicate IsGroup(s: string) {
    1 <= |s| <= 4 && forall i | 0 <= i < |s| :: IsHex(s[i])
  }

  function Pow16(k: nat): nat {
    if k == 0 then 1 else 16 * Pow16(k - 1)
  }

  /** Number.parseInt(word, 16). */
  function GroupValue(s: string): (v: nat)
    requires forall i | 0 <= i < |s| :: IsHex(s[i])
    ensures v < Pow16(|s|)
  {
    if s == [] then 0 else GroupValue(s[..|s| - 1]) * 16 + HexValue(s[|s| - 1])
  }

  function HexChar(d: nat): char
    requires d < 16
  {
    if d < 10 then '0' + d as char else 'a' + (d - 10) as char
  }

  /** `n.toString(16)`. */
  function Hex(n: nat): string {
    if n < 16 then [HexChar(n)] else Hex(n / 16) + [HexChar(n % 16)]
  }

  /** lastIndexOf(':') + 1, so 0 when there is none. */
  function AfterLastColon(s: string): nat
    ensures AfterLastColon(s) <= |s|
  {
    if s == [] then 0
    else if s[|s| - 1] == ':' then |s|
    else AfterLastColon(s[..|s| - 1])
  }

  /** A dotted tail rewritten as two groups. */
  function Undotted(ip: string): string {
    var cut := AfterLastColon(ip);
    if cut == 0 then ip
    else
      match ParseV4(ip[cut..])
      case None => ip
      case Some(n) => ip[..cut] + (Hex(n / 0x1_0000 % 0x1_0000) + ":" + Hex(n % 0x1_0000))
  }

  predicate HexOrColon(s: string) {
    forall i | 0 <= i < |s| :: IsHex(s[i]) || s[i] == ':'
  }

  function Groups(half: string): seq<string> {
    if half == "" then [] else Split(half, ':')
  }

  function Zeros(n: nat): seq<string> {
    seq(n, _ => "0")
  }

  /** The eight group texts, or None when there are not eight. */
  function EightGroups(source: string): (r: Option<seq<string>>)
    ensures r.Some? ==> |r.value| == 8
  {
    var halves := SplitDouble(source, ':');
    if |halves| > 2 then None
    else if |halves| == 2 then
      var left, right := Groups(halves[0]), Groups(halves[1]);
      if 8 - |left| - |right| < 1 then None else Some(left + Zeros(8 - |left| - |right|) + right)
    else if |Groups(halves[0])| != 8 then None
    else Some(Groups(halves[0]))
  }

  predicate AllGroups(words: seq<string>) {
    forall i | 0 <= i < |words| :: IsGroup(words[i])
  }

  predicate IsWords(ws: seq<nat>) {
    |ws| == 8 && forall i | 0 <= i < 8 :: ws[i] < 0x1_0000
  }

  lemma GroupFits(s: string)
    requires IsGroup(s)
    ensures GroupValue(s) < 0x1_0000
  {
    assert Pow16(1) == 16 && Pow16(2) == 256 && Pow16(3) == 4096 && Pow16(4) == 65536;
  }

  function Values(words: seq<string>): (ws: seq<nat>)
    requires AllGroups(words)
    ensures |ws| == |words| && forall i | 0 <= i < |ws| :: ws[i] < 0x1_0000
  {
    assert forall i | 0 <= i < |words| :: GroupValue(words[i]) < 0x1_0000 by {
      forall i | 0 <= i < |words| ensures GroupValue(words[i]) < 0x1_0000 { GroupFits(words[i]); }
    }
    seq(|words|, i requires 0 <= i < |words| => GroupValue(words[i]))
  }

  function ParseIpv6Words(ip: string): (r: Option<seq<nat>>)
    ensures r.Some? ==> IsWords(r.value)
  {
    var source := Undotted(ip);
    if ':' !in source || !HexOrColon(source) then None
    else
      match EightGroups(source)
      case None => None
      case Some(words) => if AllGroups(words) then Some(Values(words)) else None
  }

  // ---- prefix tests -----------------------------------------------------------

  function Pow2(k: nat): (p: nat)
    ensures p > 0
  {
    if k == 0 then 1 else 2 * Pow2(k - 1)
  }

  /** `&` on non-negative integers, bit by bit. */
  function BitAnd(a: nat, b: nat): nat
    decreases a
  {
    if a == 0 || b == 0 then 0
    else (if a % 2 == 1 && b % 2 == 1 then 1 else 0) + 2 * BitAnd(a / 2, b / 2)
  }

  /** `(0xffffffff << k) >>> 0` for 0 <= k < 32. */
  function ShiftedOnes(k: nat): nat {
    0xffff_ffff * Pow2(k) % TWO_32
  }

  function InV4Net(addr: nat, network: nat, prefix: int): bool {
    if prefix <= 0 then true
    else if prefix > 32 then false
    else
      var mask := if prefix == 32 then 0xffff_ffff else ShiftedOnes(32 - prefix);
      BitAnd(addr, mask) == BitAnd(network, mask)
  }

  // ---- private addresses ------------------------------------------------------

  /** Network and prefix length. */
  const PRIVATE_V4: seq<(nat, nat)> :=
    [(0x0000_0000, 8),   // 0.0.0.0
     (0x0a00_0000, 8),   // 10.0.0.0
     (0x7f00_0000, 8),   // 127.0.0.0
     (0xa9fe_0000, 16),  // 169.254.0.0
     (0xac10_0000, 12),  // 172.16.0.0
     (0xc0a8_0000, 16),  // 192.168.0.0
     (0x6440_0000, 10),  // 100.64.0.0
     (0xc612_0000, 15),  // 198.18.0.0
     (0xe000_0000, 4),   // 224.0.0.0
     (0xf000_0000, 4)]   // 240.0.0.0

  predicate PrivateV4(n: nat) {
    exists i | 0 <= i < |PRIVATE_V4| :: InV4Net(n, PRIVATE_V4[i].0, PRIVATE_V4[i].1)
  }

  predicate LooksLikeV6(s: string) {
    ':' in s && forall i | 0 <= i < |s| :: IsHex(s[i]) || s[i] == ':' || s[i] == '.'
  }

  predicate AllZero(words: seq<nat>) {
    forall i | 0 <= i < |words| :: words[i] == 0
  }

  predicate CarriesV4(words: seq<nat>)
    requires |words| == 8
  {
    AllZero(words[..5]) && (words[5] == 0 || words[5] == 0xffff)
  }

  predicate PrivateWords(words: seq<nat>)
    requires |words| == 8
  {
    || (words[0] == 0x64 && words[1] == 0xff9b && (AllZero(words[2..6]) || words[2] == 1))
    || words[0] == 0x2002
    || BitAnd(words[0], 0xfe00) == 0xfc00
    || BitAnd(words[0], 0xffc0) == 0xfe80
    || BitAnd(words[0], 0xff00) == 0xff00
  }

  /** `embeddedIpv4(high, low)`: the low two groups as dotted text. */
  function Embedded(words: seq<nat>): string
    requires IsWords(words)
  {
    Dotted(words[6] * 0x1_0000 + words[7])
  }

  predicate IsPrivateDotted(ip: string) {
    match ParseV4(ip) case Some(n) => PrivateV4(n) case None => true
  }

  predicate IsPrivateIp(ip: string) {
    if ip == "" then true
    else
      match ParseV4(ip)
      case Some(n) => PrivateV4(n)
      case None =>
        if !LooksLikeV6(ip) then true
        else
          match ParseIpv6Words(ip)
          case None => true
          case Some(words) =>
            if CarriesV4(words) then IsPrivateDotted(Embedded(words))
            else PrivateWords(words)
  }

  // ---- normalisation ----------------------------------------------------------

  predicate IsSpace(c: char) {
    c == ' ' || '\t' <= c <= '\r'
  }

  function TrimLeft(s: string): string {
    if s != [] && IsSpace(s[0]) then TrimLeft(s[1..]) else s
  }

  function TrimRight(s: string): string {
    if s != [] && IsSpace(s[|s| - 1]) then TrimRight(s[..|s| - 1]) else s
  }

  function Trim(s: string): string {
    TrimRight(TrimLeft(s))
  }

  function LowerChar(c: char): char {
    if 'A' <= c <= 'Z' then 'a' + (c - 'A') else c
  }

  function Lower(s: string): string {
    seq(|s|, i requires 0 <= i < |s| => LowerChar(s[i]))
  }

  function Before(s: string, c: char): string {
    Split(s, c)[0]
  }

  /** The address text inside brackets and before any zone. */
  function Core(value: string): string {
    var ip := Lower(Trim(value));
    if ip == "" || ip == "unknown" then ""
    else
      var inner := if ip[0] == '[' then ip[1..] else ip;
      Before(Before(inner, ']'), '%')
  }

  function MappedV4(ip: string): string {
    match ParseIpv6Words(ip)
    case None => ""
    case Some(words) =>
      if !AllZero(words[..5]) || words[5] != 0xffff then ""
      else Embedded(words)
  }

  function Unmapped(ip: string): string {
    var mapped := MappedV4(ip);
    if mapped != "" then mapped else ip
  }

  function NormalizeIp(value: string): string {
    Unmapped(Core(value))
  }
}
