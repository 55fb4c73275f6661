/** Which address a request is attributed to, and who may speak for someone else. */
module ClientIp {
  import opened Wrappers
  import opened Texts
  import opened Addresses
  import opened LastOf

  datatype Rule = NetRule(v4: nat, prefix: nat) | LiteralRule(literal: string)

  /** A header may be absent, or repeat; only the first value is read. */
  datatype Header = NoHeader | OneHeader(value: string) | Repeated(values: seq<string>)

  datatype Request = Request(peer: string, cf: Header, xff: Header)

  function FirstHeaderValue(h: Header): string {
    match h
    case NoHeader => ""
    case OneHeader(v) => v
    case Repeated(vs) => if vs == [] then "" else vs[0]
  }

  predicate IsLoopback(ip: string) {
    ip == "127.0.0.1" || ip == "::1" || "127." <= ip
  }

  predicate Matches(ip: string, rule: Rule) {
    match rule
    case LiteralRule(literal) => literal == ip
    case NetRule(v4, prefix) => ParseV4(ip).Some? && InV4Net(ParseV4(ip).value, v4, prefix)
  }

  predicate IpMatchesRules(ip: string, rules: seq<Rule>) {
    ip != "" && exists i | 0 <= i < |rules| :: Matches(ip, rules[i])
  }

  predicate IsTrustedProxy(ip: string, rules: seq<Rule>) {
    ip != "" && (IsLoopback(ip) || IpMatchesRules(ip, rules))
  }

  /** Who a forwarded entry names, unless it is nobody or one of our own hops. */
  function Candidate(entry: string, rules: seq<Rule>): Option<string> {
    var ip := NormalizeIp(entry);
    if ip != "" && !IsTrustedProxy(ip, rules) then Some(ip) else None
  }

  function Candidates(rules: seq<Rule>): string -> Option<string> {
    entry => Candidate(entry, rules)
  }

  /** What a trusted peer's forwarding list says. */
  function Forwarded(xff: string, peer: string, rules: seq<Rule>): string {
    if xff == "" then peer
    else
      match LastSome(Split(xff, ','), Candidates(rules))
      case Some(ip) => ip
      case None => peer
  }

  function Resolve(req: Request, rules: seq<Rule>): string {
    var peer := NormalizeIp(req.peer);
    var cf := NormalizeIp(FirstHeaderValue(req.cf));
    if !IsTrustedProxy(peer, rules) then peer
    else if cf != "" then cf
    else Forwarded(FirstHeaderValue(req.xff), peer, rules)
  }

  /** `resolveClientIp`, with its walk from the right. */
  method ResolveClientIp(req: Request, rules: seq<Rule>) returns (ip: string)
    ensures ip == Resolve(req, rules)
  {
    var peer := NormalizeIp(req.peer);
    if !IsTrustedProxy(peer, rules) {
      return peer;
    }
    var cf := NormalizeIp(FirstHeaderValue(req.cf));
    if cf != "" {
      return cf;
    }
    var xff := FirstHeaderValue(req.xff);
    if xff != "" {
      var usable := FindLast(Split(xff, ','), Candidates(rules));
      if usable.Some? {
        return usable.value;
      }
    }
    return peer;
  }

  // ---- what a client can influence --------------------------------------------

  /** Whatever headers come with it, a request from this peer is attributed to the peer. */
  ghost predicate SpeaksForItself(peer: string, rules: seq<Rule>) {
    forall cf, xff :: Resolve(Request(peer, cf, xff), rules) == NormalizeIp(peer)
  }

  /** Exactly the untrusted peers have no say in the result beyond their own address. */
  lemma SpeaksForItselfIff(peer: string, rules: seq<Rule>)
    ensures SpeaksForItself(peer, rules) <==> !IsTrustedProxy(NormalizeIp(peer), rules)
  {
    if IsTrustedProxy(NormalizeIp(peer), rules) {
      var stranger := Stranger(rules);
      assert NormalizeIp(FirstHeaderValue(OneHeader(stranger))) == stranger != NormalizeIp(peer);
      assert Resolve(Request(peer, OneHeader(stranger), NoHeader), rules) == stranger;
    }
  }

  /** What the forwarding list says makes no difference. */
  ghost predicate ForwardingHasNoSay(peer: string, cf: Header, rules: seq<Rule>) {
    forall xff :: Resolve(Request(peer, cf, xff), rules) == Resolve(Request(peer, cf, NoHeader), rules)
  }

  /**
   Behind a trusted peer the forwarding list has no say exactly if CF-Connecting-IP names
   somebody, and then that is the result, whatever a client wrote into the list.
   */
  lemma CloudflareDecidesIff(peer: string, cf: Header, rules: seq<Rule>)
    requires IsTrustedProxy(NormalizeIp(peer), rules)
    ensures ForwardingHasNoSay(peer, cf, rules) <==> NormalizeIp(FirstHeaderValue(cf)) != ""
    ensures NormalizeIp(FirstHeaderValue(cf)) != "" ==>
      forall xff :: Resolve(Request(peer, cf, xff), rules) == NormalizeIp(FirstHeaderValue(cf))
  {
    hide NormalizeIp, IsTrustedProxy, Split;
    if NormalizeIp(FirstHeaderValue(cf)) == "" {
      var stranger := Stranger(rules);
      SplitOne(stranger, ',');
      assert LastSome([stranger], Candidates(rules)) == Some(stranger);
      assert Resolve(Request(peer, cf, OneHeader(stranger)), rules) == stranger;
      assert Resolve(Request(peer, cf, NoHeader), rules) == NormalizeIp(peer);
    }
  }

  /** A repeated header counts as its first value, and one without values as none. */
  lemma OnlyFirstValueIsRead(peer: string, cf: Header, xff: Header, v: string, more: seq<string>, rules: seq<Rule>)
    ensures Resolve(Request(peer, Repeated([v] + more), xff), rules) == Resolve(Request(peer, OneHeader(v), xff), rules)
    ensures Resolve(Request(peer, cf, Repeated([v] + more)), rules) == Resolve(Request(peer, cf, OneHeader(v)), rules)
    ensures Resolve(Request(peer, Repeated([]), Repeated([])), rules) == NormalizeIp(peer)
  {
    EmptyNormalises();
    assert ([v] + more)[0] == v;
    hide NormalizeIp, IsTrustedProxy, Forwarded;
  }

  /** An entry that names somebody who is not one of our own hops. */
  predicate NamesStranger(entry: string, rules: seq<Rule>) {
    NormalizeIp(entry) != "" && !IsTrustedProxy(NormalizeIp(entry), rules)
  }

  /**
   Without CF-Connecting-IP a trusted peer's request is attributed to the rightmost entry that
   names a stranger, and to the peer exactly if none does.
   */
  lemma RightmostStranger(req: Request, rules: seq<Rule>, ip: string)
    requires IsTrustedProxy(NormalizeIp(req.peer), rules) && NormalizeIp(FirstHeaderValue(req.cf)) == ""
    ensures var entries := Split(FirstHeaderValue(req.xff), ',');
      Resolve(req, rules) == ip <==>
        || (exists i | 0 <= i < |entries| ::
              && NamesStranger(entries[i], rules) && NormalizeIp(entries[i]) == ip
              && forall j | i < j < |entries| :: !NamesStranger(entries[j], rules))
        || (ip == NormalizeIp(req.peer) && forall i | 0 <= i < |entries| :: !NamesStranger(entries[i], rules))
  {
    hide NormalizeIp, IsTrustedProxy;
    EmptyNormalises();
    var entries := Split(FirstHeaderValue(req.xff), ',');
    var f := Candidates(rules);
    forall e ensures f(e) == if NamesStranger(e, rules) then Some(NormalizeIp(e)) else None {
    }
    LastSomeIff(entries, f);
    hide LastSome;
  }

  /** Some entry of the forwarding list names someone. */
  ghost predicate HasUsable(xff: string, rules: seq<Rule>) {
    AnySome(Split(xff, ','), Candidates(rules))
  }

  ghost predicate PrefixImmune(req: Request, rules: seq<Rule>) {
    forall prefix: string ::
      Resolve(req.(xff := OneHeader(prefix + "," + FirstHeaderValue(req.xff))), rules) == Resolve(req, rules)
  }

  /**
   Behind a trusted peer without CF-Connecting-IP, nothing a client prepends to the
   forwarding list changes the result, exactly if the rest of the list holds a usable entry.
   */
  lemma PrependingIsHarmlessIff(req: Request, rules: seq<Rule>)
    requires IsTrustedProxy(NormalizeIp(req.peer), rules)
    requires NormalizeIp(FirstHeaderValue(req.cf)) == ""
    ensures PrefixImmune(req, rules) <==> HasUsable(FirstHeaderValue(req.xff), rules)
  {
    var xff, peer := FirstHeaderValue(req.xff), NormalizeIp(req.peer);
    if HasUsable(xff, rules) {
      forall prefix: string
        ensures Resolve(req.(xff := OneHeader(prefix + "," + xff)), rules) == Resolve(req, rules)
      {
        UsableListHolds(prefix, xff, peer, rules);
      }
    } else {
      var stranger := Stranger(rules);
      UnusableListYields(stranger, xff, peer, rules);
      assert stranger != peer;
      assert Resolve(req.(xff := OneHeader(stranger + "," + xff)), rules) == stranger;
    }
  }

  lemma UsableListHolds(prefix: string, xff: string, peer: string, rules: seq<Rule>)
    requires HasUsable(xff, rules)
    ensures Forwarded(prefix + "," + xff, peer, rules) == Forwarded(xff, peer, rules)
  {
    EmptyIsNotUsable(rules);
    SplitAppend(prefix, ',', xff);
    FrontUnreachable(Split(prefix, ','), Split(xff, ','), Candidates(rules));
    LastSomeIff(Split(xff, ','), Candidates(rules));
  }

  lemma UnusableListYields(stranger: string, xff: string, peer: string, rules: seq<Rule>)
    requires !HasUsable(xff, rules) && Candidate(stranger, rules) == Some(stranger) && ',' !in stranger
    ensures Forwarded(stranger + "," + xff, peer, rules) == stranger && Forwarded(xff, peer, rules) == peer
  {
    var f := Candidates(rules);
    SplitAppend(stranger, ',', xff);
    SplitOne(stranger, ',');
    FrontUnreachable([stranger], Split(xff, ','), f);
    LastSomeIff(Split(xff, ','), f);
    assert f(stranger) == Some(stranger);
    assert LastSome([stranger], f) == Some(stranger);
  }

  lemma EmptyIsNotUsable(rules: seq<Rule>)
    ensures !HasUsable("", rules)
  {
    EmptyNormalises();
  }

  lemma EmptyNormalises()
    ensures NormalizeIp("") == ""
  {
    assert Core("") == "";
    assert MappedV4("") == "" by { assert Undotted("") == ""; }
  }

  // A name that no finite list of rules can trust.

  function Xs(n: nat): string {
    seq(n, _ => 'x')
  }

  function Longest(rules: seq<Rule>): nat {
    if rules == [] then 0
    else
      var rest := Longest(rules[1..]);
      if rules[0].LiteralRule? && |rules[0].literal| > rest then |rules[0].literal| else rest
  }

  lemma {:induction false} LongestIsLongest(rules: seq<Rule>, i: nat)
    requires i < |rules| && rules[i].LiteralRule?
    ensures |rules[i].literal| <= Longest(rules)
    decreases i
  {
    if i > 0 {
      LongestIsLongest(rules[1..], i - 1);
    }
  }

  lemma XsNormalise(n: nat)
    requires n > 0
    ensures NormalizeIp(Xs(n)) == Xs(n) && ParseV4(Xs(n)) == None
  {
    var s := Xs(n);
    assert TrimLeft(s) == s && TrimRight(s) == s;
    assert Lower(s) == s;
    assert s[0] == 'x';
    SplitOne(s, ']');
    SplitOne(s, '%');
    SplitOne(s, '.');
    assert "unknown"[0] == 'u' && s != "unknown";
    assert Core(s) == s;
    XsHaveNoColon(n);
  }

  lemma {:induction false} XsHaveNoColon(n: nat)
    ensures AfterLastColon(Xs(n)) == 0 && ParseIpv6Words(Xs(n)) == None
  {
    if n > 0 {
      assert Xs(n)[..n - 1] == Xs(n - 1);
      XsHaveNoColon(n - 1);
    }
  }

  lemma XsAreStrangers(rules: seq<Rule>, n: nat)
    requires n > Longest(rules) && ParseV4(Xs(n)) == None
    ensures !IsTrustedProxy(Xs(n), rules)
  {
    var s := Xs(n);
    assert s[0] == 'x' && "127."[0] == '1' && "::1"[0] == ':' && "127.0.0.1"[0] == '1';
    forall i | 0 <= i < |rules| ensures !Matches(s, rules[i]) {
      if rules[i].LiteralRule? {
        LongestIsLongest(rules, i);
      }
    }
  }

  lemma Stranger(rules: seq<Rule>) returns (s: string)
    ensures Candidate(s, rules) == Some(s) && ',' !in s && s != "" && !IsTrustedProxy(s, rules)
  {
    s := Xs(Longest(rules) + 1);
    XsNormalise(|s|);
    XsAreStrangers(rules, |s|);
  }
}
