/**
 The refusal ledger of the creative probe: policy violations are counted once each, in
 order, up to a cap, and posted to the parent in batches from a task of their own.
 */
module RefusalLedger {
  const REFUSAL_CAP: nat := 200
  const REFUSAL_DIRECTIVE_MAX: nat := 64
  const REFUSAL_URI_MAX: nat := 2048

  /** A `securitypolicyviolation` event; a missing property is the empty string. */
  datatype Violation = Violation(isTrusted: bool, effectiveDirective: string, violatedDirective: string, blockedUri: string)

  datatype Item = Item(directive: string, blockedUri: string)

  /** One call of `postMessage`; when it throws, the batch is gone. */
  datatype Post = Post(items: seq<Item>, truncated: bool, delivered: bool)

  /** How a flush is signalled: a task, or an immediate call when no task can be posted. */
  datatype Signal = Deferred | AtOnce(delivered: bool)

  function ItemOf(v: Violation): Item {
    Item(if v.effectiveDirective != "" then v.effectiveDirective
         else if v.violatedDirective != "" then v.violatedDirective
         else "unknown",
         v.blockedUri)
  }

  predicate Short(i: Item) {
    |i.directive| <= REFUSAL_DIRECTIVE_MAX && |i.blockedUri| <= REFUSAL_URI_MAX
  }

  function Key(i: Item): string {
    i.directive + "|" + i.blockedUri
  }

  // ---- the state of the ledger ------------------------------------------------

  datatype Ledger = Ledger(seen: set<string>, queue: seq<Item>, count: nat, scheduled: bool, truncated: bool, posts: seq<Post>)

  const EMPTY := Ledger({}, [], 0, false, false, [])

  function Flush(l: Ledger, delivered: bool): Ledger {
    if l.queue == [] && !l.truncated then l.(scheduled := false)
    else l.(scheduled := false, queue := [], posts := l.posts + [Post(l.queue, l.truncated, delivered)])
  }

  function Schedule(l: Ledger, how: Signal): Ledger {
    if l.scheduled then l
    else if how.Deferred? then l.(scheduled := true)
    else Flush(l.(scheduled := true), how.delivered)
  }

  function Truncate(l: Ledger, how: Signal): Ledger {
    if l.truncated then l else Schedule(l.(truncated := true), how)
  }

  function Observe(l: Ledger, v: Violation, how: Signal): Ledger {
    var i := ItemOf(v);
    if !v.isTrusted then l
    else if !Short(i) then Truncate(l, how)
    else if Key(i) in l.seen then l
    else if l.count >= REFUSAL_CAP then Truncate(l, how)
    else Schedule(l.(seen := l.seen + {Key(i)}, count := l.count + 1, queue := l.queue + [i]), how)
  }

  /** The listener and the flush task share these variables. */
  class Reporter {
    var seen: set<string>
    var queue: seq<Item>
    var count: nat
    var scheduled: bool
    var truncated: bool
    var posts: seq<Post>

    function State(): Ledger
      reads this
    {
      Ledger(seen, queue, count, scheduled, truncated, posts)
    }

    constructor ()
      ensures State() == EMPTY
    {
      seen, queue, count, scheduled, truncated, posts := {}, [], 0, false, false, [];
    }

    method FlushRefusals(delivered: bool)
      modifies this
      ensures State() == Flush(old(State()), delivered)
    {
      scheduled := false;
      if |queue| == 0 && !truncated { return; }
      var items := queue;
      queue := [];
      posts := posts + [Post(items, truncated, delivered)];
    }

    method ScheduleRefusalFlush(how: Signal)
      modifies this
      ensures State() == Schedule(old(State()), how)
    {
      if scheduled { return; }
      scheduled := true;
      if how.AtOnce? { FlushRefusals(how.delivered); }
    }

    method OnViolation(v: Violation, how: Signal)
      modifies this
      ensures State() == Observe(old(State()), v, how)
    {
      if !v.isTrusted { return; }
      var item := ItemOf(v);
      if |item.directive| > REFUSAL_DIRECTIVE_MAX || |item.blockedUri| > REFUSAL_URI_MAX {
        if !truncated {
          truncated := true;
          ScheduleRefusalFlush(how);
        }
        return;
      }
      var key := Key(item);
      if key in seen { return; }
      if count >= REFUSAL_CAP {
        if !truncated {
          truncated := true;
          ScheduleRefusalFlush(how);
        }
        return;
      }
      seen := seen + {key};
      count := count + 1;
      queue := queue + [item];
      ScheduleRefusalFlush(how);
    }
  }

  // ---- runs -------------------------------------------------------------------

  datatype Event = Refused(v: Violation, how: Signal) | FlushTask(delivered: bool)

  function Step(l: Ledger, e: Event): Ledger {
    match e
    case Refused(v, how) => Observe(l, v, how)
    case FlushTask(delivered) => Flush(l, delivered)
  }

  function After(es: seq<Event>): Ledger {
    if es == [] then EMPTY else Step(After(es[..|es| - 1]), es[|es| - 1])
  }

  function Violations(es: seq<Event>): seq<Violation> {
    if es == [] then []
    else Violations(es[..|es| - 1]) + (if es[|es| - 1].Refused? then [es[|es| - 1].v] else [])
  }

  // ---- what ought to be reported ----------------------------------------------

  function Keys(items: seq<Item>): set<string> {
    set i | 0 <= i < |items| :: Key(items[i])
  }

  /** Every browser-originated refusal that can be described, at its first occurrence. */
  function Distinct(vs: seq<Violation>): seq<Item> {
    if vs == [] then []
    else
      var before, v := Distinct(vs[..|vs| - 1]), vs[|vs| - 1];
      if v.isTrusted && Short(ItemOf(v)) && Key(ItemOf(v)) !in Keys(before) then before + [ItemOf(v)] else before
  }

  predicate Overlong(vs: seq<Violation>) {
    exists i | 0 <= i < |vs| :: vs[i].isTrusted && !Short(ItemOf(vs[i]))
  }

  function Capped(items: seq<Item>): seq<Item> {
    if |items| <= REFUSAL_CAP then items else items[..REFUSAL_CAP]
  }

  /** Something was left out, for its length or for the cap. */
  predicate SomethingDropped(vs: seq<Violation>) {
    Overlong(vs) || |Distinct(vs)| > REFUSAL_CAP
  }

  function Sent(posts: seq<Post>): seq<Item> {
    if posts == [] then [] else Sent(posts[..|posts| - 1]) + posts[|posts| - 1].items
  }

  function Received(posts: seq<Post>): seq<Item> {
    if posts == [] then []
    else Received(posts[..|posts| - 1]) + (if posts[|posts| - 1].delivered then posts[|posts| - 1].items else [])
  }

  ghost predicate NoDuplicates(items: seq<Item>) {
    forall i, j | 0 <= i < j < |items| :: Key(items[i]) != Key(items[j])
  }

  // ---- the ledger keeps its books ---------------------------------------------

  ghost predicate Inv(l: Ledger, vs: seq<Violation>) {
    && l.seen == Keys(Capped(Distinct(vs))) && l.count == |Capped(Distinct(vs))|
    && Sent(l.posts) + l.queue == Capped(Distinct(vs))
    && (l.truncated <==> SomethingDropped(vs))
    && (!l.scheduled ==> l.queue == [])
    && (!l.scheduled && l.truncated ==> l.posts != [] && l.posts[|l.posts| - 1].truncated)
    && (forall p | p in l.posts && p.truncated :: l.truncated)
  }

  lemma FlushKeeps(l: Ledger, vs: seq<Violation>, delivered: bool)
    requires Inv(l.(scheduled := true), vs)
    ensures Inv(Flush(l, delivered), vs)
  {
    var l' := Flush(l, delivered);
    if l.queue != [] || l.truncated {
      assert l'.posts[..|l.posts|] == l.posts;
      assert Sent(l'.posts) + l'.queue == Sent(l.posts) + l.queue;
    }
  }

  lemma ScheduleKeeps(l: Ledger, vs: seq<Violation>, how: Signal)
    requires Inv(l.(scheduled := true), vs)
    ensures Inv(Schedule(l, how), vs)
  {
    if !l.scheduled && how.AtOnce? { FlushKeeps(l.(scheduled := true), vs, how.delivered); }
    if l.scheduled { assert l == l.(scheduled := true); }
  }

  lemma KeysSnoc(items: seq<Item>, i: Item)
    ensures Keys(items + [i]) == Keys(items) + {Key(i)}
  {
    var all := items + [i];
    forall k | k in Keys(items) + {Key(i)} ensures k in Keys(all) {
      if k in Keys(items) {
        var j :| 0 <= j < |items| && Key(items[j]) == k;
        assert all[j] == items[j];
      } else {
        assert all[|items|] == i;
      }
    }
  }

  /** One violation more. */
  lemma DistinctSnoc(vs: seq<Violation>, v: Violation)
    ensures Distinct(vs + [v]) ==
      if v.isTrusted && Short(ItemOf(v)) && Key(ItemOf(v)) !in Keys(Distinct(vs)) then Distinct(vs) + [ItemOf(v)]
      else Distinct(vs)
    ensures Overlong(vs + [v]) <==> Overlong(vs) || (v.isTrusted && !Short(ItemOf(v)))
  {
    var all := vs + [v];
    assert all[..|vs|] == vs;
    if Overlong(vs) {
      var i :| 0 <= i < |vs| && vs[i].isTrusted && !Short(ItemOf(vs[i]));
      assert all[i] == vs[i];
    }
    assert all[|vs|] == v;
  }

  lemma CappedKeys(items: seq<Item>)
    ensures Keys(Capped(items)) <= Keys(items)
  {
  }

  lemma CappedSnoc(items: seq<Item>, i: Item)
    ensures Capped(items + [i]) == if |items| < REFUSAL_CAP then Capped(items) + [i] else Capped(items)
  {
  }

  /** What is reported and what is dropped after one violation more, in terms of the ledger. */
  lemma DueSnoc(vs: seq<Violation>, v: Violation)
    ensures var due, i := Capped(Distinct(vs)), ItemOf(v);
      if v.isTrusted && Short(i) && Key(i) !in Keys(due) && |due| < REFUSAL_CAP
      then Capped(Distinct(vs + [v])) == due + [i] && Keys(due + [i]) == Keys(due) + {Key(i)}
      else Capped(Distinct(vs + [v])) == due
    ensures var due, i := Capped(Distinct(vs)), ItemOf(v);
      SomethingDropped(vs + [v]) <==>
      SomethingDropped(vs) || (v.isTrusted && (!Short(i) || (Key(i) !in Keys(due) && |due| >= REFUSAL_CAP)))
  {
    hide Keys, Key, Short, ItemOf, Overlong, Distinct;
    DistinctSnoc(vs, v);
    CappedKeys(Distinct(vs));
    CappedSnoc(Distinct(vs), ItemOf(v));
    KeysSnoc(Distinct(vs), ItemOf(v));
  }

  lemma ObserveKeeps(l: Ledger, vs: seq<Violation>, v: Violation, how: Signal)
    requires Inv(l, vs)
    ensures Inv(Observe(l, v, how), vs + [v])
  {
    hide Keys, Key, Short, ItemOf, Capped, Distinct, SomethingDropped;
    DueSnoc(vs, v);
    var i := ItemOf(v);
    if v.isTrusted && !Short(i) {
      ScheduleKeeps(l.(truncated := true), vs + [v], how);
    } else if v.isTrusted && Key(i) !in l.seen && l.count >= REFUSAL_CAP {
      ScheduleKeeps(l.(truncated := true), vs + [v], how);
    } else if v.isTrusted && Key(i) !in l.seen {
      ScheduleKeeps(l.(seen := l.seen + {Key(i)}, count := l.count + 1, queue := l.queue + [i]), vs + [v], how);
    }
  }

  lemma {:induction false} RunKeeps(es: seq<Event>)
    ensures Inv(After(es), Violations(es))
  {
    hide Inv, Observe, Flush;
    if es == [] {
      EmptyKeeps();
    } else {
      var before, last := es[..|es| - 1], es[|es| - 1];
      RunKeeps(before);
      match last
      case Refused(v, how) => ObserveKeeps(After(before), Violations(before), v, how);
      case FlushTask(delivered) =>
        Rescheduled(After(before), Violations(before));
        FlushKeeps(After(before), Violations(before), delivered);
        assert Violations(es) == Violations(before);
    }
  }

  lemma EmptyKeeps()
    ensures Inv(EMPTY, [])
  {
  }

  lemma Rescheduled(l: Ledger, vs: seq<Violation>)
    requires Inv(l, vs)
    ensures Inv(l.(scheduled := true), vs)
  {
  }

  // ---- at most once, in order, complete ---------------------------------------

  lemma {:induction false} DistinctHasNoDuplicates(vs: seq<Violation>)
    ensures NoDuplicates(Distinct(vs))
  {
    if vs != [] {
      var before := Distinct(vs[..|vs| - 1]);
      DistinctHasNoDuplicates(vs[..|vs| - 1]);
      assert forall i | 0 <= i < |before| :: Key(before[i]) in Keys(before);
    }
  }

  /** `a` is `b` with some items left out. */
  predicate Subsequence(a: seq<Item>, b: seq<Item>) {
    a == [] || (b != [] &&
      (if a[|a| - 1] == b[|b| - 1] then Subsequence(a[..|a| - 1], b[..|b| - 1]) else Subsequence(a, b[..|b| - 1])))
  }

  lemma {:induction false} SubsequenceGrows(a: seq<Item>, b: seq<Item>, tail: seq<Item>)
    requires Subsequence(a, b)
    ensures Subsequence(a + tail, b + tail)
  {
    if tail == [] {
      assert a + [] == a && b + [] == b;
    } else {
      var init := tail[..|tail| - 1];
      SubsequenceGrows(a, b, init);
      assert (a + tail)[..|a + tail| - 1] == a + init && (b + tail)[..|b + tail| - 1] == b + init;
    }
  }

  lemma {:induction false} SubsequenceSkips(a: seq<Item>, b: seq<Item>, x: Item)
    requires Subsequence(a, b)
    ensures Subsequence(a, b + [x])
    decreases |b|, 1
  {
    assert (b + [x])[..|b|] == b;
    if a != [] && a[|a| - 1] == x { SubsequenceInit(a, b); }
  }

  lemma {:induction false} SubsequenceInit(a: seq<Item>, b: seq<Item>)
    requires a != [] && Subsequence(a, b)
    ensures Subsequence(a[..|a| - 1], b)
    decreases |b|, 0
  {
    var init, rest := a[..|a| - 1], b[..|b| - 1];
    assert b == rest + [b[|b| - 1]];
    if a[|a| - 1] != b[|b| - 1] { SubsequenceInit(a, rest); }
    SubsequenceSkips(init, rest, b[|b| - 1]);
  }

  lemma {:induction false} SubsequenceSkipsAll(a: seq<Item>, b: seq<Item>, tail: seq<Item>)
    requires Subsequence(a, b)
    ensures Subsequence(a, b + tail)
  {
    if tail == [] {
      assert b + [] == b;
    } else {
      var init := tail[..|tail| - 1];
      SubsequenceSkipsAll(a, b, init);
      SubsequenceSkips(a, b + init, tail[|tail| - 1]);
      assert b + tail == b + init + [tail[|tail| - 1]];
    }
  }

  lemma {:induction false} ReceivedWasSent(posts: seq<Post>)
    ensures Subsequence(Received(posts), Sent(posts))
  {
    if posts != [] {
      var init, last := posts[..|posts| - 1], posts[|posts| - 1];
      ReceivedWasSent(init);
      if last.delivered {
        SubsequenceGrows(Received(init), Sent(init), last.items);
      } else {
        SubsequenceSkipsAll(Received(init), Sent(init), last.items);
        assert Received(init) + [] == Received(init);
      }
    }
  }

  ghost predicate AllDelivered(posts: seq<Post>) {
    forall i | 0 <= i < |posts| :: posts[i].delivered
  }

  lemma {:induction false} ReceivedIsSent(posts: seq<Post>)
    requires AllDelivered(posts)
    ensures Received(posts) == Sent(posts)
  {
    if posts != [] { ReceivedIsSent(posts[..|posts| - 1]); }
  }

  lemma {:induction false} SubsequenceKeys(a: seq<Item>, b: seq<Item>)
    requires Subsequence(a, b)
    ensures forall x | x in a :: x in b
    ensures NoDuplicates(b) ==> NoDuplicates(a)
    ensures |a| <= |b|
  {
    if a != [] {
      var a', b' := a[..|a| - 1], b[..|b| - 1];
      assert a == a' + [a[|a| - 1]] && b == b' + [b[|b| - 1]];
      if a[|a| - 1] == b[|b| - 1] {
        SubsequenceKeys(a', b');
        assert forall i | 0 <= i < |a'| :: a'[i] in b';
      } else {
        SubsequenceKeys(a, b');
      }
    }
  }

  /** What is due: the first `REFUSAL_CAP` distinct refusals that can be described. */
  function Due(es: seq<Event>): seq<Item> {
    Capped(Distinct(Violations(es)))
  }

  /**
   Over every interleaving of violations and flushes, with any posts lost: the parent receives
   refusals that are due, in order, none twice, and hears of truncation only if something was dropped.
   */
  lemma ParentHearsAtMostOnce(es: seq<Event>)
    ensures Subsequence(Received(After(es).posts), Due(es))
    ensures NoDuplicates(Received(After(es).posts)) && |Received(After(es).posts)| <= REFUSAL_CAP
    ensures forall p | p in After(es).posts && p.truncated :: SomethingDropped(Violations(es))
  {
    hide After, Distinct, Violations, Subsequence, Received, Sent, Keys, SomethingDropped, Key;
    RunKeeps(es);
    var l := After(es);
    ReceivedWasSent(l.posts);
    SubsequenceSkipsAll(Received(l.posts), Sent(l.posts), l.queue);
    DistinctHasNoDuplicates(Violations(es));
    SubsequenceKeys(Received(l.posts), Due(es));
  }

  /**
   Once no flush is pending and if no post was lost, the parent has exactly what is due, and
   has been told of truncation exactly if something was dropped.
   */
  lemma ParentHearsEverything(es: seq<Event>)
    requires !After(es).scheduled && AllDelivered(After(es).posts)
    ensures Received(After(es).posts) == Due(es)
    ensures (exists p | p in After(es).posts :: p.truncated) <==> SomethingDropped(Violations(es))
  {
    hide After, Distinct, Violations, Received, Sent, Keys, SomethingDropped, Capped;
    RunKeeps(es);
    var l := After(es);
    ReceivedIsSent(l.posts);
    assert Sent(l.posts) + [] == Sent(l.posts);
    if l.truncated { assert l.posts[|l.posts| - 1] in l.posts; }
  }

  /** Deduplication is by the joined key; it tells refusals apart whenever directives hold no bar. */
  lemma KeyTellsApart(a: Item, b: Item)
    requires '|' !in a.directive && '|' !in b.directive
    ensures Key(a) == Key(b) <==> a == b
  {
    if Key(a) == Key(b) {
      var k := Key(a);
      assert k[|a.directive|] == '|' && k[|b.directive|] == '|';
      assert forall i | 0 <= i < |a.directive| :: k[i] == a.directive[i];
      assert forall i | 0 <= i < |b.directive| :: k[i] == b.directive[i];
      assert |a.directive| == |b.directive|;
      assert a.directive == k[..|a.directive|] && b.directive == k[..|b.directive|];
      assert a.blockedUri == k[|a.directive| + 1..] && b.blockedUri == k[|b.directive| + 1..];
    }
  }
}
