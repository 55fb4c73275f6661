/**
 The gate in front of the model runner: a few calls run, a few more wait their turn in
 order, the rest are refused at once. The class keeps the source's counter and array; the
 state machine beside it remembers what became of every call, over every run.
 */
module ConcurrencyGate {
  import opened Wrappers

  // ---- what becomes of calls --------------------------------------------------

  datatype Fate = Waiting | Running | Finished | Refused | TimedOut

  predicate Settled(f: Fate) {
    f.Finished? || f.Refused? || f.TimedOut?
  }

  datatype Limits = Limits(maxActive: nat, maxQueue: nat)

  datatype Gate = Gate(running: set<nat>, waiting: seq<nat>, fates: map<nat, Fate>, starts: seq<nat>)

  /** Calls are numbered. A completion is the `finally` of a running call, a time-out its timer. */
  datatype Event = Call(id: nat) | Complete(id: nat) | TimeOut(id: nat)

  predicate Enabled(g: Gate, e: Event) {
    match e
    case Call(id) => id !in g.fates
    case Complete(id) => id in g.running
    case TimeOut(_) => true
  }

  function Without(s: seq<nat>, id: nat): seq<nat> {
    if s == [] then [] else if s[0] == id then s[1..] else [s[0]] + Without(s[1..], id)
  }

  function Start(g: Gate, id: nat): Gate {
    g.(running := g.running + {id}, fates := g.fates[id := Running], starts := g.starts + [id])
  }

  function Step(g: Gate, e: Event, lim: Limits): Gate {
    match e
    case Call(id) =>
      if |g.running| < lim.maxActive then Start(g, id)
      else if |g.waiting| >= lim.maxQueue then g.(fates := g.fates[id := Refused])
      else g.(waiting := g.waiting + [id], fates := g.fates[id := Waiting])
    case Complete(id) =>
      var done := g.(running := g.running - {id}, fates := g.fates[id := Finished]);
      if g.waiting == [] then done else Start(done.(waiting := g.waiting[1..]), g.waiting[0])
    case TimeOut(id) =>
      if id in g.waiting then g.(waiting := Without(g.waiting, id), fates := g.fates[id := TimedOut])
      else g
  }

  ghost predicate Distinct(s: seq<nat>) {
    forall i, j | 0 <= i < j < |s| :: s[i] != s[j]
  }

  ghost predicate Inv(g: Gate, lim: Limits) {
    && lim.maxActive >= 1
    && |g.running| <= lim.maxActive && |g.waiting| <= lim.maxQueue
    && (g.waiting != [] ==> |g.running| == lim.maxActive)
    && Distinct(g.waiting) && Distinct(g.starts)
    && (forall id :: id in g.running <==> id in g.fates && g.fates[id].Running?)
    && (forall id :: id in g.waiting <==> id in g.fates && g.fates[id].Waiting?)
    && (forall id :: id in g.starts <==> id in g.fates && (g.fates[id].Running? || g.fates[id].Finished?))
  }

  const EMPTY := Gate({}, [], map[], [])

  lemma {:induction false} WithoutSplices(s: seq<nat>, id: nat, i: nat)
    requires i <= |s| && id !in s[..i] && (i < |s| ==> s[i] == id)
    ensures Without(s, id) == if i < |s| then s[..i] + s[i + 1..] else s
  {
    if i > 0 {
      assert s[0] == s[..i][0] && s[1..][..i - 1] == s[..i][1..];
      WithoutSplices(s[1..], id, i - 1);
      assert s == [s[0]] + s[1..];
    }
  }

  lemma WithoutExact(s: seq<nat>, id: nat)
    requires Distinct(s)
    ensures Distinct(Without(s, id)) && |Without(s, id)| == |s| - (if id in s then 1 else 0)
    ensures forall x :: x in Without(s, id) <==> x in s && x != id
  {
    hide Without;
    if id in s {
      var i :| 0 <= i < |s| && s[i] == id;
      WithoutSplices(s, id, i);
      assert s == s[..i] + [id] + s[i + 1..];
    } else {
      WithoutSplices(s, id, |s|);
    }
  }

  lemma DistinctSnoc(s: seq<nat>, x: nat)
    requires Distinct(s) && x !in s
    ensures Distinct(s + [x])
  {
  }

  lemma CallKeeps(g: Gate, id: nat, lim: Limits)
    requires Inv(g, lim) && id !in g.fates
    ensures Inv(Step(g, Event.Call(id), lim), lim)
  {
    DistinctSnoc(g.waiting, id);
    DistinctSnoc(g.starts, id);
  }

  lemma CompleteKeeps(g: Gate, id: nat, lim: Limits)
    requires Inv(g, lim) && id in g.running
    ensures Inv(Step(g, Complete(id), lim), lim)
  {
    if g.waiting != [] {
      hide Distinct;
      var next := g.waiting[0];
      FrontLeaves(g.waiting);
      assert next in g.waiting;
      DistinctSnoc(g.starts, next);
    }
  }

  lemma FrontLeaves(s: seq<nat>)
    requires s != [] && Distinct(s)
    ensures Distinct(s[1..]) && forall x :: x in s[1..] <==> x in s && x != s[0]
  {
    assert s == [s[0]] + s[1..];
  }

  lemma TimeOutKeeps(g: Gate, id: nat, lim: Limits)
    requires Inv(g, lim)
    ensures Inv(Step(g, TimeOut(id), lim), lim)
  {
    WithoutExact(g.waiting, id);
  }

  lemma StepKeeps(g: Gate, e: Event, lim: Limits)
    requires Inv(g, lim) && Enabled(g, e)
    ensures Inv(Step(g, e, lim), lim)
  {
    match e
    case Call(id) => CallKeeps(g, id, lim);
    case Complete(id) => CompleteKeeps(g, id, lim);
    case TimeOut(id) => TimeOutKeeps(g, id, lim);
  }

  ghost predicate Run(gs: seq<Gate>, es: seq<Event>, lim: Limits) {
    && |gs| == |es| + 1 && gs[0] == EMPTY && lim.maxActive >= 1
    && forall i | 0 <= i < |es| :: Enabled(gs[i], es[i]) && gs[i + 1] == Step(gs[i], es[i], lim)
  }

  /**
   Over every run: never more than `maxActive` run or `maxQueue` wait, no slot stays free
   while a call waits, and a call is running, waiting and started just as its fate says.
   */
  lemma {:induction false} GateIsBounded(gs: seq<Gate>, es: seq<Event>, lim: Limits, i: nat)
    requires Run(gs, es, lim) && i <= |es|
    ensures Inv(gs[i], lim)
  {
    if i > 0 {
      GateIsBounded(gs, es, lim, i - 1);
      StepKeeps(gs[i - 1], es[i - 1], lim);
    }
  }

  // ---- every call is answered once --------------------------------------------

  /** How a fate may change: waiting may start or time out, running may finish, settled is settled. */
  predicate MayBecome(f: Fate, f': Fate) {
    match f
    case Waiting => f' != Refused
    case Running => f'.Running? || f'.Finished?
    case _ => f' == f
  }

  ghost predicate Later(g: Gate, g': Gate) {
    && (forall id | id in g.fates :: id in g'.fates && MayBecome(g.fates[id], g'.fates[id]))
    && g.starts <= g'.starts
  }

  lemma StepLater(g: Gate, e: Event, lim: Limits)
    requires Inv(g, lim) && Enabled(g, e)
    ensures Later(g, Step(g, e, lim))
  {
    if e.Complete? && g.waiting != [] {
      assert g.waiting[0] in g.waiting;
    }
  }

  lemma {:induction false} RunLater(gs: seq<Gate>, es: seq<Event>, lim: Limits, i: nat, j: nat)
    requires Run(gs, es, lim) && i <= j <= |es|
    ensures Later(gs[i], gs[j])
    decreases j
  {
    hide Inv, Step, Enabled, Later;
    if i == j {
      LaterThanItself(gs[i]);
    } else {
      RunLater(gs, es, lim, i, j - 1);
      GateIsBounded(gs, es, lim, j - 1);
      StepLater(gs[j - 1], es[j - 1], lim);
      LaterTwice(gs[i], gs[j - 1], gs[j]);
    }
  }

  lemma LaterThanItself(g: Gate)
    ensures Later(g, g)
  {
  }

  lemma LaterTwice(g: Gate, g': Gate, g'': Gate)
    requires Later(g, g') && Later(g', g'')
    ensures Later(g, g'')
  {
  }

  /** Each call ends in exactly one way, for good, and its function is started at most once, never after a refusal. */
  lemma CallsSettleOnce(gs: seq<Gate>, es: seq<Event>, lim: Limits, i: nat, j: nat, id: nat)
    requires Run(gs, es, lim) && i <= j <= |es|
    requires id in gs[i].fates && Settled(gs[i].fates[id])
    ensures id in gs[j].fates && gs[j].fates[id] == gs[i].fates[id]
    ensures id in gs[j].starts <==> gs[i].fates[id].Finished?
    ensures Distinct(gs[j].starts)
  {
    RunLater(gs, es, lim, i, j);
    GateIsBounded(gs, es, lim, j);
  }

  /** A call is refused only if every slot is taken and every place in the queue, and starts at once if a slot is free. */
  lemma RefusedExactlyWhenFull(gs: seq<Gate>, es: seq<Event>, lim: Limits, i: nat, id: nat)
    requires Run(gs, es, lim) && i < |es| && es[i] == Event.Call(id)
    ensures id in gs[i + 1].fates
    ensures gs[i + 1].fates[id].Refused? <==> |gs[i].running| == lim.maxActive && |gs[i].waiting| == lim.maxQueue
    ensures gs[i + 1].fates[id].Running? <==> |gs[i].running| < lim.maxActive
    ensures gs[i + 1].fates[id].Waiting? ==> gs[i + 1].waiting == gs[i].waiting + [id]
  {
    GateIsBounded(gs, es, lim, i);
  }

  /** The event that settles a call with this fate. */
  function Cause(f: Fate, id: nat): Event {
    match f
    case TimedOut => TimeOut(id)
    case Refused => Event.Call(id)
    case _ => Complete(id)
  }

  /** A call settles only by its own doing: its refusal, its timer while it waited, or its function's end while it ran. */
  lemma {:induction false} SettledByItself(gs: seq<Gate>, es: seq<Event>, lim: Limits, j: nat, id: nat) returns (i: nat)
    requires Run(gs, es, lim) && j <= |es| && id in gs[j].fates && Settled(gs[j].fates[id])
    ensures i < j && es[i] == Cause(gs[j].fates[id], id)
    ensures gs[j].fates[id].TimedOut? ==> id in gs[i].waiting
    ensures gs[j].fates[id].Finished? ==> id in gs[i].running
  {
    i := j - 1;
    GateIsBounded(gs, es, lim, i);
    if id in gs[i].fates && gs[i].fates[id] == gs[j].fates[id] {
      i := SettledByItself(gs, es, lim, i, id);
    } else {
      NewlySettled(gs[i], es[i], lim, id);
    }
  }

  lemma NewlySettled(g: Gate, e: Event, lim: Limits, id: nat)
    requires Inv(g, lim) && Enabled(g, e)
    requires var g' := Step(g, e, lim);
      id in g'.fates && Settled(g'.fates[id]) && !(id in g.fates && g.fates[id] == g'.fates[id])
    ensures var f := Step(g, e, lim).fates[id];
      && e == Cause(f, id) && (f.TimedOut? ==> id in g.waiting) && (f.Finished? ==> id in g.running)
  {
  }

  /**
   A timer that fires on a waiting call settles it there and then: it leaves the queue and never
   comes back, and its function is never started. A timer of any other call changes nothing.
   */
  lemma TimeOutIsFinal(gs: seq<Gate>, es: seq<Event>, lim: Limits, i: nat, j: nat, id: nat)
    requires Run(gs, es, lim) && i < j <= |es| && es[i] == TimeOut(id)
    ensures id !in gs[i].waiting ==> gs[i + 1] == gs[i]
    ensures id in gs[i].waiting ==>
      && id in gs[i + 1].fates && gs[i + 1].fates[id] == TimedOut
      && gs[i + 1].running == gs[i].running && gs[i + 1].starts == gs[i].starts
      && (forall x :: x in gs[i + 1].waiting <==> x in gs[i].waiting && x != id)
      && id in gs[j].fates && gs[j].fates[id] == TimedOut
      && id !in gs[j].waiting && id !in gs[j].running && id !in gs[j].starts
  {
    if id in gs[i].waiting {
      GateIsBounded(gs, es, lim, i);
      WithoutExact(gs[i].waiting, id);
      CallsSettleOnce(gs, es, lim, i + 1, j, id);
      GateIsBounded(gs, es, lim, j);
      hide Without, Distinct;
    }
  }

  // ---- first come, first started ----------------------------------------------

  /** Both wait, `first` ahead of `second`. */
  ghost predicate QueuedBefore(g: Gate, first: nat, second: nat) {
    exists a, b | 0 <= a < b < |g.waiting| :: g.waiting[a] == first && g.waiting[b] == second
  }

  lemma {:induction false} WithoutKeepsOrder(s: seq<nat>, id: nat, a: nat, b: nat)
    requires Distinct(s) && a < b < |s| && s[a] != id && s[b] != id
    ensures exists a', b' | 0 <= a' < b' < |Without(s, id)| :: Without(s, id)[a'] == s[a] && Without(s, id)[b'] == s[b]
  {
    if s[0] == id {
      var rest := Without(s, id);
      assert rest[a - 1] == s[a] && rest[b - 1] == s[b];
    } else if a == 0 {
      assert Distinct(s[1..]);
      WithoutExact(s[1..], id);
      assert s[b] == s[1..][b - 1] && s[b] in s[1..];
      var rest := Without(s[1..], id);
      var k :| 0 <= k < |rest| && rest[k] == s[b];
      var all := Without(s, id);
      assert all[0] == s[a] && all[k + 1] == s[b];
    } else {
      assert Distinct(s[1..]);
      WithoutKeepsOrder(s[1..], id, a - 1, b - 1);
      var rest := Without(s[1..], id);
      var a', b' :| 0 <= a' < b' < |rest| && rest[a'] == s[a] && rest[b'] == s[b];
      var all := Without(s, id);
      assert all[a' + 1] == s[a] && all[b' + 1] == s[b];
    }
  }

  lemma OrderKept(g: Gate, e: Event, lim: Limits, first: nat, second: nat)
    requires Inv(g, lim) && Enabled(g, e) && QueuedBefore(g, first, second)
    ensures var g' := Step(g, e, lim);
      || QueuedBefore(g', first, second)
      || (second in g'.fates && g'.fates[second].TimedOut?)
      || (first in g'.fates && g'.fates[first].TimedOut?)
      || (first in g'.starts && second !in g'.starts)
  {
    var a, b :| 0 <= a < b < |g.waiting| && g.waiting[a] == first && g.waiting[b] == second;
    assert first in g.waiting && second in g.waiting;
    var g' := Step(g, e, lim);
    match e
    case Call(id) =>
      if |g.running| >= lim.maxActive && |g.waiting| < lim.maxQueue {
        assert g'.waiting[a] == first && g'.waiting[b] == second;
      } else {
        assert g'.waiting == g.waiting;
      }
    case Complete(id) =>
      if a == 0 {
        assert first in g'.starts;
      } else {
        assert g'.waiting[a - 1] == first && g'.waiting[b - 1] == second;
      }
    case TimeOut(id) =>
      if id != first && id != second && id in g.waiting {
        WithoutKeepsOrder(g.waiting, id, a, b);
      }
  }

  /** Of two calls that waited together, the later never starts before the earlier one has started or timed out. */
  lemma {:induction false} FirstComeFirstStarted(gs: seq<Gate>, es: seq<Event>, lim: Limits, i: nat, j: nat,
                                                 first: nat, second: nat)
    requires Run(gs, es, lim) && i <= j <= |es| && QueuedBefore(gs[i], first, second)
    requires second in gs[j].starts
    ensures (first in gs[j].fates && gs[j].fates[first].TimedOut?)
         || exists a, b | 0 <= a < b < |gs[j].starts| :: gs[j].starts[a] == first && gs[j].starts[b] == second
    decreases j - i
  {
    GateIsBounded(gs, es, lim, i);
    GateIsBounded(gs, es, lim, j);
    assert second in gs[i].waiting && second !in gs[i].starts;
    OrderKept(gs[i], es[i], lim, first, second);
    RunLater(gs, es, lim, i + 1, j);
    if QueuedBefore(gs[i + 1], first, second) {
      FirstComeFirstStarted(gs, es, lim, i + 1, j, first, second);
    } else if first in gs[i + 1].starts && second !in gs[i + 1].starts {
      var s, s' := gs[i + 1].starts, gs[j].starts;
      var a :| 0 <= a < |s| && s[a] == first;
      var b :| 0 <= b < |s'| && s'[b] == second;
      assert s'[a] == first;
      assert forall x | 0 <= x < |s| :: s'[x] == s[x] && s[x] in s;
    }
  }

  // ---- waiting is bounded in completions --------------------------------------

  function Completions(es: seq<Event>): nat {
    if es == [] then 0 else (if es[0].Complete? then 1 else 0) + Completions(es[1..])
  }

  lemma {:induction false} WithoutMovesUp(s: seq<nat>, id: nat, k: nat)
    requires k < |s| && s[k] != id
    ensures exists k' | 0 <= k' < |Without(s, id)| && k' <= k :: Without(s, id)[k'] == s[k]
  {
    if s[0] == id {
      var rest := Without(s, id);
      assert rest[k - 1] == s[k];
    } else if k == 0 {
      var all := Without(s, id);
      assert all[0] == s[0];
    } else {
      WithoutMovesUp(s[1..], id, k - 1);
      var rest := Without(s[1..], id);
      var k' :| 0 <= k' < |rest| && k' <= k - 1 && rest[k'] == s[k];
      var all := Without(s, id);
      assert all[k' + 1] == s[k];
    }
  }

  /** One event moves a waiter up by one completion at least, unless it starts or times out. */
  lemma WaiterMovesUp(g: Gate, e: Event, lim: Limits, id: nat, k: nat) returns (k': nat)
    requires Inv(g, lim) && Enabled(g, e) && k < |g.waiting| && g.waiting[k] == id
    ensures var g' := Step(g, e, lim);
      || (k' < |g'.waiting| && g'.waiting[k'] == id && k' + (if e.Complete? then 1 else 0) <= k)
      || id in g'.starts
      || (id in g'.fates && g'.fates[id].TimedOut?)
  {
    var g' := Step(g, e, lim);
    k' := k;
    match e
    case Call(_) =>
      assert g'.waiting == g.waiting || g'.waiting == g.waiting + [e.id];
    case Complete(_) =>
      if k > 0 {
        k' := k - 1;
        assert g'.waiting[k'] == id;
      }
    case TimeOut(x) =>
      if x != id && x in g.waiting {
        WithoutMovesUp(g.waiting, x, k);
        k' :| 0 <= k' < |g'.waiting| && k' <= k && g'.waiting[k'] == id;
      }
  }

  /** The waiter at position k has started after k + 1 completions, unless its own timer fired. */
  lemma {:induction false} WaitIsBounded(gs: seq<Gate>, es: seq<Event>, lim: Limits, i: nat, j: nat, k: nat, id: nat)
    requires Run(gs, es, lim) && i <= j <= |es|
    requires k < |gs[i].waiting| && gs[i].waiting[k] == id && Completions(es[i..j]) >= k + 1
    ensures id in gs[j].starts || (id in gs[j].fates && gs[j].fates[id].TimedOut?)
    decreases j - i
  {
    GateIsBounded(gs, es, lim, i);
    var k' := WaiterMovesUp(gs[i], es[i], lim, id, k);
    assert es[i..j][1..] == es[i + 1..j];
    RunLater(gs, es, lim, i + 1, j);
    if k' < |gs[i + 1].waiting| && gs[i + 1].waiting[k'] == id && k' + (if es[i].Complete? then 1 else 0) <= k {
      WaitIsBounded(gs, es, lim, i + 1, j, k', id);
    }
  }

  // ---- the gate itself --------------------------------------------------------

  function AtLeast(low: int, n: int): nat
    requires low >= 0
  {
    if n < low then low else n
  }

  class Gatekeeper {
    const limits: Limits
    var active: nat
    var waiting: seq<nat>
    ghost var history: Gate

    ghost predicate Valid()
      reads this
    {
      Inv(history, limits) && active == |history.running| && waiting == history.waiting
    }

    /** Missing or zero `maxActive` means 1, missing `maxQueue` means 4. */
    constructor (maxActive: Option<int>, maxQueue: Option<int>)
      ensures Valid() && history == EMPTY
      ensures limits.maxActive == if maxActive.Some? && maxActive.value >= 1 then maxActive.value else 1
      ensures maxQueue.Some? && maxQueue.value >= 0 ==> limits.maxQueue == maxQueue.value
      ensures maxQueue.Some? && maxQueue.value < 0 ==> limits.maxQueue == 0
      ensures maxQueue.None? ==> limits.maxQueue == 4
    {
      var a := if maxActive.None? || maxActive.value == 0 then 1 else maxActive.value;
      var q := if maxQueue.None? then 4 else maxQueue.value;
      limits := Limits(AtLeast(1, a), AtLeast(0, q));
      active, waiting, history := 0, [], EMPTY;
    }

    /** `run`: start now, refuse now, or wait. */
    method Call(id: nat) returns (fate: Fate)
      requires Valid() && Enabled(history, Event.Call(id))
      modifies this
      ensures Valid() && history == Step(old(history), Event.Call(id), limits) && fate == history.fates[id]
    {
      StepKeeps(history, Event.Call(id), limits);
      history := Step(history, Event.Call(id), limits);
      if active < limits.maxActive {
        active := active + 1;
        return Running;
      }
      if |waiting| >= limits.maxQueue {
        return Refused;
      }
      waiting := waiting + [id];
      return Fate.Waiting;
    }

    /** `release`, when a running call settles: the slot goes to the first waiter at once. */
    method Release(id: nat) returns (next: Option<nat>)
      requires Valid() && Enabled(history, Complete(id))
      modifies this
      ensures Valid() && history == Step(old(history), Complete(id), limits)
      ensures next == if old(waiting) == [] then None else Some(old(waiting)[0])
    {
      StepKeeps(history, Complete(id), limits);
      history := Step(history, Complete(id), limits);
      active := active - 1;
      next := None;
      if waiting != [] {
        next := Some(waiting[0]);
        waiting := waiting[1..];
        active := active + 1;
      }
    }

    /** The wait timer: `indexOf`, and `splice` if the entry still waits. */
    method WaitExpired(id: nat) returns (cancelled: bool)
      requires Valid()
      modifies this
      ensures Valid() && history == Step(old(history), TimeOut(id), limits)
      ensures cancelled <==> id in old(waiting)
    {
      var i := 0;
      while i < |waiting| && waiting[i] != id
        invariant 0 <= i <= |waiting|
        invariant id !in waiting[..i] && waiting == old(waiting)
      {
        i := i + 1;
      }
      WithoutSplices(waiting, id, i);
      cancelled := i < |waiting|;
      if cancelled {
        waiting := waiting[..i] + waiting[i + 1..];
      }
      StepKeeps(history, TimeOut(id), limits);
      history := Step(history, TimeOut(id), limits);
    }
  }
}
