/**
 The sliding-log limiter: per key it keeps the times of recent acceptances and drops the
 old ones on every call and in a sweep. Beside it stands the ideal limiter, which keeps
 everything and never sweeps; the two make the same decisions.
 */
module SlidingLog {
  import opened Arrivals

  datatype Config = Config(windowMs: nat, max: nat)

  datatype Event = Call(key: Key, at: int) | Sweep(at: int)

  // ---- the limiter as the source keeps it -------------------------------------

  function Fresh(times: seq<int>, cutoff: int): seq<int> {
    if times == [] then []
    else
      var last := times[|times| - 1];
      Fresh(times[..|times| - 1], cutoff) + (if last > cutoff then [last] else [])
  }

  function TimesOf(buckets: map<Key, seq<int>>, key: Key): seq<int> {
    if key in buckets then buckets[key] else []
  }

  predicate Admits(buckets: map<Key, seq<int>>, key: Key, now: int, cfg: Config) {
    |Fresh(TimesOf(buckets, key), now - cfg.windowMs)| < cfg.max
  }

  function Swept(buckets: map<Key, seq<int>>, cutoff: int): map<Key, seq<int>> {
    map k | k in buckets && Fresh(buckets[k], cutoff) != [] :: Fresh(buckets[k], cutoff)
  }

  function Next(buckets: map<Key, seq<int>>, e: Event, cfg: Config): map<Key, seq<int>> {
    match e
    case Call(key, now) =>
      if Admits(buckets, key, now, cfg)
      then buckets[key := Fresh(TimesOf(buckets, key), now - cfg.windowMs) + [now]]
      else buckets
    case Sweep(now) => Swept(buckets, now - cfg.windowMs)
  }

  function After(es: seq<Event>, cfg: Config): map<Key, seq<int>> {
    if es == [] then map[] else Next(After(es[..|es| - 1], cfg), es[|es| - 1], cfg)
  }

  class Limiter {
    const cfg: Config
    var buckets: map<Key, seq<int>>

    constructor (cfg: Config)
      ensures this.cfg == cfg && buckets == After([], cfg)
    {
      this.cfg := cfg;
      buckets := map[];
    }

    method Allow(key: Key, now: int) returns (ok: bool)
      modifies this
      ensures ok == Admits(old(buckets), key, now, cfg)
      ensures buckets == Next(old(buckets), Call(key, now), cfg)
    {
      var list := [];
      if key in buckets {
        list := Recent(buckets[key], now - cfg.windowMs);
      }
      if |list| >= cfg.max { return false; }
      buckets := buckets[key := list + [now]];
      return true;
    }

    /** The filter callback, entry by entry. */
    static method Recent(times: seq<int>, cutoff: int) returns (list: seq<int>)
      ensures list == Fresh(times, cutoff)
    {
      list := [];
      for i := 0 to |times|
        invariant list == Fresh(times[..i], cutoff)
      {
        assert times[..i + 1][..i] == times[..i];
        if times[i] > cutoff { list := list + [times[i]]; }
      }
      assert times[..|times|] == times;
    }

    /** The interval callback: every bucket is filtered in place, empty ones are deleted. */
    method SweepStale(now: int)
      modifies this
      ensures buckets == Next(old(buckets), Sweep(now), cfg)
    {
      var cutoff := now - cfg.windowMs;
      var todo := buckets.Keys;
      ghost var was, swept := buckets, Swept(buckets, cutoff);
      while todo != {}
        invariant todo <= was.Keys
        invariant forall k | k in todo :: k in buckets && buckets[k] == was[k]
        invariant forall k | k !in todo :: k in buckets <==> k in swept
        invariant forall k | k !in todo && k in buckets :: buckets[k] == swept[k]
        decreases |todo|
      {
        var k :| k in todo;
        todo := todo - {k};
        var list := Recent(buckets[k], cutoff);
        if |list| == 0 {
          buckets := map j | j in buckets && j != k :: buckets[j];
        } else {
          buckets := buckets[k := list];
        }
      }
    }
  }

  // ---- the ideal: every acceptance remembered, nothing swept ------------------

  datatype Entry = Entry(key: Key, at: int)

  function Recents(log: seq<Entry>, key: Key, cutoff: int): seq<int> {
    if log == [] then []
    else
      var e := log[|log| - 1];
      Recents(log[..|log| - 1], key, cutoff) + (if e.key == key && e.at > cutoff then [e.at] else [])
  }

  function Remember(log: seq<Entry>, e: Event, cfg: Config): seq<Entry> {
    if e.Call? && |Recents(log, e.key, e.at - cfg.windowMs)| < cfg.max then log + [Entry(e.key, e.at)] else log
  }

  function Accepted(es: seq<Event>, cfg: Config): seq<Entry> {
    if es == [] then [] else Remember(Accepted(es[..|es| - 1], cfg), es[|es| - 1], cfg)
  }

  function At(arrival: Event): int {
    arrival.at
  }

  // ---- the two agree ----------------------------------------------------------

  lemma FreshSnoc(times: seq<int>, t: int, cutoff: int)
    ensures Fresh(times + [t], cutoff) == Fresh(times, cutoff) + (if t > cutoff then [t] else [])
  {
    assert (times + [t])[..|times|] == times;
  }

  lemma {:induction false} FreshTwice(times: seq<int>, early: int, late: int)
    requires early <= late
    ensures Fresh(Fresh(times, early), late) == Fresh(times, late)
  {
    if times != [] {
      var before, last := times[..|times| - 1], times[|times| - 1];
      FreshTwice(before, early, late);
      FreshSnoc(Fresh(before, early), last, late);
      assert Fresh(before, early) + [] == Fresh(before, early);
    }
  }

  lemma RecentsSnoc(log: seq<Entry>, e: Entry, key: Key, cutoff: int)
    ensures Recents(log + [e], key, cutoff)
         == Recents(log, key, cutoff) + (if e.key == key && e.at > cutoff then [e.at] else [])
  {
    assert (log + [e])[..|log|] == log;
  }

  lemma BucketAfterSweep(buckets: map<Key, seq<int>>, key: Key, cutoff: int)
    ensures TimesOf(Swept(buckets, cutoff), key) == Fresh(TimesOf(buckets, key), cutoff)
  {
  }

  lemma BucketAfterCall(buckets: map<Key, seq<int>>, k: Key, now: int, cfg: Config, key: Key)
    ensures TimesOf(Next(buckets, Call(k, now), cfg), key) ==
      if k == key && Admits(buckets, k, now, cfg) then Fresh(TimesOf(buckets, k), now - cfg.windowMs) + [now]
      else TimesOf(buckets, key)
  {
  }

  lemma GrownBucket(held: seq<int>, log: seq<Entry>, key: Key, at: int, c: int, cutoff: int)
    requires c <= cutoff && Fresh(held, cutoff) == Recents(log, key, cutoff)
    ensures Fresh(Fresh(held, c) + [at], cutoff) == Recents(log + [Entry(key, at)], key, cutoff)
  {
    FreshTwice(held, c, cutoff);
    FreshSnoc(Fresh(held, c), at, cutoff);
    RecentsSnoc(log, Entry(key, at), key, cutoff);
  }

  lemma OtherBucket(log: seq<Entry>, e: Entry, key: Key, cutoff: int)
    requires e.key != key
    ensures Recents(log + [e], key, cutoff) == Recents(log, key, cutoff)
  {
    RecentsSnoc(log, e, key, cutoff);
    assert Recents(log, key, cutoff) + [] == Recents(log, key, cutoff);
  }

  lemma CallKeepsTheRecent(buckets: map<Key, seq<int>>, log: seq<Entry>, k: Key, at: int, cfg: Config, key: Key, cutoff: int)
    requires at - cfg.windowMs <= cutoff
    requires Fresh(TimesOf(buckets, key), cutoff) == Recents(log, key, cutoff)
    requires Admits(buckets, k, at, cfg) <==> |Recents(log, k, at - cfg.windowMs)| < cfg.max
    ensures Fresh(TimesOf(Next(buckets, Call(k, at), cfg), key), cutoff) == Recents(Remember(log, Call(k, at), cfg), key, cutoff)
  {
    BucketAfterCall(buckets, k, at, cfg, key);
    hide Fresh, Recents;
    if Admits(buckets, k, at, cfg) {
      if k == key {
        GrownBucket(TimesOf(buckets, key), log, key, at, at - cfg.windowMs, cutoff);
      } else {
        OtherBucket(log, Entry(k, at), key, cutoff);
      }
    }
  }

  lemma SweepKeepsTheRecent(buckets: map<Key, seq<int>>, key: Key, early: int, cutoff: int)
    requires early <= cutoff
    ensures Fresh(TimesOf(Swept(buckets, early), key), cutoff) == Fresh(TimesOf(buckets, key), cutoff)
  {
    BucketAfterSweep(buckets, key, early);
    FreshTwice(TimesOf(buckets, key), early, cutoff);
  }

  /** From every cut-off that can still come, the buckets hold what the full log holds. */
  ghost predicate HoldsTheRecent(buckets: map<Key, seq<int>>, log: seq<Entry>, low: int) {
    forall key, cutoff | low <= cutoff :: Fresh(TimesOf(buckets, key), cutoff) == Recents(log, key, cutoff)
  }

  lemma StepHoldsTheRecent(buckets: map<Key, seq<int>>, log: seq<Entry>, low: int, e: Event, cfg: Config)
    requires HoldsTheRecent(buckets, log, low) && low <= e.at - cfg.windowMs
    ensures HoldsTheRecent(Next(buckets, e, cfg), Remember(log, e, cfg), e.at - cfg.windowMs)
  {
    hide Fresh, Recents;
    var buckets', log' := Next(buckets, e, cfg), Remember(log, e, cfg);
    forall key, cutoff | e.at - cfg.windowMs <= cutoff
      ensures Fresh(TimesOf(buckets', key), cutoff) == Recents(log', key, cutoff)
    {
      match e
      case Sweep(at) => SweepKeepsTheRecent(buckets, key, at - cfg.windowMs, cutoff);
      case Call(k, at) => CallKeepsTheRecent(buckets, log, k, at, cfg, key, cutoff);
    }
  }

  lemma {:induction false} BucketsHoldTheRecent(es: seq<Event>, cfg: Config, low: int)
    requires ClockIsMonotone(es, At) && (es != [] ==> es[|es| - 1].at - cfg.windowMs <= low)
    ensures HoldsTheRecent(After(es, cfg), Accepted(es, cfg), low)
  {
    if es != [] {
      var before, last := es[..|es| - 1], es[|es| - 1];
      var early := last.at - cfg.windowMs;
      BucketsHoldTheRecent(before, cfg, early);
      StepHoldsTheRecent(After(before, cfg), Accepted(before, cfg), early, last, cfg);
    }
  }

  /**
   The decision is "fewer than max accepted calls of this key in the last windowMs",
   whatever sweeps ran before it.
   */
  lemma DecisionIsIdeal(es: seq<Event>, cfg: Config, key: Key, now: int)
    requires ClockIsMonotone(es, At) && (es != [] ==> es[|es| - 1].at <= now)
    ensures Admits(After(es, cfg), key, now, cfg) <==> |Recents(Accepted(es, cfg), key, now - cfg.windowMs)| < cfg.max
  {
    hide Fresh, Recents, After, Accepted;
    BucketsHoldTheRecent(es, cfg, now - cfg.windowMs);
  }

  /** What the limiter itself accepts over a run, call by call. */
  function Log(es: seq<Event>, cfg: Config): seq<Entry> {
    if es == [] then []
    else
      var before, last := es[..|es| - 1], es[|es| - 1];
      if last.Call? && Admits(After(before, cfg), last.key, last.at, cfg)
      then Log(before, cfg) + [Entry(last.key, last.at)]
      else Log(before, cfg)
  }

  /** Over every run of a monotone clock the limiter accepts exactly what the ideal accepts. */
  lemma {:induction false} LimiterRefinesIdeal(es: seq<Event>, cfg: Config)
    requires ClockIsMonotone(es, At)
    ensures Log(es, cfg) == Accepted(es, cfg)
  {
    hide Fresh, Recents;
    if es != [] {
      var before, last := es[..|es| - 1], es[|es| - 1];
      LimiterRefinesIdeal(before, cfg);
      if last.Call? {
        DecisionIsIdeal(before, cfg, last.key, last.at);
      }
    }
  }

  function CallsOnly(es: seq<Event>): seq<Event> {
    if es == [] then []
    else CallsOnly(es[..|es| - 1]) + (if es[|es| - 1].Call? then [es[|es| - 1]] else [])
  }

  lemma {:induction false} IdealIgnoresSweeps(es: seq<Event>, cfg: Config)
    ensures Accepted(es, cfg) == Accepted(CallsOnly(es), cfg)
  {
    if es != [] {
      var before, last := es[..|es| - 1], es[|es| - 1];
      IdealIgnoresSweeps(before, cfg);
      var calls := CallsOnly(before);
      if last.Call? {
        assert (calls + [last])[..|calls|] == calls;
      } else {
        assert calls + [] == calls;
      }
    }
  }

  // ---- no window overflows ----------------------------------------------------

  /** Acceptances of `key` at times in (from, to]; with whole milliseconds this is [from + 1, to + 1). */
  function CountIn(log: seq<Entry>, key: Key, from: int, to: int): nat {
    if log == [] then 0
    else
      var e := log[|log| - 1];
      CountIn(log[..|log| - 1], key, from, to) + (if e.key == key && from < e.at <= to then 1 else 0)
  }

  lemma {:induction false} CountedAreRecent(log: seq<Entry>, key: Key, from: int, to: int, cutoff: int)
    requires cutoff <= from
    ensures CountIn(log, key, from, to) <= |Recents(log, key, cutoff)|
  {
    if log != [] { CountedAreRecent(log[..|log| - 1], key, from, to, cutoff); }
  }

  lemma {:induction false} IdealWindow(es: seq<Event>, cfg: Config, key: Key, from: int)
    ensures CountIn(Accepted(es, cfg), key, from, from + cfg.windowMs) <= cfg.max
  {
    if es != [] {
      var before, last := es[..|es| - 1], es[|es| - 1];
      var log := Accepted(before, cfg);
      IdealWindow(before, cfg, key, from);
      if last.Call? {
        var grown := log + [Entry(last.key, last.at)];
        assert grown[..|log|] == log;
        if last.at <= from + cfg.windowMs {
          CountedAreRecent(log, key, from, from + cfg.windowMs, last.at - cfg.windowMs);
        }
      }
    }
  }

  /**
   Over every run of a monotone clock no window of windowMs holds more than max acceptances
   of a key, and the sweep schedule has no say in which calls are accepted.
   */
  lemma WindowHoldsAtMostMax(es: seq<Event>, cfg: Config, key: Key, from: int)
    requires ClockIsMonotone(es, At)
    ensures CountIn(Log(es, cfg), key, from, from + cfg.windowMs) <= cfg.max
    ensures Log(es, cfg) == Accepted(CallsOnly(es), cfg)
  {
    LimiterRefinesIdeal(es, cfg);
    IdealWindow(es, cfg, key, from);
    IdealIgnoresSweeps(es, cfg);
  }

  /** A sweep keeps exactly the recent entries, and no bucket without any. */
  lemma SweepForgetsExactly(buckets: map<Key, seq<int>>, now: int, cfg: Config, key: Key)
    ensures var swept := Next(buckets, Sweep(now), cfg);
      && TimesOf(swept, key) == Fresh(TimesOf(buckets, key), now - cfg.windowMs)
      && (key in swept ==> swept[key] != [] && forall t | t in swept[key] :: t > now - cfg.windowMs)
  {
    FreshIsRecent(TimesOf(buckets, key), now - cfg.windowMs);
  }

  lemma {:induction false} FreshIsRecent(times: seq<int>, cutoff: int)
    ensures forall t :: t in Fresh(times, cutoff) <==> t in times && t > cutoff
  {
    if times != [] {
      var init, last := times[..|times| - 1], times[|times| - 1];
      assert times == init + [last];
      FreshIsRecent(init, cutoff);
    }
  }
}
