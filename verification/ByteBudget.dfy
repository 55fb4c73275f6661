/**
 The fixed-window byte budget. Each key has one bucket, opened at `start` and good for
 windowMs; a full table is swept, and cleared if sweeping frees nothing.
 */
module ByteBudget {
  import opened Arrivals
  import opened Sets

  type Positive = n: int | n >= 1 witness 1

  datatype Config = Config(windowMs: Positive, maxBytes: nat, maxTracked: Positive)

  datatype Bucket = Bucket(start: int, bytes: nat)

  datatype Request = Request(key: Key, bytes: nat, at: int)

  // ---- one charge -------------------------------------------------------------

  predicate Expired(b: Bucket, now: int, cfg: Config) {
    now - b.start >= cfg.windowMs
  }

  function Live(buckets: map<Key, Bucket>, now: int, cfg: Config): map<Key, Bucket> {
    map k | k in buckets && !Expired(buckets[k], now, cfg) :: buckets[k]
  }

  predicate NeedsBucket(buckets: map<Key, Bucket>, r: Request, cfg: Config) {
    r.key !in buckets || Expired(buckets[r.key], r.at, cfg)
  }

  /** The only way to forget live buckets: a new key, and a table full of them. */
  predicate Clears(buckets: map<Key, Bucket>, r: Request, cfg: Config) {
    && NeedsBucket(buckets, r, cfg)
    && |buckets| >= cfg.maxTracked
    && |Live(buckets, r.at, cfg)| >= cfg.maxTracked
  }

  function Room(buckets: map<Key, Bucket>, r: Request, cfg: Config): map<Key, Bucket> {
    if |buckets| < cfg.maxTracked then buckets
    else if |Live(buckets, r.at, cfg)| < cfg.maxTracked then Live(buckets, r.at, cfg)
    else map[]
  }

  /** The table once the request's bucket is open. */
  function Opened(buckets: map<Key, Bucket>, r: Request, cfg: Config): map<Key, Bucket> {
    if NeedsBucket(buckets, r, cfg) then Room(buckets, r, cfg)[r.key := Bucket(r.at, 0)] else buckets
  }

  predicate Fits(buckets: map<Key, Bucket>, r: Request, cfg: Config) {
    Opened(buckets, r, cfg)[r.key].bytes + r.bytes <= cfg.maxBytes
  }

  function Charged(buckets: map<Key, Bucket>, r: Request, cfg: Config): map<Key, Bucket> {
    var open := Opened(buckets, r, cfg);
    if Fits(buckets, r, cfg)
    then open[r.key := Bucket(open[r.key].start, open[r.key].bytes + r.bytes)]
    else open
  }

  class Budget {
    const cfg: Config
    var buckets: map<Key, Bucket>

    constructor (cfg: Config)
      ensures this.cfg == cfg && buckets == map[]
    {
      this.cfg := cfg;
      buckets := map[];
    }

    method Charge(key: Key, bytes: nat, now: int) returns (ok: bool)
      modifies this
      ensures ok == Fits(old(buckets), Request(key, bytes, now), cfg)
      ensures buckets == Charged(old(buckets), Request(key, bytes, now), cfg)
    {
      if key !in buckets || now - buckets[key].start >= cfg.windowMs {
        if |buckets| >= cfg.maxTracked {
          DropExpired(now);
          if |buckets| >= cfg.maxTracked { buckets := map[]; }
        }
        buckets := buckets[key := Bucket(now, 0)];
      }
      var b := buckets[key];
      if b.bytes + bytes > cfg.maxBytes { return false; }
      buckets := buckets[key := Bucket(b.start, b.bytes + bytes)];
      return true;
    }

    method DropExpired(now: int)
      modifies this
      ensures buckets == Live(old(buckets), now, cfg)
    {
      var todo := buckets.Keys;
      ghost var was := buckets;
      while todo != {}
        invariant todo <= was.Keys && buckets.Keys <= was.Keys
        invariant forall k | k in buckets :: buckets[k] == was[k]
        invariant forall k | k in was :: k in buckets <==> k in todo || !Expired(was[k], now, cfg)
        decreases |todo|
      {
        var k :| k in todo;
        todo := todo - {k};
        if now - buckets[k].start >= cfg.windowMs {
          buckets := map j | j in buckets && j != k :: buckets[j];
        }
      }
    }
  }

  // ---- what a run accepts -----------------------------------------------------

  /** An accepted charge, with the bucket that took it: its opening and how often the table was cleared before. */
  datatype Charge = Charge(key: Key, bytes: nat, at: int, start: int, epoch: nat)

  datatype Trace = Trace(buckets: map<Key, Bucket>, log: seq<Charge>, clears: nat)

  function Extend(t: Trace, r: Request, cfg: Config): Trace {
    var clears := t.clears + (if Clears(t.buckets, r, cfg) then 1 else 0);
    var next := Charged(t.buckets, r, cfg);
    Trace(next,
          if Fits(t.buckets, r, cfg) then t.log + [Charge(r.key, r.bytes, r.at, next[r.key].start, clears)] else t.log,
          clears)
  }

  function Run(rs: seq<Request>, cfg: Config): Trace {
    if rs == [] then Trace(map[], [], 0) else Extend(Run(rs[..|rs| - 1], cfg), rs[|rs| - 1], cfg)
  }

  function At(arrival: Request): int {
    arrival.at
  }

  function Total(log: seq<Charge>, p: Charge -> bool): nat {
    if log == [] then 0
    else Total(log[..|log| - 1], p) + (if p(log[|log| - 1]) then log[|log| - 1].bytes else 0)
  }

  function InBucket(key: Key, start: int, epoch: nat): Charge -> bool {
    (c: Charge) => c.key == key && c.start == start && c.epoch == epoch
  }

  // ---- what every run keeps ---------------------------------------------------

  /** One charge lies in its bucket's window, and the bucket is of some epoch so far. */
  predicate ChargeOk(c: Charge, now: int, clears: nat, cfg: Config) {
    c.start <= c.at <= now && (c.at == c.start || c.at < c.start + cfg.windowMs) && c.epoch <= clears
  }

  /** Two charges of one key, `c` before `d`: the same bucket, a window apart, or parted by a clear. */
  predicate PairOk(c: Charge, d: Charge, cfg: Config) {
    && c.at <= d.at && c.epoch <= d.epoch
    && (c.key == d.key && c.epoch == d.epoch ==> c.start == d.start || c.start + cfg.windowMs <= d.start)
    && (c.key == d.key && c.epoch < d.epoch ==> c.at <= d.start)
  }

  /** What the log says of a bucket that is still in the table. */
  ghost predicate BucketOk(t: Trace, k: Key, now: int, cfg: Config)
    requires k in t.buckets
  {
    var b := t.buckets[k];
    && b.start <= now && b.bytes <= cfg.maxBytes
    && Total(t.log, InBucket(k, b.start, t.clears)) == b.bytes
    && (forall c | c in t.log && c.key == k ::
          if c.epoch == t.clears then c.start == b.start || c.start + cfg.windowMs <= b.start else c.at <= b.start)
  }

  /** A key without a bucket was dropped when its window had ended. */
  ghost predicate GoneOk(t: Trace, k: Key, now: int, cfg: Config) {
    forall c | c in t.log && c.key == k && c.epoch == t.clears :: c.start + cfg.windowMs <= now
  }

  ghost predicate Inv(t: Trace, now: int, cfg: Config) {
    && |t.buckets| <= cfg.maxTracked
    && (forall c | c in t.log :: ChargeOk(c, now, t.clears, cfg))
    && (forall i, j | 0 <= i < j < |t.log| :: PairOk(t.log[i], t.log[j], cfg))
    && (forall k | k in t.buckets :: BucketOk(t, k, now, cfg))
    && (forall k | k !in t.buckets :: GoneOk(t, k, now, cfg))
    && (forall key, start, epoch :: Total(t.log, InBucket(key, start, epoch)) <= cfg.maxBytes)
  }

  // ---- sums over the log ------------------------------------------------------

  lemma TotalSnoc(log: seq<Charge>, c: Charge, p: Charge -> bool)
    ensures Total(log + [c], p) == Total(log, p) + (if p(c) then c.bytes else 0)
  {
    assert (log + [c])[..|log|] == log;
  }

  lemma {:induction false} TotalNone(log: seq<Charge>, p: Charge -> bool)
    requires forall c | c in log :: !p(c)
    ensures Total(log, p) == 0
  {
    if log != [] { TotalNone(log[..|log| - 1], p); }
  }

  lemma {:induction false} TotalMono(log: seq<Charge>, p: Charge -> bool, q: Charge -> bool)
    requires forall c | c in log && p(c) :: q(c)
    ensures Total(log, p) <= Total(log, q)
  {
    if log != [] { TotalMono(log[..|log| - 1], p, q); }
  }

  lemma {:induction false} TotalSplit(log: seq<Charge>, p: Charge -> bool, q: Charge -> bool, r: Charge -> bool)
    requires forall c | c in log && p(c) :: q(c) || r(c)
    ensures Total(log, p) <= Total(log, q) + Total(log, r)
  {
    if log != [] { TotalSplit(log[..|log| - 1], p, q, r); }
  }

  // ---- one request keeps the invariant ----------------------------------------

  lemma TimePasses(t: Trace, now: int, later: int, cfg: Config)
    requires Inv(t, now, cfg) && now <= later
    ensures Inv(t, later, cfg)
  {
    forall k | k in t.buckets ensures BucketOk(t, k, later, cfg) {
      assert BucketOk(t, k, now, cfg);
    }
    forall k | k !in t.buckets ensures GoneOk(t, k, later, cfg) {
      assert GoneOk(t, k, now, cfg);
    }
  }

  lemma SweepKeeps(t: Trace, now: int, cfg: Config)
    requires Inv(t, now, cfg)
    ensures Inv(t.(buckets := Live(t.buckets, now, cfg)), now, cfg)
  {
    var t' := t.(buckets := Live(t.buckets, now, cfg));
    LiveIsSmaller(t.buckets, now, cfg);
    forall k | k in t'.buckets ensures BucketOk(t', k, now, cfg) {
      assert BucketOk(t, k, now, cfg);
    }
    forall k | k !in t'.buckets ensures GoneOk(t', k, now, cfg) {
      if k in t.buckets { assert BucketOk(t, k, now, cfg); } else { assert GoneOk(t, k, now, cfg); }
    }
  }

  lemma LiveIsSmaller(buckets: map<Key, Bucket>, now: int, cfg: Config)
    ensures |Live(buckets, now, cfg)| <= |buckets|
  {
    SubsetSize(Live(buckets, now, cfg).Keys, buckets.Keys);
  }

  lemma ClearKeeps(t: Trace, now: int, cfg: Config)
    requires Inv(t, now, cfg)
    ensures Inv(t.(buckets := map[], clears := t.clears + 1), now, cfg)
  {
  }

  lemma RoomKeeps(t: Trace, r: Request, cfg: Config)
    requires Inv(t, r.at, cfg) && NeedsBucket(t.buckets, r, cfg)
    ensures var clears := t.clears + (if Clears(t.buckets, r, cfg) then 1 else 0);
      && Inv(t.(buckets := Room(t.buckets, r, cfg), clears := clears), r.at, cfg)
      && NeedsBucket(Room(t.buckets, r, cfg), r, cfg)
      && (r.key !in Room(t.buckets, r, cfg) ==> |Room(t.buckets, r, cfg)| < cfg.maxTracked)
  {
    if |t.buckets| >= cfg.maxTracked {
      SweepKeeps(t, r.at, cfg);
      if |Live(t.buckets, r.at, cfg)| >= cfg.maxTracked { ClearKeeps(t, r.at, cfg); }
    }
  }

  lemma InsertKeeps(t: Trace, r: Request, cfg: Config)
    requires Inv(t, r.at, cfg) && NeedsBucket(t.buckets, r, cfg)
    requires r.key !in t.buckets ==> |t.buckets| < cfg.maxTracked
    ensures Inv(t.(buckets := t.buckets[r.key := Bucket(r.at, 0)]), r.at, cfg)
  {
    var t' := t.(buckets := t.buckets[r.key := Bucket(r.at, 0)]);
    if r.key in t.buckets { assert BucketOk(t, r.key, r.at, cfg); } else { assert GoneOk(t, r.key, r.at, cfg); }
    forall k | k in t'.buckets ensures BucketOk(t', k, r.at, cfg) {
      if k != r.key {
        assert BucketOk(t, k, r.at, cfg);
      } else {
        TotalNone(t.log, InBucket(k, r.at, t.clears));
      }
    }
    forall k | k !in t'.buckets ensures GoneOk(t', k, r.at, cfg) {
      assert GoneOk(t, k, r.at, cfg);
    }
    if r.key in t.buckets { assert t'.buckets.Keys == t.buckets.Keys; }
  }

  function Appended(t: Trace, r: Request): Trace
    requires r.key in t.buckets
  {
    var b := t.buckets[r.key];
    Trace(t.buckets[r.key := Bucket(b.start, b.bytes + r.bytes)],
          t.log + [Charge(r.key, r.bytes, r.at, b.start, t.clears)], t.clears)
  }

  lemma AppendBucketOk(t: Trace, r: Request, k: Key, cfg: Config)
    requires r.key in t.buckets && k in t.buckets && BucketOk(t, k, r.at, cfg)
    requires t.buckets[r.key].bytes + r.bytes <= cfg.maxBytes
    ensures BucketOk(Appended(t, r), k, r.at, cfg)
  {
    hide Total;
    var c := Charge(r.key, r.bytes, r.at, t.buckets[r.key].start, t.clears);
    TotalSnoc(t.log, c, InBucket(k, t.buckets[k].start, t.clears));
    assert Appended(t, r).log == t.log + [c];
    assert InBucket(k, t.buckets[k].start, t.clears)(c) <==> k == r.key;
  }

  lemma AppendLogOk(t: Trace, r: Request, cfg: Config)
    requires r.key in t.buckets && !Expired(t.buckets[r.key], r.at, cfg) && BucketOk(t, r.key, r.at, cfg)
    requires forall c | c in t.log :: ChargeOk(c, r.at, t.clears, cfg)
    requires forall i, j | 0 <= i < j < |t.log| :: PairOk(t.log[i], t.log[j], cfg)
    ensures forall c | c in Appended(t, r).log :: ChargeOk(c, r.at, t.clears, cfg)
    ensures forall i, j | 0 <= i < j < |t.log| + 1 :: PairOk(Appended(t, r).log[i], Appended(t, r).log[j], cfg)
  {
    hide Total, InBucket;
    var c := Charge(r.key, r.bytes, r.at, t.buckets[r.key].start, t.clears);
    forall i | 0 <= i < |t.log| ensures PairOk(t.log[i], c, cfg) {
      assert t.log[i] in t.log;
    }
  }

  lemma AppendKeeps(t: Trace, r: Request, cfg: Config)
    requires Inv(t, r.at, cfg) && r.key in t.buckets && !Expired(t.buckets[r.key], r.at, cfg)
    requires t.buckets[r.key].bytes + r.bytes <= cfg.maxBytes
    ensures Inv(Appended(t, r), r.at, cfg)
  {
    hide Total, ChargeOk, PairOk, BucketOk, Expired;
    var c := Charge(r.key, r.bytes, r.at, t.buckets[r.key].start, t.clears);
    var t' := Appended(t, r);
    AppendLogOk(t, r, cfg);
    forall k | k in t'.buckets ensures BucketOk(t', k, r.at, cfg) {
      AppendBucketOk(t, r, k, cfg);
    }
    forall k | k !in t'.buckets ensures GoneOk(t', k, r.at, cfg) {
      assert GoneOk(t, k, r.at, cfg);
    }
    forall key, start, epoch ensures Total(t'.log, InBucket(key, start, epoch)) <= cfg.maxBytes {
      TotalSnoc(t.log, c, InBucket(key, start, epoch));
      if InBucket(key, start, epoch)(c) { BucketTotal(t', r.key, r.at, cfg); }
    }
    assert t'.buckets.Keys == t.buckets.Keys;
  }

  lemma BucketTotal(t: Trace, k: Key, now: int, cfg: Config)
    requires k in t.buckets && BucketOk(t, k, now, cfg)
    ensures Total(t.log, InBucket(k, t.buckets[k].start, t.clears)) <= cfg.maxBytes
  {
  }

  lemma ExtendKeeps(t: Trace, now: int, r: Request, cfg: Config)
    requires Inv(t, now, cfg) && now <= r.at
    ensures Inv(Extend(t, r, cfg), r.at, cfg)
  {
    hide Inv, Live, Room;
    TimePasses(t, now, r.at, cfg);
    var clears := t.clears + (if Clears(t.buckets, r, cfg) then 1 else 0);
    var open := t.(buckets := Opened(t.buckets, r, cfg), clears := clears);
    if NeedsBucket(t.buckets, r, cfg) {
      RoomKeeps(t, r, cfg);
      InsertKeeps(t.(buckets := Room(t.buckets, r, cfg), clears := clears), r, cfg);
    } else {
      assert open == t;
    }
    assert Inv(open, r.at, cfg);
    if Fits(t.buckets, r, cfg) { AppendKeeps(open, r, cfg); }
  }

  lemma {:induction false} RunKeeps(rs: seq<Request>, cfg: Config, now: int)
    requires ClockIsMonotone(rs, At) && (rs != [] ==> rs[|rs| - 1].at <= now)
    ensures Inv(Run(rs, cfg), now, cfg)
  {
    if rs != [] {
      var last := rs[|rs| - 1];
      RunKeeps(rs[..|rs| - 1], cfg, last.at);
      ExtendKeeps(Run(rs[..|rs| - 1], cfg), last.at, last, cfg);
      TimePasses(Run(rs, cfg), last.at, now, cfg);
    } else {
      forall key, start, epoch ensures Total([], InBucket(key, start, epoch)) == 0 {
      }
    }
  }

  // ---- the cap ----------------------------------------------------------------

  /** A charge of `key` at a time in [from, to). */
  predicate Spans(c: Charge, key: Key, from: int, to: int) {
    c.key == key && from <= c.at < to
  }

  function InSpan(key: Key, from: int, to: int): Charge -> bool {
    (c: Charge) => Spans(c, key, from, to)
  }

  function Straddles(key: Key, from: int, to: int): Charge -> bool {
    (c: Charge) => Spans(c, key, from, to) && c.start < from
  }

  /** Charges whose bucket was opened inside the span, in one of the epochs low .. high - 1. */
  function OpenedIn(key: Key, from: int, to: int, low: int, high: int): Charge -> bool {
    (c: Charge) => Spans(c, key, from, to) && from <= c.start && low <= c.epoch < high
  }

  lemma SameBucketTotal(t: Trace, now: int, cfg: Config, p: Charge -> bool)
    requires Inv(t, now, cfg)
    requires forall c, d | c in t.log && d in t.log && p(c) && p(d) ::
      c.key == d.key && c.start == d.start && c.epoch == d.epoch
    ensures Total(t.log, p) <= cfg.maxBytes
  {
    if c :| c in t.log && p(c) {
      TotalMono(t.log, p, InBucket(c.key, c.start, c.epoch));
    } else {
      TotalNone(t.log, p);
    }
  }

  lemma StraddlersShareOne(t: Trace, now: int, cfg: Config, key: Key, from: int)
    requires Inv(t, now, cfg)
    ensures Total(t.log, Straddles(key, from, from + cfg.windowMs)) <= cfg.maxBytes
  {
    var to := from + cfg.windowMs;
    var p := Straddles(key, from, to);
    forall c, d | c in t.log && d in t.log && p(c) && p(d)
      ensures c.key == d.key && c.start == d.start && c.epoch == d.epoch
    {
      assert Spans(c, key, from, to) && c.start < from && Spans(d, key, from, to) && d.start < from;
      assert ChargeOk(c, now, t.clears, cfg) && ChargeOk(d, now, t.clears, cfg);
      OneOrder(t, now, cfg, c, d);
    }
    SameBucketTotal(t, now, cfg, p);
  }

  lemma OneOrder(t: Trace, now: int, cfg: Config, c: Charge, d: Charge)
    requires Inv(t, now, cfg) && c in t.log && d in t.log
    ensures c == d || PairOk(c, d, cfg) || PairOk(d, c, cfg)
  {
    var i :| 0 <= i < |t.log| && t.log[i] == c;
    var j :| 0 <= j < |t.log| && t.log[j] == d;
    if i < j {
      assert PairOk(t.log[i], t.log[j], cfg);
    } else if j < i {
      assert PairOk(t.log[j], t.log[i], cfg);
    }
  }

  lemma {:induction false} OneBucketAnEpoch(t: Trace, now: int, cfg: Config, key: Key, from: int, low: int, n: nat)
    requires Inv(t, now, cfg)
    ensures Total(t.log, OpenedIn(key, from, from + cfg.windowMs, low, low + n)) <= n * cfg.maxBytes
  {
    var to := from + cfg.windowMs;
    if n == 0 {
      TotalNone(t.log, OpenedIn(key, from, to, low, low));
    } else {
      OneBucketAnEpoch(t, now, cfg, key, from, low, n - 1);
      var p := OpenedIn(key, from, to, low + n - 1, low + n);
      forall c, d | c in t.log && d in t.log && p(c) && p(d)
        ensures c.key == d.key && c.start == d.start && c.epoch == d.epoch
      {
        assert Spans(c, key, from, to) && c.epoch == low + n - 1 && Spans(d, key, from, to) && d.epoch == low + n - 1;
        assert ChargeOk(c, now, t.clears, cfg) && ChargeOk(d, now, t.clears, cfg);
        OneOrder(t, now, cfg, c, d);
      }
      SameBucketTotal(t, now, cfg, p);
      TotalSplit(t.log, OpenedIn(key, from, to, low, low + n), OpenedIn(key, from, to, low, low + n - 1), p);
      assert n * cfg.maxBytes == (n - 1) * cfg.maxBytes + cfg.maxBytes;
    }
  }

  /** How often requests earlier than `x` cleared the table. */
  function ClearsBefore(rs: seq<Request>, cfg: Config, x: int): nat {
    if rs == [] then 0
    else
      var before, last := rs[..|rs| - 1], rs[|rs| - 1];
      ClearsBefore(before, cfg, x) + (if last.at < x && Clears(Run(before, cfg).buckets, last, cfg) then 1 else 0)
  }

  lemma {:induction false} ClearsBeforeBounds(rs: seq<Request>, cfg: Config, x: int)
    requires ClockIsMonotone(rs, At)
    ensures ClearsBefore(rs, cfg, x) <= Run(rs, cfg).clears
    ensures rs != [] && rs[|rs| - 1].at < x ==> ClearsBefore(rs, cfg, x) == Run(rs, cfg).clears
  {
    if rs != [] { ClearsBeforeBounds(rs[..|rs| - 1], cfg, x); }
  }

  lemma {:induction false} EpochsByTime(rs: seq<Request>, cfg: Config, x: int, c: Charge)
    requires ClockIsMonotone(rs, At) && c in Run(rs, cfg).log
    ensures rs != [] && c.at <= rs[|rs| - 1].at
    ensures c.at < x ==> c.epoch <= ClearsBefore(rs, cfg, x)
    ensures x <= c.at ==> ClearsBefore(rs, cfg, x) <= c.epoch
  {
    var before := rs[..|rs| - 1];
    ClearsBeforeBounds(rs, cfg, x);
    ClearsBeforeBounds(before, cfg, x);
    if c in Run(before, cfg).log { EpochsByTime(before, cfg, x, c); }
  }

  /**
   Over every run of a monotone clock, a span of one window length accepts at most twice the
   cap for a key, and once more for every time the full table was cleared within the span.
   */
  lemma SpanIsCapped(rs: seq<Request>, cfg: Config, key: Key, from: int)
    requires ClockIsMonotone(rs, At)
    ensures var to := from + cfg.windowMs;
      && ClearsBefore(rs, cfg, from) <= ClearsBefore(rs, cfg, to)
      && Total(Run(rs, cfg).log, InSpan(key, from, to))
         <= (2 + ClearsBefore(rs, cfg, to) - ClearsBefore(rs, cfg, from)) * cfg.maxBytes
  {
    hide Inv, Run, Total, ClockIsMonotone;
    var to := from + cfg.windowMs;
    var low, high := ClearsBefore(rs, cfg, from), ClearsBefore(rs, cfg, to);
    ClearsBeforeGrows(rs, cfg, from, to);
    var now := if rs == [] then 0 else rs[|rs| - 1].at;
    var t := Run(rs, cfg);
    RunKeeps(rs, cfg, now);
    forall c | c in t.log && InSpan(key, from, to)(c)
      ensures Straddles(key, from, to)(c) || OpenedIn(key, from, to, low, high + 1)(c)
    {
      EpochsByTime(rs, cfg, from, c);
      EpochsByTime(rs, cfg, to, c);
    }
    TotalSplit(t.log, InSpan(key, from, to), Straddles(key, from, to), OpenedIn(key, from, to, low, high + 1));
    StraddlersShareOne(t, now, cfg, key, from);
    OneBucketAnEpoch(t, now, cfg, key, from, low, high + 1 - low);
    assert (2 + high - low) * cfg.maxBytes == cfg.maxBytes + (high + 1 - low) * cfg.maxBytes;
  }

  lemma {:induction false} ClearsBeforeGrows(rs: seq<Request>, cfg: Config, x: int, y: int)
    requires x <= y
    ensures ClearsBefore(rs, cfg, x) <= ClearsBefore(rs, cfg, y)
  {
    if rs != [] { ClearsBeforeGrows(rs[..|rs| - 1], cfg, x, y); }
  }

  /** While the table is never cleared, twice the cap is the bound, one bucket never passes the cap, and the table stays small. */
  lemma TwiceTheCap(rs: seq<Request>, cfg: Config, key: Key, from: int, start: int)
    requires ClockIsMonotone(rs, At)
    ensures |Run(rs, cfg).buckets| <= cfg.maxTracked
    ensures Run(rs, cfg).clears == 0 ==>
      && Total(Run(rs, cfg).log, InSpan(key, from, from + cfg.windowMs)) <= 2 * cfg.maxBytes
      && Total(Run(rs, cfg).log, InBucket(key, start, 0)) <= cfg.maxBytes
  {
    hide Run, Total, ClockIsMonotone, ClearsBefore, ChargeOk, PairOk, BucketOk, GoneOk;
    SpanIsCapped(rs, cfg, key, from);
    ClearsBeforeBounds(rs, cfg, from + cfg.windowMs);
    RunKeeps(rs, cfg, if rs == [] then 0 else rs[|rs| - 1].at);
  }

  /**
   And nothing is refused without cause: a charge is accepted exactly if it fits beside what
   its key's current bucket has accepted, or by itself when the key needs a new one.
   */
  lemma AcceptsExactly(rs: seq<Request>, cfg: Config, r: Request)
    requires ClockIsMonotone(rs, At) && (rs != [] ==> rs[|rs| - 1].at <= r.at)
    ensures var t := Run(rs, cfg);
      Fits(t.buckets, r, cfg) <==>
      r.bytes + (if NeedsBucket(t.buckets, r, cfg) then 0
                 else Total(t.log, InBucket(r.key, t.buckets[r.key].start, t.clears))) <= cfg.maxBytes
  {
    hide Run, Total, ClockIsMonotone;
    RunKeeps(rs, cfg, r.at);
    var t := Run(rs, cfg);
    if r.key in t.buckets { assert BucketOk(t, r.key, r.at, cfg); }
  }

  // ---- exactly when twice the cap holds ---------------------------------------

  lemma RunSnoc(rs: seq<Request>, r: Request, cfg: Config)
    ensures Run(rs + [r], cfg) == Extend(Run(rs, cfg), r, cfg)
    ensures ClockIsMonotone(rs, At) && (rs != [] ==> rs[|rs| - 1].at <= r.at) ==> ClockIsMonotone(rs + [r], At)
  {
    assert (rs + [r])[..|rs|] == rs;
  }

  lemma EmptyRun(cfg: Config, p: Charge -> bool)
    ensures Run([], cfg) == Trace(map[], [], 0) && ClockIsMonotone([], At) && Total([], p) == 0
  {
  }

  /** All requests come from these addresses. */
  ghost predicate From(rs: seq<Request>, addresses: set<Key>) {
    forall i | 0 <= i < |rs| :: rs[i].key in addresses
  }

  /** What a run accepts for a key in the window length from `from` on. */
  function SpanTotal(rs: seq<Request>, cfg: Config, key: Key, from: int): nat {
    Total(Run(rs, cfg).log, InSpan(key, from, from + cfg.windowMs))
  }

  ghost predicate AlwaysWithinTwice(addresses: set<Key>, cfg: Config) {
    forall rs, key, from | ClockIsMonotone(rs, At) && From(rs, addresses) :: SpanTotal(rs, cfg, key, from) <= 2 * cfg.maxBytes
  }

  /** As many addresses as the table holds can never fill it against a newcomer. */
  lemma {:induction false} FewNeverClear(rs: seq<Request>, cfg: Config, addresses: set<Key>)
    requires From(rs, addresses) && |addresses| <= cfg.maxTracked
    ensures Run(rs, cfg).clears == 0 && Run(rs, cfg).buckets.Keys <= addresses
  {
    if rs != [] {
      var before, r := rs[..|rs| - 1], rs[|rs| - 1];
      FewNeverClear(before, cfg, addresses);
      FewMakeRoom(Run(before, cfg).buckets, r, cfg, addresses);
    }
  }

  lemma FewMakeRoom(buckets: map<Key, Bucket>, r: Request, cfg: Config, addresses: set<Key>)
    requires buckets.Keys <= addresses && r.key in addresses && |addresses| <= cfg.maxTracked
    ensures !Clears(buckets, r, cfg) && Charged(buckets, r, cfg).Keys <= addresses
  {
    var live := Live(buckets, r.at, cfg);
    if NeedsBucket(buckets, r, cfg) {
      assert live.Keys <= addresses - {r.key};
      SubsetSize(live.Keys, addresses - {r.key});
    }
  }

  function Members(list: seq<Key>): set<Key> {
    set k | k in list
  }

  /** One address asks for a full cap, then the others ask for nothing, each in turn. */
  function Knocks(others: seq<Key>): seq<Request> {
    if others == [] then [] else Knocks(others[..|others| - 1]) + [Request(others[|others| - 1], 0, 0)]
  }

  function Rounds(n: nat, first: Key, others: seq<Key>, cfg: Config): seq<Request> {
    if n == 0 then [] else Rounds(n - 1, first, others, cfg) + [Request(first, cfg.maxBytes, 0)] + Knocks(others)
  }

  /** Everything so far happened at time 0. */
  ghost predicate AtZero(rs: seq<Request>, cfg: Config) {
    && ClockIsMonotone(rs, At) && (rs != [] ==> rs[|rs| - 1].at == 0)
    && forall k | k in Run(rs, cfg).buckets :: Run(rs, cfg).buckets[k].start == 0
  }

  /** A request at time 0 keeps the whole table, or starts it anew. */
  lemma ChargeAtZero(buckets: map<Key, Bucket>, r: Request, cfg: Config)
    requires r.at == 0 && forall k | k in buckets :: buckets[k].start == 0
    ensures var after := Charged(buckets, r, cfg);
      && (forall k | k in after :: after[k].start == 0)
      && (after.Keys == buckets.Keys + {r.key} || after.Keys == {r.key})
  {
    assert Live(buckets, 0, cfg) == buckets;
  }

  lemma OneMoreAtZero(rs: seq<Request>, r: Request, cfg: Config)
    requires AtZero(rs, cfg) && r.at == 0
    ensures AtZero(rs + [r], cfg)
    ensures var before, after := Run(rs, cfg).buckets.Keys, Run(rs + [r], cfg).buckets.Keys;
      after == before + {r.key} || after == {r.key}
  {
    hide Run, ClockIsMonotone, Charged, Fits, Clears;
    RunSnoc(rs, r, cfg);
    ChargeAtZero(Run(rs, cfg).buckets, r, cfg);
  }

  lemma OtherKeyAddsNothing(rs: seq<Request>, r: Request, cfg: Config, key: Key, from: int)
    requires r.key != key
    ensures SpanTotal(rs + [r], cfg, key, from) == SpanTotal(rs, cfg, key, from)
  {
    hide Run, Charged, Clears;
    RunSnoc(rs, r, cfg);
    var t, t' := Run(rs, cfg), Run(rs + [r], cfg);
    if Fits(t.buckets, r, cfg) {
      TotalSnoc(t.log, t'.log[|t.log|], InSpan(key, from, from + cfg.windowMs));
    }
  }

  /** Whoever still has a bucket after others knocked shares the table with all of them. */
  lemma {:induction false} KnocksPushOut(rs: seq<Request>, first: Key, others: seq<Key>, cfg: Config)
    requires AtZero(rs, cfg) && first !in others
    ensures AtZero(rs + Knocks(others), cfg)
    ensures first in Run(rs + Knocks(others), cfg).buckets ==> Members(others) <= Run(rs + Knocks(others), cfg).buckets.Keys
    ensures SpanTotal(rs + Knocks(others), cfg, first, 0) == SpanTotal(rs, cfg, first, 0)
    ensures forall x | x in Knocks(others) :: x.key in others
  {
    hide AtZero, Run, SpanTotal;
    if others == [] {
      assert rs + [] == rs;
    } else {
      var init, last := others[..|others| - 1], others[|others| - 1];
      assert others == init + [last];
      KnocksPushOut(rs, first, init, cfg);
      var r := Request(last, 0, 0);
      assert rs + Knocks(others) == rs + Knocks(init) + [r];
      OneMoreAtZero(rs + Knocks(init), r, cfg);
      OtherKeyAddsNothing(rs + Knocks(init), r, cfg, first, 0);
    }
  }

  /** An address that is not in the table gets a full cap. */
  lemma NewcomerIsServed(rs: seq<Request>, first: Key, cfg: Config)
    requires AtZero(rs, cfg) && first !in Run(rs, cfg).buckets
    ensures SpanTotal(rs + [Request(first, cfg.maxBytes, 0)], cfg, first, 0) == SpanTotal(rs, cfg, first, 0) + cfg.maxBytes
  {
    hide Run, Clears;
    var r := Request(first, cfg.maxBytes, 0);
    RunSnoc(rs, r, cfg);
    var t, t' := Run(rs, cfg), Run(rs + [r], cfg);
    assert Fits(t.buckets, r, cfg);
    TotalSnoc(t.log, t'.log[|t.log|], InSpan(first, 0, 0 + cfg.windowMs));
  }

  /** More distinct others than the table has places leave no room for the first. */
  lemma TableIsTooSmall(rs: seq<Request>, first: Key, others: seq<Key>, cfg: Config)
    requires AtZero(rs, cfg) && first !in others && |Members(others)| >= cfg.maxTracked
    requires first in Run(rs, cfg).buckets ==> Members(others) <= Run(rs, cfg).buckets.Keys
    ensures first !in Run(rs, cfg).buckets
  {
    hide Run;
    RunKeeps(rs, cfg, 0);
    var held, listed := Run(rs, cfg).buckets, Members(others);
    assert |listed + {first}| == |listed| + 1 && |held.Keys| == |held|;
    if first in held {
      SubsetSize(listed + {first}, held.Keys);
    }
  }

  /**
   With one address more than the table holds, no multiple of the cap bounds a span: n
   rounds win n caps, all in one instant.
   */
  lemma {:induction false} ClearingLiftsEveryBound(n: nat, first: Key, others: seq<Key>, cfg: Config)
    requires first !in others && |Members(others)| >= cfg.maxTracked
    ensures var rs := Rounds(n, first, others, cfg);
      && AtZero(rs, cfg) && first !in Run(rs, cfg).buckets
      && (forall x | x in rs :: x.key == first || x.key in others)
      && SpanTotal(rs, cfg, first, 0) == n * cfg.maxBytes
  {
    hide AtZero, Run, SpanTotal;
    if n == 0 {
      NothingAtZero(cfg, first);
    } else {
      var before := Rounds(n - 1, first, others, cfg);
      ClearingLiftsEveryBound(n - 1, first, others, cfg);
      var asked := before + [Request(first, cfg.maxBytes, 0)];
      OneMoreAtZero(before, Request(first, cfg.maxBytes, 0), cfg);
      NewcomerIsServed(before, first, cfg);
      KnocksPushOut(asked, first, others, cfg);
      TableIsTooSmall(asked + Knocks(others), first, others, cfg);
      assert n * cfg.maxBytes == (n - 1) * cfg.maxBytes + cfg.maxBytes;
    }
  }

  lemma NothingAtZero(cfg: Config, key: Key)
    ensures AtZero([], cfg) && Run([], cfg).buckets == map[] && SpanTotal([], cfg, key, 0) == 0
  {
    EmptyRun(cfg, InSpan(key, 0, 0 + cfg.windowMs));
  }

  lemma {:induction false} Listed(keys: set<Key>) returns (list: seq<Key>)
    ensures Members(list) == keys
  {
    if keys == {} {
      list := [];
    } else {
      var k :| k in keys;
      var rest := Listed(keys - {k});
      list := [k] + rest;
      forall x ensures x in list <==> x in keys {
        assert x in rest <==> x in Members(rest);
      }
    }
  }

  /**
   The exact condition: over every run of a set of addresses each key stays within twice the
   cap in every window length, if and only if the table has a place for all of them (or the cap is nothing).
   */
  lemma TwiceTheCapIff(addresses: set<Key>, cfg: Config)
    ensures AlwaysWithinTwice(addresses, cfg) <==> |addresses| <= cfg.maxTracked || cfg.maxBytes == 0
  {
    hide SpanTotal, ClockIsMonotone;
    if |addresses| <= cfg.maxTracked || cfg.maxBytes == 0 {
      forall rs, key, from | ClockIsMonotone(rs, At) && From(rs, addresses)
        ensures SpanTotal(rs, cfg, key, from) <= 2 * cfg.maxBytes
      {
        FewStayWithinTwice(rs, addresses, cfg, key, from);
      }
    } else {
      var first :| first in addresses;
      var others := Listed(addresses - {first});
      ClearingLiftsEveryBound(3, first, others, cfg);
      var rs := Rounds(3, first, others, cfg);
      forall i | 0 <= i < |rs| ensures rs[i].key in addresses {
        assert rs[i] in rs;
        assert rs[i].key in others ==> rs[i].key in Members(others);
      }
      assert From(rs, addresses) && SpanTotal(rs, cfg, first, 0) == 3 * cfg.maxBytes;
    }
  }

  lemma FewStayWithinTwice(rs: seq<Request>, addresses: set<Key>, cfg: Config, key: Key, from: int)
    requires ClockIsMonotone(rs, At) && From(rs, addresses)
    requires |addresses| <= cfg.maxTracked || cfg.maxBytes == 0
    ensures SpanTotal(rs, cfg, key, from) <= 2 * cfg.maxBytes
  {
    hide Run, ClockIsMonotone, ClearsBefore;
    if |addresses| <= cfg.maxTracked {
      FewNeverClear(rs, cfg, addresses);
      TwiceTheCap(rs, cfg, key, from, 0);
    } else {
      SpanIsCapped(rs, cfg, key, from);
    }
  }
}
