/**
 The confusion matrix over a labelled corpus: per pattern, which fraud and which legitimate
 entries it fired on, the ratios of that, and one order of the patterns.
 */
module CorpusMatrix {
  import opened Wrappers
  import opened Sets

  datatype Label = Fraud | Legitimate | Ambiguous

  /** One listed entry. `findings` is None when its row is gone or its events do not parse; a finding without an id is "". */
  datatype Entry = Entry(id: nat, verdict: Label, findings: Option<seq<string>>)

  datatype Pattern = Pattern(id: string, tp: nat, fp: nat, fn: int, tn: int,
                             precision: Option<real>, recall: Option<real>, f1: Option<real>)

  datatype Totals = Totals(fraud: nat, legitimate: nat, ambiguous: nat, patterns: nat)

  // ---- what is counted --------------------------------------------------------

  predicate Counted(e: Entry) {
    !e.verdict.Ambiguous? && e.findings.Some?
  }

  predicate Fires(e: Entry, pattern: string) {
    Counted(e) && pattern != "" && pattern in e.findings.value
  }

  function WithLabel(es: seq<Entry>, verdict: Label): set<nat> {
    set i | 0 <= i < |es| && Counted(es[i]) && es[i].verdict == verdict :: es[i].id
  }

  function FiredOn(es: seq<Entry>, pattern: string): set<nat> {
    set i | 0 <= i < |es| && Fires(es[i], pattern) :: es[i].id
  }

  function AmbiguousIds(es: seq<Entry>): set<nat> {
    set i | 0 <= i < |es| && es[i].verdict.Ambiguous? :: es[i].id
  }

  /** Ids are primary keys. */
  ghost predicate UniqueIds(es: seq<Entry>) {
    forall i, j | 0 <= i < j < |es| :: es[i].id != es[j].id
  }

  // ---- the ratios -------------------------------------------------------------

  function Ratio(part: nat, whole: nat): Option<real> {
    if whole > 0 then Some(part as real / whole as real) else None
  }

  function Harmonic(p: real, r: real): real
    requires p + r > 0.0
  {
    2.0 * p * r / (p + r)
  }

  function HarmonicMean(p: Option<real>, r: Option<real>): Option<real> {
    if p.Some? && r.Some? && p.value + r.value > 0.0 then Some(Harmonic(p.value, r.value)) else None
  }

  function PatternOf(id: string, tp: nat, fp: nat, fraud: nat, legitimate: nat): Pattern {
    var precision, recall := Ratio(tp, tp + fp), Ratio(tp, fraud);
    Pattern(id, tp, fp, fraud - tp, legitimate - fp, precision, recall, HarmonicMean(precision, recall))
  }

  function PatternFor(es: seq<Entry>, id: string): Pattern {
    var fraud, legitimate := WithLabel(es, Fraud), WithLabel(es, Legitimate);
    PatternOf(id, |FiredOn(es, id) * fraud|, |FiredOn(es, id) * legitimate|, |fraud|, |legitimate|)
  }

  lemma RatioInUnit(part: nat, whole: nat)
    requires part <= whole
    ensures Ratio(part, whole).Some? ==> 0.0 <= Ratio(part, whole).value <= 1.0
  {
    if whole > 0 {
      var a, b := part as real, whole as real;
      assert a / b * b == a;
    }
  }

  /** Each count is a number of entries, and each row adds up; the ratios lie between 0 and 1. */
  lemma MatrixIsConservative(es: seq<Entry>, id: string)
    ensures var p := PatternFor(es, id);
      && p.fn >= 0 && p.tn >= 0
      && p.tp + p.fn == |WithLabel(es, Fraud)| && p.fp + p.tn == |WithLabel(es, Legitimate)|
      && (p.precision.Some? ==> 0.0 <= p.precision.value <= 1.0)
      && (p.recall.Some? ==> 0.0 <= p.recall.value <= 1.0)
      && (p.f1.Some? ==> 0.0 < p.f1.value <= 1.0)
  {
    hide FiredOn, WithLabel, Ratio, HarmonicMean;
    var fired, fraud, legitimate := FiredOn(es, id), WithLabel(es, Fraud), WithLabel(es, Legitimate);
    SubsetSize(fired * fraud, fraud);
    SubsetSize(fired * legitimate, legitimate);
    var tp, fp := |fired * fraud|, |fired * legitimate|;
    RatioInUnit(tp, tp + fp);
    RatioInUnit(tp, |fraud|);
    F1IsCountRatio(id, tp, fp, |fraud|, |legitimate|);
    if tp > 0 { RatioInUnit(2 * tp, 2 * tp + fp + (|fraud| - tp)); }
  }

  /** F1 exists exactly if something true was found, and is 2tp / (2tp + fp + fn). */
  lemma F1IsCountRatio(id: string, tp: nat, fp: nat, fraud: nat, legitimate: nat)
    requires tp <= fraud
    ensures var f1 := PatternOf(id, tp, fp, fraud, legitimate).f1;
      && (f1.Some? <==> tp > 0)
      && (tp > 0 ==> f1 == Ratio(2 * tp, 2 * tp + fp + (fraud - tp)) && f1.value > 0.0)
  {
    if tp > 0 {
      var t, m, n := tp as real, (tp + fp) as real, fraud as real;
      HarmonicOfRatios(t, m, n);
      var pattern := PatternOf(id, tp, fp, fraud, legitimate);
      assert pattern.precision == Some(t / m) && pattern.recall == Some(t / n);
      assert pattern.f1 == Some(Harmonic(t / m, t / n));
      var part, whole := 2 * tp, 2 * tp + fp + (fraud - tp);
      assert part as real == 2.0 * t && whole as real == m + n;
      assert Ratio(part, whole) == Some(part as real / whole as real);
    } else if fraud > 0 && fp > 0 {
      assert 0 as real / (tp + fp) as real == 0.0 && 0 as real / fraud as real == 0.0;
    }
  }

  lemma HarmonicOfRatios(t: real, m: real, n: real)
    requires t > 0.0 && m > 0.0 && n > 0.0
    ensures t / m > 0.0 && t / n > 0.0 && t / m + t / n > 0.0
    ensures Harmonic(t / m, t / n) == 2.0 * t / (m + n) > 0.0
  {
    var p, r, f := t / m, t / n, 2.0 * t / (m + n);
    assert p * m == t && r * n == t && f * (m + n) == 2.0 * t;
    Positive(p, m);
    Positive(r, n);
    Positive(f, m + n);
    calc {
      f * (p + r) * (m * n);
      f * (p * m * n + r * n * m);
      f * (t * n + t * m);
      f * (m + n) * t;
      2.0 * t * t;
      2.0 * (p * m) * (r * n);
      2.0 * p * r * (m * n);
    }
    Cancel(f * (p + r), 2.0 * p * r, m * n);
    Cancel(f, 2.0 * p * r / (p + r), p + r);
  }

  lemma Positive(x: real, y: real)
    requires x * y > 0.0 && y > 0.0
    ensures x > 0.0
  {
  }

  lemma Cancel(x: real, y: real, z: real)
    requires x * z == y * z && z > 0.0
    ensures x == y
  {
    assert (x - y) * z == 0.0;
  }

  // ---- the order --------------------------------------------------------------

  /** `a < b` on strings, by code unit. */
  predicate TextBefore(a: string, b: string) {
    if b == "" then false
    else if a == "" then true
    else a[0] < b[0] || (a[0] == b[0] && TextBefore(a[1..], b[1..]))
  }

  lemma {:induction false} TextOrderTotal(a: string, b: string)
    ensures TextBefore(a, b) || TextBefore(b, a) || a == b
    ensures !(TextBefore(a, b) && TextBefore(b, a))
    ensures a == b ==> !TextBefore(a, b)
  {
    if a != "" && b != "" && a[0] == b[0] {
      TextOrderTotal(a[1..], b[1..]);
      assert a == [a[0]] + a[1..] && b == [b[0]] + b[1..];
    }
  }

  lemma {:induction false} TextOrderTransitive(a: string, b: string, c: string)
    requires TextBefore(a, b) && TextBefore(b, c)
    ensures TextBefore(a, c)
  {
    if a != "" && a[0] == b[0] && b[0] == c[0] { TextOrderTransitive(a[1..], b[1..], c[1..]); }
  }

  /** The comparator is negative: higher F1 first, those without one last, then more true positives, then the id. */
  predicate Before(a: Pattern, b: Pattern) {
    if a.f1.None? && b.f1.None? then a.tp > b.tp || (a.tp == b.tp && TextBefore(a.id, b.id))
    else if a.f1.None? then false
    else if b.f1.None? then true
    else if a.f1.value != b.f1.value then a.f1.value > b.f1.value
    else a.tp > b.tp || (a.tp == b.tp && TextBefore(a.id, b.id))
  }

  lemma OrderIsTotal(a: Pattern, b: Pattern)
    ensures a.id != b.id ==> Before(a, b) || Before(b, a)
    ensures !(Before(a, b) && Before(b, a))
  {
    TextOrderTotal(a.id, b.id);
  }

  lemma OrderIsTransitive(a: Pattern, b: Pattern, c: Pattern)
    requires Before(a, b) && Before(b, c)
    ensures Before(a, c)
  {
    if TextBefore(a.id, b.id) && TextBefore(b.id, c.id) { TextOrderTransitive(a.id, b.id, c.id); }
  }

  ghost predicate Ordered(ps: seq<Pattern>) {
    forall i, j | 0 <= i < j < |ps| :: Before(ps[i], ps[j])
  }

  ghost predicate SameMembers(ps: seq<Pattern>, qs: seq<Pattern>) {
    forall x :: x in ps <==> x in qs
  }

  lemma EmptyTogether(ps: seq<Pattern>, qs: seq<Pattern>)
    requires SameMembers(ps, qs)
    ensures ps == [] <==> qs == []
  {
    if ps != [] { assert ps[0] in ps; }
    if qs != [] { assert qs[0] in qs; }
  }

  /** There is only one order: two ordered lists of the same patterns are equal. */
  lemma {:induction false} OneOrder(ps: seq<Pattern>, qs: seq<Pattern>)
    requires Ordered(ps) && Ordered(qs) && SameMembers(ps, qs)
    ensures ps == qs
    decreases |ps|
  {
    EmptyTogether(ps, qs);
    if ps != [] {
      SameHead(ps, qs);
      assert ps == [ps[0]] + ps[1..] && qs == [qs[0]] + qs[1..];
      NotBehind(ps);
      NotBehind(qs);
      forall x ensures x in ps[1..] <==> x in qs[1..] {
        assert x in ps <==> x in qs;
      }
      OneOrder(ps[1..], qs[1..]);
    }
  }

  lemma NotBehind(ps: seq<Pattern>)
    requires Ordered(ps) && ps != []
    ensures ps[0] !in ps[1..] && Ordered(ps[1..])
  {
    OrderIsTotal(ps[0], ps[0]);
    forall i | 1 <= i < |ps| ensures ps[i] != ps[0] {
      assert Before(ps[0], ps[i]);
    }
  }

  lemma SameHead(ps: seq<Pattern>, qs: seq<Pattern>)
    requires Ordered(ps) && Ordered(qs) && SameMembers(ps, qs) && ps != [] && qs != []
    ensures ps[0] == qs[0]
  {
    assert ps[0] in qs && qs[0] in ps;
    var i :| 0 <= i < |qs| && qs[i] == ps[0];
    var j :| 0 <= j < |ps| && ps[j] == qs[0];
    assert i == 0 || Before(qs[0], qs[i]);
    assert j == 0 || Before(ps[0], ps[j]);
    OrderIsTotal(ps[0], qs[0]);
  }

  // ---- the matrix of a corpus -------------------------------------------------

  /** One row for each pattern that fired anywhere, in order. */
  ghost predicate IsMatrix(es: seq<Entry>, ps: seq<Pattern>) {
    Ordered(ps) && forall p :: p in ps <==> FiredOn(es, p.id) != {} && p == PatternFor(es, p.id)
  }

  /** The matrix depends on which entries there are, not on the order they are listed in. */
  lemma MatrixIgnoresOrder(es: seq<Entry>, es': seq<Entry>, ps: seq<Pattern>, ps': seq<Pattern>)
    requires forall e :: e in es <==> e in es'
    requires IsMatrix(es, ps) && IsMatrix(es', ps')
    ensures ps == ps'
  {
    forall id ensures PatternFor(es, id) == PatternFor(es', id) && FiredOn(es, id) == FiredOn(es', id) {
      SameSets(es, es', id);
    }
    OneOrder(ps, ps');
  }

  lemma SameSets(es: seq<Entry>, es': seq<Entry>, id: string)
    requires forall e :: e in es <==> e in es'
    ensures FiredOn(es, id) == FiredOn(es', id)
    ensures WithLabel(es, Fraud) == WithLabel(es', Fraud) && WithLabel(es, Legitimate) == WithLabel(es', Legitimate)
  {
    SubSets(es, es', id);
    SubSets(es', es, id);
  }

  lemma SubSets(es: seq<Entry>, es': seq<Entry>, id: string)
    requires forall e | e in es :: e in es'
    ensures FiredOn(es, id) <= FiredOn(es', id)
    ensures WithLabel(es, Fraud) <= WithLabel(es', Fraud) && WithLabel(es, Legitimate) <= WithLabel(es', Legitimate)
  {
    forall i | 0 <= i < |es| ensures exists j | 0 <= j < |es'| :: es'[j] == es[i] {
      assert es[i] in es';
    }
  }

  // ---- the built-in sort ------------------------------------------------------

  function Inserted(p: Pattern, ps: seq<Pattern>): seq<Pattern> {
    if ps == [] || Before(p, ps[0]) then [p] + ps else [ps[0]] + Inserted(p, ps[1..])
  }

  function Sorted(ps: seq<Pattern>): seq<Pattern> {
    if ps == [] then [] else Inserted(ps[0], Sorted(ps[1..]))
  }

  lemma {:induction false} InsertedExact(p: Pattern, ps: seq<Pattern>)
    requires Ordered(ps) && forall q | q in ps :: q.id != p.id
    ensures Ordered(Inserted(p, ps)) && forall x :: x in Inserted(p, ps) <==> x == p || x in ps
  {
    if ps == [] {
    } else if Before(p, ps[0]) {
      forall j | 1 <= j < |ps| ensures Before(p, ps[j]) {
        OrderIsTransitive(p, ps[0], ps[j]);
      }
    } else {
      NotBehind(ps);
      assert ps == [ps[0]] + ps[1..];
      InsertedExact(p, ps[1..]);
      assert ps[0] in ps;
      OrderIsTotal(p, ps[0]);
      var rest := Inserted(p, ps[1..]);
      forall j | 0 <= j < |rest| ensures Before(ps[0], rest[j]) {
        assert rest[j] in rest;
        if rest[j] != p {
          var k :| 0 <= k < |ps[1..]| && ps[1..][k] == rest[j];
          assert ps[k + 1] == rest[j];
        }
      }
    }
  }

  lemma {:induction false} SortedExact(ps: seq<Pattern>)
    requires forall i, j | 0 <= i < j < |ps| :: ps[i].id != ps[j].id
    ensures Ordered(Sorted(ps)) && SameMembers(Sorted(ps), ps)
  {
    if ps != [] {
      assert ps == [ps[0]] + ps[1..];
      SortedExact(ps[1..]);
      forall q | q in Sorted(ps[1..]) ensures q.id != ps[0].id {
        assert q in ps[1..];
        var k :| 0 <= k < |ps[1..]| && ps[1..][k] == q;
        assert ps[k + 1] == q;
      }
      InsertedExact(ps[0], Sorted(ps[1..]));
    }
  }

  // ---- computing it -----------------------------------------------------------

  lemma OneMore(es: seq<Entry>, i: nat)
    requires i < |es|
    ensures var before, after, e := es[..i], es[..i + 1], es[i];
      && (forall v :: WithLabel(after, v) == WithLabel(before, v) + (if Counted(e) && e.verdict == v then {e.id} else {}))
      && (forall id :: FiredOn(after, id) == FiredOn(before, id) + (if Fires(e, id) then {e.id} else {}))
      && AmbiguousIds(after) == AmbiguousIds(before) + (if e.verdict.Ambiguous? then {e.id} else {})
  {
    var before, after, e := es[..i], es[..i + 1], es[i];
    assert after[i] == e && forall k | 0 <= k < i :: after[k] == before[k];
  }

  lemma NewId(es: seq<Entry>, i: nat, v: Label)
    requires UniqueIds(es) && i < |es|
    ensures es[i].id !in WithLabel(es[..i], v) && es[i].id !in AmbiguousIds(es[..i])
  {
  }

  /** `fired.get(id)` for every finding of the corpus so far. */
  ghost predicate Tallied(fired: map<string, set<nat>>, es: seq<Entry>) {
    forall id :: (id in fired <==> FiredOn(es, id) != {}) && (id in fired ==> fired[id] == FiredOn(es, id))
  }

  /** `fired` with one entry's findings added. */
  ghost predicate Added(fired: map<string, set<nat>>, fired': map<string, set<nat>>, findings: seq<string>, entry: nat) {
    forall id ::
      && (id in fired' <==> id in fired || (id != "" && id in findings))
      && (id in fired' ==>
            fired'[id] == (if id in fired then fired[id] else {}) + (if id != "" && id in findings then {entry} else {}))
  }

  /** The inner loop: each finding of one entry once, those without an id never. */
  method TallyFindings(fired: map<string, set<nat>>, findings: seq<string>, entry: nat) returns (fired': map<string, set<nat>>)
    ensures Added(fired, fired', findings, entry)
  {
    fired' := fired;
    var seen: set<string> := {};
    for j := 0 to |findings|
      invariant forall id :: id in seen <==> id != "" && id in findings[..j]
      invariant Added(fired, fired', findings[..j], entry)
    {
      var id := findings[j];
      assert findings[..j + 1] == findings[..j] + [id];
      if id != "" && id !in seen {
        seen := seen + {id};
        var s := if id in fired' then fired'[id] else {};
        fired' := fired'[id := s + {entry}];
      }
    }
    assert findings[..|findings|] == findings;
  }

  lemma TalliedNext(fired: map<string, set<nat>>, fired': map<string, set<nat>>, es: seq<Entry>, i: nat)
    requires i < |es| && Tallied(fired, es[..i])
    requires if Counted(es[i]) then Added(fired, fired', es[i].findings.value, es[i].id) else fired' == fired
    ensures Tallied(fired', es[..i + 1])
  {
    hide FiredOn;
    OneMore(es, i);
    forall id ensures id in fired' <==> FiredOn(es[..i + 1], id) != {} {
    }
  }

  lemma OneHit(done: set<nat>, eid: nat, ids: set<nat>)
    requires eid !in done
    ensures |(done + {eid}) * ids| == |done * ids| + (if eid in ids then 1 else 0)
  {
    if eid in ids {
      assert (done + {eid}) * ids == done * ids + {eid};
    } else {
      assert (done + {eid}) * ids == done * ids;
    }
  }

  /** The counting loop over the entries a pattern fired on. */
  method CountHits(firedSet: set<nat>, fraudIds: set<nat>, legitIds: set<nat>) returns (tp: nat, fp: nat)
    requires fraudIds !! legitIds
    ensures tp == |firedSet * fraudIds| && fp == |firedSet * legitIds|
  {
    tp, fp := 0, 0;
    var todo := firedSet;
    ghost var done: set<nat> := {};
    assert done * fraudIds == {} && done * legitIds == {};
    while todo != {}
      invariant done !! todo && done + todo == firedSet
      invariant tp == |done * fraudIds| && fp == |done * legitIds|
      decreases |todo|
    {
      var eid :| eid in todo;
      OneHit(done, eid, fraudIds);
      OneHit(done, eid, legitIds);
      todo, done := todo - {eid}, done + {eid};
      if eid in fraudIds {
        tp := tp + 1;
      } else if eid in legitIds {
        fp := fp + 1;
      }
    }
    assert done == firedSet;
  }

  lemma LabelsApart(es: seq<Entry>)
    requires UniqueIds(es)
    ensures WithLabel(es, Fraud) !! WithLabel(es, Legitimate)
  {
  }

  method ComputeCorpusMatrix(all: seq<Entry>) returns (totals: Totals, patterns: seq<Pattern>)
    requires UniqueIds(all)
    ensures IsMatrix(all, patterns)
    ensures totals == Totals(|WithLabel(all, Fraud)|, |WithLabel(all, Legitimate)|, |AmbiguousIds(all)|, |patterns|)
  {
    hide WithLabel, FiredOn, AmbiguousIds, Tallied, IsMatrix, Sorted, Added, UniqueIds;
    var fraudIds: set<nat>, legitIds: set<nat> := {}, {};
    var fired: map<string, set<nat>> := map[];
    var totalFraud, totalLegit, totalAmbig := 0, 0, 0;
    NothingYet();
    assert all[..0] == [];
    for i := 0 to |all|
      invariant fraudIds == WithLabel(all[..i], Fraud) && legitIds == WithLabel(all[..i], Legitimate)
      invariant totalFraud == |fraudIds| && totalLegit == |legitIds| && totalAmbig == |AmbiguousIds(all[..i])|
      invariant Tallied(fired, all[..i])
    {
      var meta := all[i];
      ghost var before := fired;
      OneMore(all, i);
      NewId(all, i, Fraud);
      NewId(all, i, Legitimate);
      if meta.verdict.Ambiguous? {
        totalAmbig := totalAmbig + 1;
      } else if meta.findings.Some? {
        if meta.verdict.Fraud? {
          fraudIds := fraudIds + {meta.id};
          totalFraud := totalFraud + 1;
        } else {
          legitIds := legitIds + {meta.id};
          totalLegit := totalLegit + 1;
        }
        fired := TallyFindings(fired, meta.findings.value, meta.id);
      }
      TalliedNext(before, fired, all, i);
    }
    assert all[..|all|] == all;
    LabelsApart(all);
    var found := PatternRows(fired, fraudIds, legitIds, totalFraud, totalLegit);
    SortedExact(found);
    patterns := Sorted(found);
    totals := Totals(totalFraud, totalLegit, totalAmbig, |patterns|);
    MatrixOf(all, fired, found, patterns);
  }

  lemma NothingYet()
    ensures WithLabel([], Fraud) == {} && WithLabel([], Legitimate) == {} && AmbiguousIds([]) == {} && Tallied(map[], [])
  {
  }

  /** One row per pattern that fired, in whatever order the set gives them. */
  method PatternRows(fired: map<string, set<nat>>, fraudIds: set<nat>, legitIds: set<nat>, totalFraud: nat, totalLegit: nat)
    returns (rows: seq<Pattern>)
    requires fraudIds !! legitIds
    ensures forall i, j | 0 <= i < j < |rows| :: rows[i].id != rows[j].id
    ensures forall p :: p in rows <==>
      p.id in fired && p == PatternOf(p.id, |fired[p.id] * fraudIds|, |fired[p.id] * legitIds|, totalFraud, totalLegit)
  {
    hide PatternOf;
    rows := [];
    var todo := fired.Keys;
    while todo != {}
      invariant todo <= fired.Keys
      invariant forall i, j | 0 <= i < j < |rows| :: rows[i].id != rows[j].id
      invariant forall p :: p in rows <==>
        p.id in fired && p.id !in todo
        && p == PatternOf(p.id, |fired[p.id] * fraudIds|, |fired[p.id] * legitIds|, totalFraud, totalLegit)
      decreases |todo|
    {
      var id :| id in todo;
      var tp, fp := CountHits(fired[id], fraudIds, legitIds);
      var row := PatternOf(id, tp, fp, totalFraud, totalLegit);
      NamedAs(id, tp, fp, totalFraud, totalLegit);
      forall i | 0 <= i < |rows| ensures rows[i].id != id {
        assert rows[i] in rows;
      }
      todo := todo - {id};
      rows := rows + [row];
    }
  }

  lemma NamedAs(id: string, tp: nat, fp: nat, fraud: nat, legitimate: nat)
    ensures PatternOf(id, tp, fp, fraud, legitimate).id == id
  {
  }

  lemma MatrixOf(all: seq<Entry>, fired: map<string, set<nat>>, found: seq<Pattern>, patterns: seq<Pattern>)
    requires Tallied(fired, all) && Ordered(patterns) && SameMembers(patterns, found)
    requires var fraud, legitimate := WithLabel(all, Fraud), WithLabel(all, Legitimate);
      forall p :: p in found <==>
        p.id in fired && p == PatternOf(p.id, |fired[p.id] * fraud|, |fired[p.id] * legitimate|, |fraud|, |legitimate|)
    ensures IsMatrix(all, patterns)
  {
    hide PatternOf, Ordered, FiredOn, WithLabel;
    forall p ensures p in patterns <==> FiredOn(all, p.id) != {} && p == PatternFor(all, p.id) {
      assert p in patterns <==> p in found;
    }
  }
}
