/** What the figures of the confusion matrix mean, and in which order a reader finds them. */
module MatrixMeaning {
  import opened Wrappers
  import opened Sets
  import opened CorpusMatrix

  /** Every entry a pattern fired on is labelled fraud or legitimate, never both. */
  lemma FiredSplits(es: seq<Entry>, id: string)
    requires UniqueIds(es)
    ensures var fired, fraud, legitimate := FiredOn(es, id), WithLabel(es, Fraud), WithLabel(es, Legitimate);
      && fired * fraud !! fired * legitimate && fired == fired * fraud + fired * legitimate
      && |fired| == |fired * fraud| + |fired * legitimate| && fired - fraud == fired * legitimate
  {
    LabelsApart(es);
    var fired, fraud, legitimate := FiredOn(es, id), WithLabel(es, Fraud), WithLabel(es, Legitimate);
    forall x | x in fired ensures x in fraud || x in legitimate {
      var i :| 0 <= i < |es| && Fires(es[i], id) && es[i].id == x;
      assert Counted(es[i]) && (es[i].verdict == Fraud || es[i].verdict == Legitimate);
    }
    assert fired == fired * fraud + fired * legitimate;
  }

  /** Precision is the share of frauds among the entries fired on, recall the share of entries fired on among the frauds. */
  lemma RatiosMean(es: seq<Entry>, id: string)
    requires UniqueIds(es)
    ensures var p, fired, fraud := PatternFor(es, id), FiredOn(es, id), WithLabel(es, Fraud);
      && p.tp == |fired * fraud| && p.fp == |fired - fraud| && p.fn == |fraud - fired|
      && p.tn == |WithLabel(es, Legitimate) - fired|
      && (p.precision.Some? <==> fired != {})
      && (fired != {} ==> p.precision.value == |fired * fraud| as real / |fired| as real)
      && (p.recall.Some? <==> fraud != {})
      && (fraud != {} ==> p.recall.value == |fired * fraud| as real / |fraud| as real)
  {
    hide FiredOn, WithLabel, HarmonicMean;
    var fired, fraud, legitimate := FiredOn(es, id), WithLabel(es, Fraud), WithLabel(es, Legitimate);
    FiredSplits(es, id);
    Remainder(fraud, fired);
    Remainder(legitimate, fired);
    Inhabited(fired);
    Inhabited(fraud);
  }

  lemma Remainder(a: set<nat>, b: set<nat>)
    ensures |a - b| == |a| - |b * a|
  {
    assert a == (a - b) + (b * a) && (a - b) !! (b * a);
  }

  lemma Inhabited(s: set<nat>)
    ensures |s| > 0 <==> s != {}
  {
  }

  // ---- the order a reader sees ------------------------------------------------

  /** Dictionary order: at the first difference the smaller character, or the end, comes first. */
  ghost predicate Alphabetical(a: string, b: string) {
    exists k | 0 <= k <= |a| && k < |b| :: a[..k] == b[..k] && (k == |a| || a[k] < b[k])
  }

  lemma {:induction false} TextBeforeIsAlphabetical(a: string, b: string)
    ensures TextBefore(a, b) <==> Alphabetical(a, b)
  {
    if a != "" && b != "" {
      if a[0] == b[0] {
        TextBeforeIsAlphabetical(a[1..], b[1..]);
        if Alphabetical(a[1..], b[1..]) {
          var k :| 0 <= k <= |a[1..]| && k < |b[1..]| && a[1..][..k] == b[1..][..k] && (k == |a[1..]| || a[1..][k] < b[1..][k]);
          assert a[..k + 1] == [a[0]] + a[1..][..k] && b[..k + 1] == [b[0]] + b[1..][..k];
        }
        if Alphabetical(a, b) {
          var k :| 0 <= k <= |a| && k < |b| && a[..k] == b[..k] && (k == |a| || a[k] < b[k]);
          assert k > 0;
          assert a[1..][..k - 1] == a[..k][1..] && b[1..][..k - 1] == b[..k][1..];
        }
      } else {
        assert forall k | 0 < k <= |a| && k < |b| :: a[..k][0] != b[..k][0];
        if a[0] < b[0] { assert a[..0] == b[..0]; }
      }
    } else if b != "" {
      assert a[..0] == b[..0];
    }
  }

  /** The best pattern comes first: by F1, those without one last; among equals by true positives, then by name. */
  lemma BestFirst(es: seq<Entry>, ps: seq<Pattern>, i: nat, j: nat)
    requires IsMatrix(es, ps) && i < j < |ps|
    ensures ps[j].f1.Some? ==> ps[i].f1.Some? && ps[i].f1.value >= ps[j].f1.value
    ensures ps[i].f1 == ps[j].f1 ==> ps[i].tp >= ps[j].tp
    ensures ps[i].f1 == ps[j].f1 && ps[i].tp == ps[j].tp ==> Alphabetical(ps[i].id, ps[j].id)
  {
    assert Before(ps[i], ps[j]);
    TextBeforeIsAlphabetical(ps[i].id, ps[j].id);
  }

  /** There is a row for exactly the named patterns found in some labelled entry whose findings could be read. */
  lemma RowsExactly(es: seq<Entry>, ps: seq<Pattern>, id: string)
    requires IsMatrix(es, ps)
    ensures (exists p | p in ps :: p.id == id) <==>
      id != "" && exists e | e in es :: !e.verdict.Ambiguous? && e.findings.Some? && id in e.findings.value
  {
    if id != "" && exists e | e in es :: !e.verdict.Ambiguous? && e.findings.Some? && id in e.findings.value {
      var e :| e in es && !e.verdict.Ambiguous? && e.findings.Some? && id in e.findings.value;
      var i :| 0 <= i < |es| && es[i] == e;
      assert Fires(es[i], id) && e.id in FiredOn(es, id);
      assert PatternFor(es, id).id == id && PatternFor(es, id) in ps;
    }
    if p :| p in ps && p.id == id {
      assert FiredOn(es, id) != {};
      var i :| 0 <= i < |es| && Fires(es[i], id);
      assert es[i] in es;
    }
  }
}
