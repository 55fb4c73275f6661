/** Which refusals the ledger tells apart, and what a posted item says about the events behind it. */
module RefusalMeaning {
  import opened RefusalLedger

  /** The directive that was applied, as far as the event says. */
  predicate Applied(v: Violation, directive: string) {
    || (v.effectiveDirective != "" && directive == v.effectiveDirective)
    || (v.effectiveDirective == "" && v.violatedDirective != "" && directive == v.violatedDirective)
    || (v.effectiveDirective == "" && v.violatedDirective == "" && directive == "unknown")
  }

  predicate Evidence(v: Violation, i: Item) {
    v.isTrusted && Applied(v, i.directive) && i.blockedUri == v.blockedUri
  }

  predicate Describable(i: Item) {
    |i.directive| <= 64 && |i.blockedUri| <= 2048
  }

  /** Everything that is due comes from a browser-originated event that applied that directive to that uri. */
  lemma {:induction false} DueHasEvidence(vs: seq<Violation>, i: Item)
    requires i in Distinct(vs)
    ensures Describable(i) && exists v | v in vs :: Evidence(v, i)
  {
    var init, last := vs[..|vs| - 1], vs[|vs| - 1];
    assert vs == init + [last];
    if i in Distinct(init) {
      DueHasEvidence(init, i);
    } else {
      assert i == ItemOf(last) && Evidence(last, i);
    }
  }

  /** And every such event that can be described is there, unless another refusal has the same joined key. */
  lemma {:induction false} EvidenceIsDue(vs: seq<Violation>, v: Violation, i: Item)
    requires v in vs && Evidence(v, i) && Describable(i)
    ensures Key(i) in Keys(Distinct(vs))
  {
    var init, last := vs[..|vs| - 1], vs[|vs| - 1];
    assert vs == init + [last];
    if v in init {
      EvidenceIsDue(init, v, i);
      KeysSnoc(Distinct(init), ItemOf(last));
    } else {
      assert i == ItemOf(last);
      KeysSnoc(Distinct(init), i);
    }
  }

  /** What the parent receives has evidence. */
  lemma ReceivedHasEvidence(es: seq<Event>, i: Item)
    requires i in Received(After(es).posts)
    ensures Describable(i) && exists v | v in Violations(es) :: Evidence(v, i)
  {
    hide After, Received, Distinct, Violations, Subsequence;
    ParentHearsAtMostOnce(es);
    SubsequenceKeys(Received(After(es).posts), Due(es));
    assert i in Distinct(Violations(es));
    DueHasEvidence(Violations(es), i);
  }

  /** Two events that differ at most in `violatedDirective`, where the effective directive is known. */
  predicate SameRefusal(e: Event, e': Event) {
    e == e' || (e.Refused? && e'.Refused? && e.how == e'.how && e.v.effectiveDirective != "" &&
                e' == Refused(e.v.(violatedDirective := e'.v.violatedDirective), e.how))
  }

  /** The source lists engines put into `violatedDirective` change nothing at all. */
  lemma {:induction false} SpellingsAreOneRefusal(es: seq<Event>, es': seq<Event>)
    requires |es| == |es'| && forall i | 0 <= i < |es| :: SameRefusal(es[i], es'[i])
    ensures After(es) == After(es')
  {
    if es != [] {
      var n := |es| - 1;
      assert SameRefusal(es[n], es'[n]);
      SpellingsAreOneRefusal(es[..n], es'[..n]);
    }
  }

  function Genuine(es: seq<Event>): seq<Event> {
    if es == [] then []
    else
      var before, e := Genuine(es[..|es| - 1]), es[|es| - 1];
      if e.Refused? && !e.v.isTrusted then before else before + [e]
  }

  /** Events a creative dispatches itself leave no trace, whatever they say. */
  lemma {:induction false} ForgedEventsAreIgnored(es: seq<Event>)
    ensures After(Genuine(es)) == After(es)
  {
    if es != [] {
      var init, e := es[..|es| - 1], es[|es| - 1];
      ForgedEventsAreIgnored(init);
      assert (Genuine(init) + [e])[..|Genuine(init)|] == Genuine(init);
    }
  }

  /** The cap is the first two hundred. */
  lemma FirstTwoHundredAreDue(es: seq<Event>)
    ensures Due(es) <= Distinct(Violations(es))
    ensures |Due(es)| == if |Distinct(Violations(es))| <= 200 then |Distinct(Violations(es))| else 200
  {
    hide Distinct, Violations;
  }

  /** The flush task runs only when it was posted: its port is private. */
  ghost predicate FlushesArePosted(es: seq<Event>) {
    forall i | 0 <= i < |es| && es[i].FlushTask? :: After(es[..i]).scheduled
  }

  /** Every message sent or pending is paid for by a counted refusal, or by the one truncation. */
  ghost predicate Paid(l: Ledger) {
    |l.posts| + (if l.scheduled then 1 else 0) <= l.count + (if l.truncated then 1 else 0)
  }

  lemma NothingIsPaid()
    ensures Paid(EMPTY)
  {
  }

  lemma PaidStep(l: Ledger, e: Event)
    requires Paid(l) && (e.FlushTask? ==> l.scheduled)
    ensures Paid(Step(l, e))
  {
    hide Key, Short, ItemOf;
  }

  lemma {:induction false} MessagesArePaid(es: seq<Event>)
    requires FlushesArePosted(es)
    ensures Paid(After(es))
  {
    hide Step, Paid;
    if es == [] { NothingIsPaid(); }
    if es != [] {
      var init := es[..|es| - 1];
      assert es[..|init|] == init;
      forall i | 0 <= i < |init| && init[i].FlushTask? ensures After(init[..i]).scheduled {
        assert init[..i] == es[..i] && es[i] == init[i];
      }
      MessagesArePaid(init);
      PaidStep(After(init), es[|init|]);
    }
  }

  /** However many violations a creative provokes, the parent gets at most two hundred and one messages. */
  lemma NoMessageStorm(es: seq<Event>)
    requires FlushesArePosted(es)
    ensures |After(es).posts| <= 201
  {
    MessagesArePaid(es);
    RunKeeps(es);
    hide After, Distinct, Violations, SomethingDropped, Sent, Keys;
    assert |Capped(Distinct(Violations(es)))| <= 200;
  }
}
