/** Dunning cases over runs. */
module DunningCases {
  import opened Prelude
  import opened Subscriptions
  import opened BillingState
  import opened Webhooks
  import opened BillingRuns
  import ExactlyOnce

  /** What a failed payment of a known customer is about. */
  function DebtOf(db: Db, event: StripeEvent): Debt
    requires CustomerOf(db, event.data.customer).Some?
  {
    Debt(CustomerOf(db, event.data.customer).value, InvoiceSubscription(db, event.data), event.data.id)
  }

  /** The attempt gets past the handler. */
  predicate ReachesDunning(fault: Fault) {
    !fault.Escapes? && !fault.BeforeWrites? && !fault.BetweenWrites?
  }

  /** The event is new and about a failed payment of a known customer. */
  predicate WritesDunning(db: Db, event: StripeEvent) {
    !IsProcessed(db, event.id) && event.kind.InvoicePaymentFailed? && CustomerOf(db, event.data.customer).Some?
  }

  /** The debt and the event id for which a step writes a dunning case. */
  function Hit(db: Db, t: Timed): Option<(Debt, string)> {
    var call := Attempting(db, t.step);
    if call.None? then None
    else
      var (event, _, fault) := call.value;
      if ReachesDunning(fault) && WritesDunning(db, event) then Some((DebtOf(db, event), event.id)) else None
  }

  /** The step closes the open case about the debt. */
  predicate Closes(db: Db, t: Timed, debt: Debt) {
    && t.step.CloseDunning? && t.step.caseIndex < |db.dunning|
    && db.dunning[t.step.caseIndex].debt == debt && !IsClosed(db.dunning[t.step.caseIndex])
  }

  /** Event ids of the failures written for the debt since its case was opened. */
  function FailuresSinceOpen(db: Db, steps: seq<Timed>, debt: Debt): seq<string> {
    if steps == [] then []
    else
      var front := steps[..|steps| - 1];
      var before := Run(db, front);
      var t := steps[|steps| - 1];
      if Closes(before, t, debt) then []
      else
        var hit := Hit(before, t);
        FailuresSinceOpen(db, front, debt) + if hit.Some? && hit.value.0 == debt then [hit.value.1] else []
  }

  lemma FailuresAfter(db: Db, steps: seq<Timed>, t: Timed, debt: Debt)
    ensures FailuresSinceOpen(db, steps + [t], debt) ==
            if Closes(Run(db, steps), t, debt) then []
            else
              var hit := Hit(Run(db, steps), t);
              FailuresSinceOpen(db, steps, debt) + if hit.Some? && hit.value.0 == debt then [hit.value.1] else []
  {
    assert (steps + [t])[..|steps + [t]| - 1] == steps;
  }

  /** At most one case per debt is neither resolved nor cancelled. */
  ghost predicate OneOpenCase(cases: seq<DunningCase>) {
    forall i, j | 0 <= i < j < |cases| :: !IsClosed(cases[i]) && !IsClosed(cases[j]) ==> cases[i].debt != cases[j].debt
  }

  /** The open case about the debt, if any, counts `failures`. */
  predicate CountsFailures(cases: seq<DunningCase>, debt: Debt, failures: nat) {
    OpenCaseFinds(cases, debt);
    var i := OpenCase(cases, debt);
    (i.Some? <==> failures > 0) && (i.Some? ==> cases[i.value].failedAttempts == failures)
  }

  /** With one open case per debt, the case found is the only one. */
  lemma OpenCaseIs(cases: seq<DunningCase>, i: nat)
    requires OneOpenCase(cases) && i < |cases| && !IsClosed(cases[i])
    ensures OpenCase(cases, cases[i].debt) == Some(i)
  {
    OpenCaseFinds(cases, cases[i].debt);
  }

  lemma NoOpenCase(cases: seq<DunningCase>, debt: Debt)
    requires forall j | 0 <= j < |cases| :: !(cases[j].debt == debt && !IsClosed(cases[j]))
    ensures OpenCase(cases, debt) == None
  {
    OpenCaseFinds(cases, debt);
  }

  lemma DunnedKeepsOneOpen(cases: seq<DunningCase>, debt: Debt, retryAt: Option<int>, now: int)
    requires OneOpenCase(cases)
    ensures OneOpenCase(Dunned(cases, debt, retryAt, None, now))
  {
    OpenCaseFinds(cases, debt);
    var r := Dunned(cases, debt, retryAt, None, now);
    if OpenCase(cases, debt).None? {
      forall i, j | 0 <= i < j < |r| && !IsClosed(r[i]) && !IsClosed(r[j]) ensures r[i].debt != r[j].debt {
        assert r[j] == cases[j - 1];
        assert i > 0 ==> r[i] == cases[i - 1];
      }
    }
  }

  /** The open case of every debt keeps its place, one further back when a case was opened. */
  lemma DunnedCounts(cases: seq<DunningCase>, debt: Debt, retryAt: Option<int>, now: int, d: Debt, failures: nat)
    requires OneOpenCase(cases) && CountsFailures(cases, d, failures)
    ensures CountsFailures(Dunned(cases, debt, retryAt, None, now), d, if d == debt then failures + 1 else failures)
  {
    OpenCaseFinds(cases, debt);
    OpenCaseFinds(cases, d);
    DunnedKeepsOneOpen(cases, debt, retryAt, now);
    var r := Dunned(cases, debt, retryAt, None, now);
    var i, k := OpenCase(cases, d), OpenCase(cases, debt);
    if k.Some? {
      if i.Some? {
        OpenCaseIs(r, i.value);
      } else {
        NoOpenCase(r, d);
      }
    } else if d == debt {
      OpenCaseIs(r, 0);
    } else if i.Some? {
      assert r[i.value + 1] == cases[i.value];
      OpenCaseIs(r, i.value + 1);
    } else {
      forall j | 0 <= j < |r| ensures !(r[j].debt == d && !IsClosed(r[j])) {
        assert j > 0 ==> r[j] == cases[j - 1];
      }
      NoOpenCase(r, d);
    }
  }

  lemma ClosedCounts(cases: seq<DunningCase>, c: nat, resolved: bool, d: Debt, failures: nat)
    requires OneOpenCase(cases) && CountsFailures(cases, d, failures)
    ensures OneOpenCase(Closed(cases, c, resolved))
    ensures CountsFailures(Closed(cases, c, resolved), d,
                           if c < |cases| && cases[c].debt == d && !IsClosed(cases[c]) then 0 else failures)
  {
    OpenCaseFinds(cases, d);
    var r := Closed(cases, c, resolved);
    var i := OpenCase(cases, d);
    if i.Some? && i.value != c {
      OpenCaseIs(r, i.value);
      assert c < |cases| && cases[c].debt == d ==> IsClosed(cases[c]);
    } else {
      NoOpenCase(r, d);
    }
  }

  lemma TryDunning(db: Db, event: StripeEvent, fault: Fault, now: int)
    ensures var customer := CustomerOf(db, event.data.customer);
            Try(db, event, fault, now).db.dunning ==
            if fault.BeforeWrites? || fault.BetweenWrites? || !event.kind.InvoicePaymentFailed? || customer.None?
            then db.dunning
            else Dunned(db.dunning, Debt(customer.value, InvoiceSubscription(db, event.data), event.data.id),
                        Ts(event.data.nextPaymentAttempt), None, now)
  {
    HandlerFrame(db, event, now);
    if event.kind.InvoicePaymentFailed? {
      PublishFrame(Handle(db, event, now).db, Handle(db, event, now).touched, event, fault, now);
    } else {
      TryFrame(db, Handle(db, event, now), event, fault, now);
    }
  }

  lemma ProcessDunning(db: Db, event: StripeEvent, valid: bool, fault: Fault, now: int, debt: Debt, failures: nat)
    requires OneOpenCase(db.dunning) && CountsFailures(db.dunning, debt, failures)
    ensures var after := ProcessEvent(db, event, valid, fault, now).dunning;
            && OneOpenCase(after)
            && CountsFailures(after, debt,
                              if ReachesDunning(fault) && WritesDunning(db, event) && DebtOf(db, event) == debt
                              then failures + 1 else failures)
  {
    if !fault.Escapes? && !IsProcessed(db, event.id) {
      TryDunning(db, event, fault, now);
      ConcludeFrame(Try(db, event, fault, now), event, valid, now);
      if WritesDunning(db, event) {
        DunnedKeepsOneOpen(db.dunning, DebtOf(db, event), Ts(event.data.nextPaymentAttempt), now);
        DunnedCounts(db.dunning, DebtOf(db, event), Ts(event.data.nextPaymentAttempt), now, debt, failures);
      }
    }
  }

  lemma StepDunning(db: Db, t: Timed, debt: Debt, failures: nat)
    requires OneOpenCase(db.dunning) && CountsFailures(db.dunning, debt, failures)
    ensures OneOpenCase(Exec(db, t).dunning)
    ensures CountsFailures(Exec(db, t).dunning, debt,
                           if Closes(db, t, debt) then 0
                           else if Hit(db, t).Some? && Hit(db, t).value.0 == debt then failures + 1 else failures)
  {
    var call := Attempting(db, t.step);
    if call.Some? {
      AttemptingIsProcessEvent(db, t);
      ProcessDunning(db, call.value.0, call.value.1, call.value.2, t.now, debt, failures);
    } else if t.step.CloseDunning? {
      ClosedCounts(db.dunning, t.step.caseIndex, t.step.resolved, debt, failures);
    } else {
      LocalStepsFramed(db, t);
    }
  }

  /** From an empty table, after any run: at most one case per (customer, subscription, invoice) is open, it is open
      exactly if a failure has been written since the last closing, and it counts those failures. */
  lemma {:induction false} OpenCaseCountsFailures(db: Db, steps: seq<Timed>, debt: Debt)
    requires db.dunning == []
    ensures OneOpenCase(Run(db, steps).dunning)
    ensures CountsFailures(Run(db, steps).dunning, debt, |FailuresSinceOpen(db, steps, debt)|)
  {
    if steps != [] {
      var front := steps[..|steps| - 1];
      OpenCaseCountsFailures(db, front, debt);
      StepDunning(Run(db, front), steps[|steps| - 1], debt, |FailuresSinceOpen(db, front, debt)|);
    }
  }

  // ---------------------------------------------------------------- one count per event id

  /** No attempt fails after its dunning write: every step that writes a case ends PROCESSED. */
  ghost predicate WritesSucceed(db: Db, steps: seq<Timed>) {
    steps != [] ==>
      && WritesSucceed(db, steps[..|steps| - 1])
      && var before := Run(db, steps[..|steps| - 1]);
         var hit := Hit(before, steps[|steps| - 1]);
         hit.Some? ==> IsProcessed(Exec(before, steps[|steps| - 1]), hit.value.1)
  }

  ghost predicate NoDuplicates(ids: seq<string>) {
    forall i, j | 0 <= i < j < |ids| :: ids[i] != ids[j]
  }

  lemma ProcessedStays(db: Db, t: Timed, id: string)
    requires IsProcessed(db, id)
    ensures IsProcessed(Exec(db, t), id)
    ensures Hit(db, t).Some? ==> Hit(db, t).value.1 != id
  {
    ExactlyOnce.StatusChanges(db, t, id);
  }

  /** Then no event id is counted twice, because every counted id is PROCESSED. */
  lemma {:induction false} FailuresAreDistinct(db: Db, steps: seq<Timed>, debt: Debt)
    requires db.dunning == [] && WritesSucceed(db, steps)
    ensures NoDuplicates(FailuresSinceOpen(db, steps, debt))
    ensures forall id | id in FailuresSinceOpen(db, steps, debt) :: IsProcessed(Run(db, steps), id)
  {
    if steps != [] {
      var front := steps[..|steps| - 1];
      var t := steps[|steps| - 1];
      FailuresAreDistinct(db, front, debt);
      forall id | id in FailuresSinceOpen(db, front, debt)
        ensures IsProcessed(Run(db, steps), id) && (Hit(Run(db, front), t).Some? ==>
                                                    Hit(Run(db, front), t).value.1 != id)
      {
        ProcessedStays(Run(db, front), t, id);
      }
    }
  }

  /** If no attempt fails after its dunning write, the open case about a debt counts the distinct payment-failed events
      handled for it since it opened. */
  lemma FailedAttemptsCountDistinctEvents(db: Db, steps: seq<Timed>, debt: Debt)
    requires db.dunning == [] && WritesSucceed(db, steps)
    ensures CountsFailures(Run(db, steps).dunning, debt, |(set id | id in FailuresSinceOpen(db, steps, debt))|)
  {
    FailuresAreDistinct(db, steps, debt);
    CountIsExactUnlessRepeated(db, steps, debt);
  }

  lemma {:induction false} DistinctCountExactly(ids: seq<string>)
    ensures |(set id | id in ids)| <= |ids|
    ensures |(set id | id in ids)| == |ids| <==> NoDuplicates(ids)
  {
    if ids != [] {
      var front, last := ids[..|ids| - 1], ids[|ids| - 1];
      DistinctCountExactly(front);
      assert ids == front + [last];
      assert (set id | id in ids) == (set id | id in front) + {last};
      assert NoDuplicates(ids) <==> NoDuplicates(front) && last !in front by {
        if NoDuplicates(ids) {
          forall i, j | 0 <= i < j < |front| ensures front[i] != front[j] {
            assert ids[i] != ids[j];
          }
        }
      }
    }
  }

  lemma CountedFailuresCount(cases: seq<DunningCase>, debt: Debt, m: nat, n: nat)
    requires CountsFailures(cases, debt, m)
    ensures CountsFailures(cases, debt, n) <==> m == n
  {
  }

  /** Over every run: the open case counts the distinct payment-failed events of its debt if and only if no event has
      written to it twice. */
  lemma CountIsExactUnlessRepeated(db: Db, steps: seq<Timed>, debt: Debt)
    requires db.dunning == []
    ensures CountsFailures(Run(db, steps).dunning, debt, |(set id | id in FailuresSinceOpen(db, steps, debt))|) <==>
            NoDuplicates(FailuresSinceOpen(db, steps, debt))
  {
    var ids := FailuresSinceOpen(db, steps, debt);
    OpenCaseCountsFailures(db, steps, debt);
    DistinctCountExactly(ids);
    CountedFailuresCount(Run(db, steps).dunning, debt, |ids|, |(set id | id in ids)|);
  }

  predicate HasFailed(db: Db, id: string) {
    ("stripe", id) in db.webhooks && db.webhooks[("stripe", id)].status == WebhookFailed
  }

  /** The step writes the debt's open case for an event that has written to it before. */
  predicate Repeats(db: Db, steps: seq<Timed>, debt: Debt, t: Timed) {
    var hit := Hit(Run(db, steps), t);
    hit.Some? && hit.value.0 == debt && hit.value.1 in FailuresSinceOpen(db, steps, debt)
  }

  lemma AttemptKeepsConcluded(db: Db, event: StripeEvent, valid: bool, fault: Fault, now: int, id: string)
    requires HasFailed(db, id) || IsProcessed(db, id)
    ensures var after := ProcessEvent(db, event, valid, fault, now); HasFailed(after, id) || IsProcessed(after, id)
  {
    HandlerFrame(db, event, now);
    TryFrame(db, Handle(db, event, now), event, fault, now);
  }

  lemma ConcludedStays(db: Db, t: Timed, id: string)
    requires HasFailed(db, id) || IsProcessed(db, id)
    ensures HasFailed(Exec(db, t), id) || IsProcessed(Exec(db, t), id)
  {
    var call := Attempting(db, t.step);
    if call.Some? {
      AttemptingIsProcessEvent(db, t);
      AttemptKeepsConcluded(db, call.value.0, call.value.1, call.value.2, t.now, id);
    } else {
      LocalStepsFramed(db, t);
    }
  }

  lemma HitConcludes(db: Db, t: Timed)
    requires Hit(db, t).Some?
    ensures HasFailed(Exec(db, t), Hit(db, t).value.1) || IsProcessed(Exec(db, t), Hit(db, t).value.1)
  {
    AttemptingIsProcessEvent(db, t);
  }

  /** Every event that has written to the open case has been concluded, one way or the other. */
  lemma {:induction false} CountedEventsConcluded(db: Db, steps: seq<Timed>, debt: Debt)
    ensures forall id | id in FailuresSinceOpen(db, steps, debt) ::
              HasFailed(Run(db, steps), id) || IsProcessed(Run(db, steps), id)
  {
    if steps != [] {
      var front, t := steps[..|steps| - 1], steps[|steps| - 1];
      CountedEventsConcluded(db, front, debt);
      forall id | id in FailuresSinceOpen(db, steps, debt)
        ensures HasFailed(Run(db, steps), id) || IsProcessed(Run(db, steps), id)
      {
        if id in FailuresSinceOpen(db, front, debt) {
          ConcludedStays(Run(db, front), t, id);
        } else {
          HitConcludes(Run(db, front), t);
        }
      }
    }
  }

  /** The step at which the count goes wrong: the retry of an event whose last attempt ended FAILED after it had written
      to the case that is still open. Any other step keeps the count exact. */
  lemma CountGoesWrongExactlyAtRetries(db: Db, steps: seq<Timed>, debt: Debt, t: Timed)
    requires db.dunning == [] && NoDuplicates(FailuresSinceOpen(db, steps, debt))
    ensures Repeats(db, steps, debt, t) ==> HasFailed(Run(db, steps), Hit(Run(db, steps), t).value.1)
    ensures !CountsFailures(Run(db, steps + [t]).dunning, debt,
                            |(set id | id in FailuresSinceOpen(db, steps + [t], debt))|) <==>
            Repeats(db, steps, debt, t)
  {
    var all := steps + [t];
    FailuresAfter(db, steps, t, debt);
    CountedEventsConcluded(db, steps, debt);
    CountIsExactUnlessRepeated(db, all, debt);
    var before, after := FailuresSinceOpen(db, steps, debt), FailuresSinceOpen(db, all, debt);
    if Repeats(db, steps, debt, t) {
      var i :| 0 <= i < |before| && before[i] == Hit(Run(db, steps), t).value.1;
      assert !Closes(Run(db, steps), t, debt);
      assert after == before + [before[i]];
      assert after[i] == after[|before|];
    } else if after != [] && after != before {
      assert after == before + [Hit(Run(db, steps), t).value.1];
    }
  }

  /** After an attempt that fails behind its handler the event is open again and resolves to the same debt. */
  lemma FailedAttemptCanHitAgain(db: Db, event: StripeEvent, valid: bool, fault: Fault, now: int)
    requires event.kind.InvoicePaymentFailed? && !IsProcessed(db, event.id)
    ensures var after := ProcessEvent(db, event, valid, fault, now);
            after.subscriptions == db.subscriptions && after.providerCustomers == db.providerCustomers
  {
    HandlerFrame(db, event, now);
    TryFrame(db, Handle(db, event, now), event, fault, now);
    ConcludeFrame(Try(db, event, fault, now), event, valid, now);
  }

  lemma HitOf(db: Db, event: StripeEvent, valid: bool, fault: Fault, now: int)
    requires event.kind.InvoicePaymentFailed? && !IsProcessed(db, event.id) && CustomerOf(db, event.data.customer).Some?
    requires ReachesDunning(fault)
    ensures Hit(db, Timed(now, Deliver(event, valid, fault))) == Some((DebtOf(db, event), event.id))
  {
  }

  /** A payment-failed event that is delivered again after a failed attempt is counted twice. */
  lemma RetryCountsTwice(db: Db, event: StripeEvent, valid: bool, fault: Fault, now: int, later: int)
    requires event.kind.InvoicePaymentFailed? && CustomerOf(db, event.data.customer).Some? && ReachesDunning(fault)
    requires !IsProcessed(ProcessEvent(db, event, valid, fault, now), event.id)
    ensures var steps := [Timed(now, Deliver(event, valid, fault)), Timed(later, Deliver(event, valid, NoFault))];
            && FailuresSinceOpen(db, steps, DebtOf(db, event)) == [event.id, event.id]
            && (db.dunning == [] ==> CountsFailures(Run(db, steps).dunning, DebtOf(db, event), 2))
  {
    var one, two := Timed(now, Deliver(event, valid, fault)), Timed(later, Deliver(event, valid, NoFault));
    RunOne(db, one);
    AttemptingIsProcessEvent(db, one);
    FailedAttemptCanHitAgain(db, event, valid, fault, now);
    HitOf(db, event, valid, fault, now);
    HitOf(Run(db, [one]), event, valid, NoFault, later);
    TwoFailures(db, one, two, DebtOf(db, event));
  }

  lemma TwoFailures(db: Db, one: Timed, two: Timed, debt: Debt)
    requires one.step.Deliver? && two.step.Deliver?
    requires Hit(db, one).Some? && Hit(db, one).value.0 == debt
    requires Hit(Run(db, [one]), two).Some? && Hit(Run(db, [one]), two).value.0 == debt
    ensures FailuresSinceOpen(db, [one, two], debt) == [Hit(db, one).value.1, Hit(Run(db, [one]), two).value.1]
    ensures db.dunning == [] ==> CountsFailures(Run(db, [one, two]).dunning, debt, 2)
  {
    assert [] + [one] == [one] && [one] + [two] == [one, two];
    FailuresAfter(db, [], one, debt);
    FailuresAfter(db, [one], two, debt);
    if db.dunning == [] {
      OpenCaseCountsFailures(db, [one, two], debt);
    }
  }

  /** No injected fault is needed: with the column as declared, one failed payment of a customer with a paid period that
      is still running is counted once for every delivery. */
  lemma RedeliveredFailureCountsTwice(db: Db, event: StripeEvent, valid: bool, now: int, later: int, i: nat)
    requires !db.encodesDates && db.dunning == [] && !IsProcessed(db, event.id)
    requires event.kind.InvoicePaymentFailed? && CustomerOf(db, event.data.customer).Some?
    requires i < |db.subscriptions| && db.subscriptions[i].currentPeriodEnd.Some?
             && Counts(db.subscriptions[i], CustomerOf(db, event.data.customer).value, now)
    ensures var steps := [Timed(now, Deliver(event, valid, NoFault)), Timed(later, Deliver(event, valid, NoFault))];
            CountsFailures(Run(db, steps).dunning, DebtOf(db, event), 2)
  {
    HandlerFrame(db, event, now);
    PeriodEndBlocksSnapshot(db, event, valid, now, i);
    RetryCountsTwice(db, event, valid, NoFault, now, later);
  }
}
