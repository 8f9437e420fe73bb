/** Exactly-once effect of the webhook processor over at-least-once delivery. */
module ExactlyOnce {
  import opened Prelude
  import opened Outbox
  import opened BillingState
  import opened Webhooks
  import opened BillingRuns

  /** The event id a step would process. */
  function TargetId(db: Db, step: Step): Option<string> {
    var call := Attempting(db, step);
    if call.Some? then Some(call.value.0.id) else None
  }

  predicate Targets(db: Db, step: Step, id: string) {
    TargetId(db, step) == Some(id)
  }

  /** A delivery or replay of an event id that has been PROCESSED before. */
  predicate IsRedundant(db: Db, step: Step) {
    var id := TargetId(db, step); id.Some? && IsProcessed(db, id.value)
  }

  /** The run without the redundant deliveries and replays. */
  function Pruned(db: Db, steps: seq<Timed>): seq<Timed> {
    if steps == [] then []
    else
      var front := steps[..|steps| - 1];
      Pruned(db, front) + if IsRedundant(Run(db, front), steps[|steps| - 1].step) then [] else [steps[|steps| - 1]]
  }

  /** Removing every delivery and replay of an event id after its first PROCESSED one leaves every table as it was:
      subscriptions, invoices, payments, dunning, snapshots, change log, outbox, sync state and the webhook log itself.
      */
  lemma {:induction false} DuplicatesHaveNoEffect(db: Db, steps: seq<Timed>)
    ensures Run(db, Pruned(db, steps)) == Run(db, steps)
  {
    if steps != [] {
      var front := steps[..|steps| - 1];
      var last := steps[|steps| - 1];
      DuplicatesHaveNoEffect(db, front);
      if IsRedundant(Run(db, front), last.step) {
        AttemptingIsProcessEvent(Run(db, front), last);
        assert Pruned(db, steps) == Pruned(db, front);
      } else {
        assert Pruned(db, steps)[..|Pruned(db, steps)| - 1] == Pruned(db, front);
      }
    }
  }

  /** The step is the one that turns `id` into PROCESSED. */
  predicate Succeeds(db: Db, t: Timed, id: string) {
    Targets(db, t.step, id) && !IsProcessed(db, id) && IsProcessed(Exec(db, t), id)
  }

  lemma ProcessStatus(db: Db, event: StripeEvent, valid: bool, fault: Fault, now: int, id: string)
    ensures IsProcessed(db, id) ==> IsProcessed(ProcessEvent(db, event, valid, fault, now), id)
    ensures IsProcessed(ProcessEvent(db, event, valid, fault, now), id) && !IsProcessed(db, id) ==> event.id == id
  {
    HandlerFrame(db, event, now);
    TryFrame(db, Handle(db, event, now), event, fault, now);
    ConcludeStatus(db, Try(db, event, fault, now), event, valid, now, id);
  }

  /** Only a step that targets the id can change its status, and PROCESSED is never left. */
  lemma StatusChanges(db: Db, t: Timed, id: string)
    ensures IsProcessed(db, id) ==> IsProcessed(Exec(db, t), id)
    ensures IsProcessed(Exec(db, t), id) && !IsProcessed(db, id) ==> Targets(db, t.step, id)
  {
    var call := Attempting(db, t.step);
    if call.Some? {
      AttemptingIsProcessEvent(db, t);
      ProcessStatus(db, call.value.0, call.value.1, call.value.2, t.now, id);
    } else {
      LocalStepsFramed(db, t);
    }
  }

  /** What "redundant" means without looking at the tables: some earlier step of the run has succeeded on the id. */
  lemma {:induction false} ProcessedExactlyAfterSuccess(db: Db, steps: seq<Timed>, id: string)
    requires !IsProcessed(db, id)
    ensures IsProcessed(Run(db, steps), id) <==> SomeSuccess(db, steps, id)
  {
    if steps != [] {
      var n := |steps| - 1;
      ProcessedExactlyAfterSuccess(db, steps[..n], id);
      SuccessesSoFar(db, steps, id);
      StatusChanges(Run(db, steps[..n]), steps[n], id);
    }
  }

  predicate SuccessAt(db: Db, steps: seq<Timed>, id: string, j: nat)
    requires j < |steps|
  {
    Succeeds(Run(db, steps[..j]), steps[j], id)
  }

  predicate SomeSuccess(db: Db, steps: seq<Timed>, id: string) {
    exists j | 0 <= j < |steps| :: SuccessAt(db, steps, id, j)
  }

  lemma SuccessesSoFar(db: Db, steps: seq<Timed>, id: string)
    requires steps != []
    ensures SomeSuccess(db, steps, id) <==>
            SomeSuccess(db, steps[..|steps| - 1], id) || SuccessAt(db, steps, id, |steps| - 1)
  {
    var front := steps[..|steps| - 1];
    forall j | 0 <= j < |front| ensures SuccessAt(db, front, id, j) <==> SuccessAt(db, steps, id, j) {
      assert front[..j] == steps[..j];
    }
  }

  /** Once PROCESSED, an event id is PROCESSED at every later point of the run. */
  lemma {:induction false} ProcessedIsAbsorbing(db: Db, steps: seq<Timed>, id: string, i: nat, j: nat)
    requires i <= j <= |steps| && IsProcessed(Run(db, steps[..i]), id)
    ensures IsProcessed(Run(db, steps[..j]), id)
  {
    if i < j {
      ProcessedIsAbsorbing(db, steps, id, i, j - 1);
      assert steps[..j][..j - 1] == steps[..j - 1];
      StatusChanges(Run(db, steps[..j - 1]), steps[j - 1], id);
    }
  }

  /** Each event id succeeds at most once in a run, whatever is delivered, fails or is replayed in between. */
  lemma AtMostOneSuccess(db: Db, steps: seq<Timed>, id: string, i: nat, j: nat)
    requires i < |steps| && j < |steps|
    requires SuccessAt(db, steps, id, i) && SuccessAt(db, steps, id, j)
    ensures i == j
  {
    if i < j {
      NoSecondSuccess(db, steps, id, i, j);
    } else if j < i {
      NoSecondSuccess(db, steps, id, j, i);
    }
  }

  lemma NoSecondSuccess(db: Db, steps: seq<Timed>, id: string, i: nat, j: nat)
    requires i < j < |steps| && SuccessAt(db, steps, id, i)
    ensures !SuccessAt(db, steps, id, j)
  {
    assert steps[..i + 1][..i] == steps[..i];
    ProcessedIsAbsorbing(db, steps, id, i + 1, j);
  }

  // ---------------------------------------------------------------- one announcement per event

  /** The unique constraint on (event type, non-blank key). */
  ghost predicate KeysUnique(rows: seq<OutboxEvent>) {
    forall i, j | 0 <= i < j < |rows| ::
      rows[i].message.key != "" && rows[i].message.eventType == rows[j].message.eventType ==>
        rows[i].message.key != rows[j].message.key
  }

  lemma EnqueueKeepsUnique(rows: seq<OutboxEvent>, message: Message, now: int)
    requires KeysUnique(rows)
    ensures KeysUnique(Enqueue(rows, message, now))
  {
  }

  lemma DispatchKeepsMessages(rows: seq<OutboxEvent>, eventType: string, limit: nat, outcomes: seq<Outcome>, now: int)
    ensures var r := DispatchRound(rows, eventType, limit, outcomes, now);
            |r| == |rows| && forall i | 0 <= i < |rows| :: r[i].message == rows[i].message
  {
    var claims := Selected(rows, {}, now, eventType, limit);
    SelectionIsOldestFirst(rows, {}, now, eventType, limit);
    if |outcomes| == |claims| {
      DispatchRowByRow(rows, claims, now, outcomes);
    }
  }

  lemma RecalculationKeepsUnique(db: Db, customer: nat, reason: string, now: int)
    requires KeysUnique(db.outbox)
    ensures RecalculatedWithLog(db, customer, reason, now).Ok? ==>
              KeysUnique(RecalculatedWithLog(db, customer, reason, now).value.outbox)
  {
    if Recalculated(db, customer, reason, now).Ok? {
      var next := Recalculated(db, customer, reason, now).value;
      EnqueueKeepsUnique(db.outbox, ChangedMessage(customer, next.snapshots[customer].version, reason), now);
    }
  }

  lemma PublishKeepsUnique(db: Db, touched: Option<nat>, event: StripeEvent, fault: Fault, now: int)
    requires KeysUnique(db.outbox)
    ensures KeysUnique(Publish(db, touched, event, fault, now).db.outbox)
  {
    if touched.Some? {
      RecalculationKeepsUnique(db, touched.value, Reason(event), now);
      if RecalculatedWithLog(db, touched.value, Reason(event), now).Ok? {
        var rebuilt := RecalculatedWithLog(db, touched.value, Reason(event), now).value;
        EnqueueKeepsUnique(rebuilt.outbox, ProcessedMessage(touched.value, event), now);
      }
    }
  }

  lemma TryKeepsUnique(db: Db, h: Handled, event: StripeEvent, fault: Fault, now: int)
    requires KeysUnique(db.outbox) && Framed(db, h, event)
    ensures KeysUnique(TryWith(db, h, event, fault, now).db.outbox)
  {
    if h.Handled? {
      PublishKeepsUnique(h.db, h.touched, event, fault, now);
    }
  }

  lemma ProcessKeepsUnique(db: Db, event: StripeEvent, valid: bool, fault: Fault, now: int)
    requires KeysUnique(db.outbox)
    ensures KeysUnique(ProcessEvent(db, event, valid, fault, now).outbox)
  {
    HandlerFrame(db, event, now);
    TryKeepsUnique(db, Handle(db, event, now), event, fault, now);
  }

  lemma OtherStepsKeepUnique(db: Db, t: Timed)
    requires KeysUnique(db.outbox) && Attempting(db, t.step).None?
    ensures KeysUnique(Exec(db, t).outbox)
  {
    if t.step.RecalculateWithLog? {
      RecalculationKeepsUnique(db, t.step.loggedCustomer, t.step.loggedReason, t.now);
    } else if t.step.DispatchOutbox? {
      DispatchKeepsMessages(db.outbox, t.step.eventType, t.step.limit, t.step.outcomes, t.now);
    } else {
      LocalStepsFramed(db, t);
    }
  }

  lemma StepKeepsUnique(db: Db, t: Timed)
    requires KeysUnique(db.outbox)
    ensures KeysUnique(Exec(db, t).outbox)
  {
    var call := Attempting(db, t.step);
    if call.Some? {
      AttemptingIsProcessEvent(db, t);
      ProcessKeepsUnique(db, call.value.0, call.value.1, call.value.2, t.now);
    } else {
      OtherStepsKeepUnique(db, t);
    }
  }

  lemma {:induction false} RunKeepsUnique(db: Db, steps: seq<Timed>)
    requires KeysUnique(db.outbox)
    ensures KeysUnique(Run(db, steps).outbox)
  {
    if steps != [] {
      RunKeepsUnique(db, steps[..|steps| - 1]);
      StepKeepsUnique(Run(db, steps[..|steps| - 1]), steps[|steps| - 1]);
    }
  }

  /** Over every run, each event id has at most one `billing.provider_event.processed` row. */
  lemma AtMostOneAnnouncement(db: Db, steps: seq<Timed>, id: string, i: nat, j: nat)
    requires KeysUnique(db.outbox)
    requires var rows := Run(db, steps).outbox;
             && i < |rows| && j < |rows|
             && rows[i].message.eventType == rows[j].message.eventType == PROVIDER_EVENT_PROCESSED
             && rows[i].message.key == rows[j].message.key == ProcessedKey(id)
    ensures i == j
  {
    RunKeepsUnique(db, steps);
    ProcessedKeysAreInjective(id, id);
  }
}
