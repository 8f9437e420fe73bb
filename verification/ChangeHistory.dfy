/** Entitlement change log, snapshot versions and the outbox tell one story. */
module ChangeHistory {
  import opened Prelude
  import opened Catalog
  import opened Entitlements
  import opened Outbox
  import opened BillingState
  import opened Webhooks
  import opened BillingRuns
  import ExactlyOnce

  predicate IsChange(m: Message) {
    m.eventType == ENTITLEMENTS_CHANGED
  }

  /** Customer and reason of every `billing.entitlements.changed` row, oldest first. */
  function ChangeRefs(rows: seq<OutboxEvent>): seq<(CustomerId, string)> {
    if rows == [] then []
    else
      var m := rows[|rows| - 1].message;
      ChangeRefs(rows[..|rows| - 1]) + if IsChange(m) then [(m.customer, m.reason)] else []
  }

  /** Customer and reason of every change-log row, oldest first. */
  function LogRefs(log: seq<ChangeLog>): seq<(CustomerId, string)> {
    if log == [] then [] else LogRefs(log[..|log| - 1]) + [(log[|log| - 1].customer, log[|log| - 1].reason)]
  }

  /** A published version belongs to the customer's snapshot history. */
  predicate Published(snapshots: map<CustomerId, Snapshot>, m: Message) {
    && m.customer in snapshots && m.version <= snapshots[m.customer].version
    && m.key == EntitlementsKey(m.customer, m.version)
  }

  ghost predicate AllPublished(snapshots: map<CustomerId, Snapshot>, rows: seq<OutboxEvent>) {
    forall i | 0 <= i < |rows| :: IsChange(rows[i].message) ==> Published(snapshots, rows[i].message)
  }

  ghost predicate VersionsIncrease(rows: seq<OutboxEvent>) {
    forall i, j | 0 <= i < j < |rows| ::
      IsChange(rows[i].message) && IsChange(rows[j].message) && rows[i].message.customer == rows[j].message.customer ==>
        rows[i].message.version < rows[j].message.version
  }

  ghost predicate OneStory(snapshots: map<CustomerId, Snapshot>, log: seq<ChangeLog>, rows: seq<OutboxEvent>) {
    AllPublished(snapshots, rows) && VersionsIncrease(rows) && ChangeRefs(rows) == LogRefs(log)
  }

  ghost predicate Consistent(db: Db) {
    OneStory(db.snapshots, db.changeLog, db.outbox)
  }

  /** Snapshots are never deleted and their versions never fall. */
  ghost predicate Grows(a: map<CustomerId, Snapshot>, b: map<CustomerId, Snapshot>) {
    forall c | c in a :: c in b && a[c].version <= b[c].version
  }

  lemma GrowthKeepsStory(a: map<CustomerId, Snapshot>, b: map<CustomerId, Snapshot>, log: seq<ChangeLog>,
                         rows: seq<OutboxEvent>)
    requires OneStory(a, log, rows) && Grows(a, b)
    ensures OneStory(b, log, rows)
  {
  }

  lemma OtherMessageKeepsStory(snapshots: map<CustomerId, Snapshot>, log: seq<ChangeLog>, rows: seq<OutboxEvent>,
                               m: Message, now: int)
    requires OneStory(snapshots, log, rows) && !IsChange(m)
    ensures OneStory(snapshots, log, Enqueue(rows, m, now))
  {
    var more := rows + [Fresh(m, now)];
    assert more[..|more| - 1] == rows;
  }

  /** The key of a real change is always new, so it is never suppressed. */
  lemma NextVersionIsNew(db: Db, c: CustomerId, reason: string)
    requires AllPublished(db.snapshots, db.outbox)
    ensures var m := ChangedMessage(c, NextVersion(db, c), reason); !HasKey(db.outbox, m.eventType, m.key)
  {
    var m := ChangedMessage(c, NextVersion(db, c), reason);
    forall i | 0 <= i < |db.outbox|
      ensures !(db.outbox[i].message.eventType == m.eventType && db.outbox[i].message.key == m.key)
    {
      var e := db.outbox[i].message;
      if IsChange(e) {
        KeysAreInjective(e.customer, e.version, c, NextVersion(db, c));
      }
    }
  }

  lemma AppendChange(snapshots: map<CustomerId, Snapshot>, log: seq<ChangeLog>, rows: seq<OutboxEvent>,
                     entry: ChangeLog,
                     version: nat, now: int)
    requires OneStory(snapshots, log, rows)
    requires entry.customer in snapshots && version <= snapshots[entry.customer].version
    requires forall i | 0 <= i < |rows| :: IsChange(rows[i].message) && rows[i].message.customer == entry.customer ==>
                                             rows[i].message.version < version
    ensures OneStory(snapshots, log + [entry], rows + [Fresh(ChangedMessage(entry.customer, version, entry.reason),
                                                             now)])
  {
    var e := Fresh(ChangedMessage(entry.customer, version, entry.reason), now);
    assert (rows + [e])[..|rows|] == rows && (log + [entry])[..|log|] == log;
  }

  lemma LoggedRecalculation(db: Db, c: CustomerId, reason: string, now: int)
    requires Consistent(db) && RecalculatedWithLog(db, c, reason, now).Ok?
    ensures Consistent(RecalculatedWithLog(db, c, reason, now).value)
    ensures var next := RecalculatedWithLog(db, c, reason, now).value;
            |next.outbox| == |db.outbox| + 1 && |next.changeLog| == |db.changeLog| + 1
  {
    var next := Recalculated(db, c, reason, now).value;
    var version := next.snapshots[c].version;
    NextVersionIsNew(db, c, reason);
    GrowthKeepsStory(db.snapshots, next.snapshots, db.changeLog, db.outbox);
    var entry := ChangeLog(c, PreviousPayload(db, c), next.snapshots[c].payload, reason);
    forall i | 0 <= i < |db.outbox| && IsChange(db.outbox[i].message) && db.outbox[i].message.customer == c
      ensures db.outbox[i].message.version < version
    {
      assert Published(db.snapshots, db.outbox[i].message);
    }
    AppendChange(next.snapshots, db.changeLog, db.outbox, entry, version, now);
  }

  lemma AnnouncedConsistent(db: Db, c: CustomerId, event: StripeEvent, now: int)
    requires Consistent(db)
    ensures Consistent(db.(outbox := Enqueue(db.outbox, ProcessedMessage(c, event), now)))
  {
    assert !IsChange(ProcessedMessage(c, event)) by {
      assert |PROVIDER_EVENT_PROCESSED| != |ENTITLEMENTS_CHANGED|;
    }
    OtherMessageKeepsStory(db.snapshots, db.changeLog, db.outbox, ProcessedMessage(c, event), now);
  }

  lemma PublishConsistent(db: Db, touched: Option<CustomerId>, event: StripeEvent, fault: Fault, now: int)
    requires Consistent(db)
    ensures Consistent(Publish(db, touched, event, fault, now).db)
  {
    if touched.Some? && RecalculatedWithLog(db, touched.value, Reason(event), now).Ok? {
      LoggedRecalculation(db, touched.value, Reason(event), now);
      AnnouncedConsistent(RecalculatedWithLog(db, touched.value, Reason(event), now).value, touched.value, event, now);
    }
  }

  lemma TryConsistent(db: Db, h: Handled, event: StripeEvent, fault: Fault, now: int)
    requires Consistent(db) && Framed(db, h, event)
    ensures Consistent(TryWith(db, h, event, fault, now).db)
  {
    if h.Handled? {
      PublishConsistent(h.db, h.touched, event, fault, now);
    }
  }

  lemma ProcessConsistent(db: Db, event: StripeEvent, valid: bool, fault: Fault, now: int)
    requires Consistent(db)
    ensures Consistent(ProcessEvent(db, event, valid, fault, now))
  {
    HandlerFrame(db, event, now);
    TryConsistent(db, Handle(db, event, now), event, fault, now);
    ConcludeFrame(Try(db, event, fault, now), event, valid, now);
  }

  lemma {:induction false} SameMessagesSameRefs(a: seq<OutboxEvent>, b: seq<OutboxEvent>)
    requires |a| == |b| && forall i | 0 <= i < |a| :: a[i].message == b[i].message
    ensures ChangeRefs(a) == ChangeRefs(b)
  {
    if a != [] {
      SameMessagesSameRefs(a[..|a| - 1], b[..|b| - 1]);
    }
  }

  lemma InvalidationGrows(db: Db, t: Timed)
    requires t.step.ApplyChange? || t.step.AttachAddOn?
    ensures Grows(db.snapshots, Exec(db, t).snapshots)
  {
  }

  lemma RecalculatedGrows(db: Db, c: CustomerId, reason: string, now: int)
    ensures Grows(db.snapshots, OrUnchanged(Recalculated(db, c, reason, now), db).snapshots)
  {
  }

  lemma RecalculationGrows(db: Db, t: Timed)
    requires t.step.Recalculate? || t.step.ReadSnapshot?
    ensures Grows(db.snapshots, Exec(db, t).snapshots)
  {
    if t.step.Recalculate? {
      RecalculatedGrows(db, t.step.customer, t.step.reason, t.now);
    } else {
      RecalculatedGrows(db, t.step.reader, "api_read", t.now);
    }
  }

  lemma SnapshotStepConsistent(db: Db, t: Timed)
    requires Consistent(db)
    requires t.step.ApplyChange? || t.step.AttachAddOn? || t.step.Recalculate? || t.step.ReadSnapshot?
    ensures Consistent(Exec(db, t))
  {
    LocalStepsFramed(db, t);
    if t.step.ApplyChange? || t.step.AttachAddOn? {
      InvalidationGrows(db, t);
    } else {
      RecalculationGrows(db, t);
    }
    GrowthKeepsStory(db.snapshots, Exec(db, t).snapshots, db.changeLog, db.outbox);
  }

  lemma LoggedStepConsistent(db: Db, t: Timed)
    requires Consistent(db) && t.step.RecalculateWithLog?
    ensures Consistent(Exec(db, t))
  {
    if RecalculatedWithLog(db, t.step.loggedCustomer, t.step.loggedReason, t.now).Ok? {
      LoggedRecalculation(db, t.step.loggedCustomer, t.step.loggedReason, t.now);
    }
  }

  lemma DispatchConsistent(db: Db, rows: seq<OutboxEvent>)
    requires Consistent(db)
    requires |rows| == |db.outbox| && forall i | 0 <= i < |rows| :: rows[i].message == db.outbox[i].message
    ensures Consistent(db.(outbox := rows))
  {
    SameMessagesSameRefs(db.outbox, rows);
  }

  lemma DispatchStepConsistent(db: Db, t: Timed)
    requires Consistent(db) && t.step.DispatchOutbox?
    ensures Consistent(Exec(db, t))
  {
    ExactlyOnce.DispatchKeepsMessages(db.outbox, t.step.eventType, t.step.limit, t.step.outcomes, t.now);
    DispatchConsistent(db, DispatchRound(db.outbox, t.step.eventType, t.step.limit, t.step.outcomes, t.now));
  }

  lemma LocalStepConsistent(db: Db, t: Timed)
    requires Consistent(db) && Attempting(db, t.step).None?
    ensures Consistent(Exec(db, t))
  {
    if t.step.RecalculateWithLog? {
      LoggedStepConsistent(db, t);
    } else if t.step.DispatchOutbox? {
      DispatchStepConsistent(db, t);
    } else if t.step.ApplyChange? || t.step.AttachAddOn? || t.step.Recalculate? || t.step.ReadSnapshot? {
      SnapshotStepConsistent(db, t);
    } else {
      LocalStepsFramed(db, t);
    }
  }

  /** Over every run: per customer the published versions strictly increase and never exceed the snapshot's, every
      key is the one of its customer and version, and the change log and the change events correspond one to one, in
      order. */
  lemma {:induction false} LogAndOutboxAgree(db: Db, steps: seq<Timed>)
    requires Consistent(db)
    ensures Consistent(Run(db, steps))
  {
    if steps != [] {
      LogAndOutboxAgree(db, steps[..|steps| - 1]);
      var before := Run(db, steps[..|steps| - 1]);
      var t := steps[|steps| - 1];
      var call := Attempting(before, t.step);
      if call.Some? {
        AttemptingIsProcessEvent(before, t);
        ProcessConsistent(before, call.value.0, call.value.1, call.value.2, t.now);
      } else {
        LocalStepConsistent(before, t);
      }
    }
  }

  /** As many log rows as change events, and the k-th ones are about the same customer for the same reason. */
  lemma {:induction false} RefsCorrespond(log: seq<ChangeLog>, k: nat)
    requires k < |log|
    ensures |LogRefs(log)| == |log| && LogRefs(log)[k] == (log[k].customer, log[k].reason)
  {
    if k < |log| - 1 {
      RefsCorrespond(log[..|log| - 1], k);
    } else if |log| > 1 {
      RefsCorrespond(log[..|log| - 1], 0);
    }
  }

  // ---------------------------------------------------------------- the chain of payloads

  /** The payload the last log row of the customer left. */
  function LastLogged(log: seq<ChangeLog>, c: CustomerId): Payload {
    if log == [] then EmptyPayload
    else if log[|log| - 1].customer == c then log[|log| - 1].newPayload
    else LastLogged(log[..|log| - 1], c)
  }

  /** Each log row starts from where the customer's preceding row ended. */
  ghost predicate Chained(log: seq<ChangeLog>) {
    forall k | 0 <= k < |log| :: log[k].previousPayload == LastLogged(log[..k], log[k].customer)
  }

  /** The snapshot holds what the last log row left. */
  ghost predicate Current(db: Db) {
    forall c :: PreviousPayload(db, c) == LastLogged(db.changeLog, c)
  }

  /** The step writes snapshots through the log only. */
  predicate LogsItsChanges(db: Db, t: Timed) {
    && !t.step.Recalculate?
    && (t.step.ReadSnapshot? ==> t.step.reader in db.snapshots && db.snapshots[t.step.reader].invalidatedAt.None?)
  }

  ghost predicate AllLogged(db: Db, steps: seq<Timed>) {
    steps != [] ==>
      AllLogged(db, steps[..|steps| - 1]) && LogsItsChanges(Run(db, steps[..|steps| - 1]), steps[|steps| - 1])
  }

  lemma LoggedRecalculationChains(db: Db, c: CustomerId, reason: string, now: int)
    requires Chained(db.changeLog) && Current(db) && RecalculatedWithLog(db, c, reason, now).Ok?
    ensures var next := RecalculatedWithLog(db, c, reason, now).value; Chained(next.changeLog) && Current(next)
  {
    var next := RecalculatedWithLog(db, c, reason, now).value;
    var log := next.changeLog;
    assert log[..|log| - 1] == db.changeLog;
    assert PreviousPayload(db, c) == LastLogged(db.changeLog, c);
    forall k | 0 <= k < |log| ensures log[k].previousPayload == LastLogged(log[..k], log[k].customer) {
      if k < |db.changeLog| {
        assert log[..k] == db.changeLog[..k];
      }
    }
    forall d ensures PreviousPayload(next, d) == LastLogged(log, d) {
      assert PreviousPayload(db, d) == LastLogged(db.changeLog, d);
    }
  }

  lemma OutboxIsNotChained(db: Db, outbox: seq<OutboxEvent>)
    requires Current(db)
    ensures Current(db.(outbox := outbox))
  {
    SamePayloadsStayCurrent(db, db.(outbox := outbox));
  }

  lemma PublishChains(db: Db, touched: Option<CustomerId>, event: StripeEvent, fault: Fault, now: int)
    requires Chained(db.changeLog) && Current(db)
    ensures var next := Publish(db, touched, event, fault, now).db; Chained(next.changeLog) && Current(next)
  {
    if touched.Some? && RecalculatedWithLog(db, touched.value, Reason(event), now).Ok? {
      LoggedRecalculationChains(db, touched.value, Reason(event), now);
      var rebuilt := RecalculatedWithLog(db, touched.value, Reason(event), now).value;
      OutboxIsNotChained(rebuilt, Enqueue(rebuilt.outbox, ProcessedMessage(touched.value, event), now));
    }
  }

  lemma SamePayloadsStayCurrent(a: Db, b: Db)
    requires Current(a) && a.changeLog == b.changeLog
    requires forall c :: PreviousPayload(a, c) == PreviousPayload(b, c)
    ensures Current(b)
  {
    forall c ensures PreviousPayload(b, c) == LastLogged(b.changeLog, c) {
      assert PreviousPayload(a, c) == LastLogged(a.changeLog, c);
    }
  }

  lemma TryChains(db: Db, h: Handled, event: StripeEvent, fault: Fault, now: int)
    requires Chained(db.changeLog) && Current(db) && Framed(db, h, event)
    ensures var next := TryWith(db, h, event, fault, now).db; Chained(next.changeLog) && Current(next)
  {
    if h.Handled? {
      SamePayloadsStayCurrent(db, h.first);
      SamePayloadsStayCurrent(db, h.db);
      PublishChains(h.db, h.touched, event, fault, now);
    }
  }

  lemma ConcludeChains(attempt: Attempt, event: StripeEvent, valid: bool, now: int)
    requires Chained(attempt.db.changeLog) && Current(attempt.db)
    ensures var next := Conclude(attempt, event, valid, now); Chained(next.changeLog) && Current(next)
  {
    SamePayloadsStayCurrent(attempt.db, Conclude(attempt, event, valid, now));
  }

  lemma ProcessChains(db: Db, event: StripeEvent, valid: bool, fault: Fault, now: int)
    requires Chained(db.changeLog) && Current(db)
    ensures var next := ProcessEvent(db, event, valid, fault, now); Chained(next.changeLog) && Current(next)
  {
    HandlerFrame(db, event, now);
    TryChains(db, Handle(db, event, now), event, fault, now);
    ConcludeChains(Try(db, event, fault, now), event, valid, now);
  }

  lemma InvalidationKeepsPayloads(db: Db, t: Timed)
    requires t.step.ApplyChange? || t.step.AttachAddOn?
    ensures forall c :: PreviousPayload(Exec(db, t), c) == PreviousPayload(db, c)
  {
  }

  lemma LocalStepChains(db: Db, t: Timed)
    requires Chained(db.changeLog) && Current(db) && Attempting(db, t.step).None? && LogsItsChanges(db, t)
    ensures Chained(Exec(db, t).changeLog) && Current(Exec(db, t))
  {
    if t.step.RecalculateWithLog? {
      if RecalculatedWithLog(db, t.step.loggedCustomer, t.step.loggedReason, t.now).Ok? {
        LoggedRecalculationChains(db, t.step.loggedCustomer, t.step.loggedReason, t.now);
      }
    } else {
      LocalStepsFramed(db, t);
      if t.step.ApplyChange? || t.step.AttachAddOn? {
        InvalidationKeepsPayloads(db, t);
      }
      SamePayloadsStayCurrent(db, Exec(db, t));
    }
  }

  /** If snapshots are rebuilt through the log only, each log row's previous payload is the customer's preceding new
      payload, and the last new payload is the snapshot. */
  lemma {:induction false} LogIsAChain(db: Db, steps: seq<Timed>)
    requires Chained(db.changeLog) && Current(db) && AllLogged(db, steps)
    ensures Chained(Run(db, steps).changeLog) && Current(Run(db, steps))
  {
    if steps != [] {
      LogIsAChain(db, steps[..|steps| - 1]);
      var before := Run(db, steps[..|steps| - 1]);
      var t := steps[|steps| - 1];
      var call := Attempting(before, t.step);
      if call.Some? {
        AttemptingIsProcessEvent(before, t);
        ProcessChains(before, call.value.0, call.value.1, call.value.2, t.now);
      } else {
        LocalStepChains(before, t);
      }
    }
  }

  /** The unlogged `recalculate_entitlement_snapshot` keeps the snapshot at the end of the chain exactly when it
      rebuilds the payload that was there. */
  lemma UnloggedRecalculationBreaksChainExactly(db: Db, c: CustomerId, reason: string, now: int)
    requires Current(db) && Recalculated(db, c, reason, now).Ok?
    ensures Current(Recalculated(db, c, reason, now).value) <==>
            Build(db.subscriptions, c, now) == Ok(PreviousPayload(db, c))
  {
    var next := Recalculated(db, c, reason, now).value;
    assert PreviousPayload(db, c) == LastLogged(db.changeLog, c);
    assert PreviousPayload(next, c) == Build(db.subscriptions, c, now).value;
    if Build(db.subscriptions, c, now) == Ok(PreviousPayload(db, c)) {
      SamePayloadsStayCurrent(db, next);
    }
  }
}
