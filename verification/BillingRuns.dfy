/** Runs of the billing system: webhook deliveries and replays, local changes, recalculations, reads, and dispatch
    rounds in any order. */
module BillingRuns {
  import opened Prelude
  import opened Catalog
  import opened Subscriptions
  import opened Entitlements
  import opened Outbox
  import opened BillingState
  import opened Webhooks

  datatype Step =
    | Deliver(event: StripeEvent, signatureValid: bool, fault: Fault)
    | Replay(key: (string, string), replayFault: Fault)
    | ApplyChange(subscription: nat, change: Change)
    | AttachAddOn(attachTo: nat, addon: AddOn, quantity: nat)
    | Recalculate(customer: CustomerId, reason: string)
    | RecalculateWithLog(loggedCustomer: CustomerId, loggedReason: string)
    | ReadSnapshot(reader: CustomerId)
    | GrantManual(grantee: CustomerId, plan: Plan, price: Option<string>, status: Status, periodEnd: Option<int>)
    | AddOverride(overridden: nat, override: Entitlement)
    | CloseDunning(caseIndex: nat, resolved: bool)
    | DispatchOutbox(eventType: string, limit: nat, outcomes: seq<Outcome>)

  datatype Timed = Timed(now: int, step: Step)

  /** A request that raises outside a webhook changes nothing. */
  function OrUnchanged(r: Result<Db, string>, db: Db): Db {
    match r
    case Ok(next) => next
    case Raised(_) => db
  }

  function Closed(cases: seq<DunningCase>, i: nat, resolved: bool): seq<DunningCase> {
    if i < |cases| then cases[i := cases[i].(status := if resolved then DunningResolved else DunningCancelled)]
      else cases
  }

  function DispatchRound(rows: seq<OutboxEvent>, eventType: string, limit: nat, outcomes: seq<Outcome>, now: int)
    : seq<OutboxEvent>
  {
    var claims := Selected(rows, {}, now, eventType, limit);
    if |outcomes| == |claims| then DispatchRows(rows, claims, now, outcomes) else rows
  }

  function Exec(db: Db, t: Timed): Db {
    match t.step
    case Deliver(event, signatureValid, fault) => ProcessEvent(db, event, signatureValid, fault, t.now)
    case Replay(key, fault) => if key in db.webhooks then ReplayEvent(db, key, fault, t.now).0 else db
    case ApplyChange(id, change) => OrUnchanged(ChangeApplied(db, id, change, t.now), db)
    case AttachAddOn(id, addon, quantity) => OrUnchanged(AddOnAttached(db, id, addon, quantity, t.now), db)
    case Recalculate(customer, reason) => OrUnchanged(Recalculated(db, customer, reason, t.now), db)
    case RecalculateWithLog(customer, reason) => OrUnchanged(RecalculatedWithLog(db, customer, reason, t.now), db)
    case ReadSnapshot(customer) => if ReadThrough(db, customer, t.now).Ok? then ReadThrough(db, customer, t.now).value.0
                                   else db
    case GrantManual(customer, plan, price, status, periodEnd) =>
      ManuallyGranted(db, customer, plan, price, status, periodEnd, t.now)
    case AddOverride(id, row) => OrUnchanged(OverrideAdded(db, id, row), db)
    case CloseDunning(i, resolved) => db.(dunning := Closed(db.dunning, i, resolved))
    case DispatchOutbox(eventType, limit, outcomes) =>
      db.(outbox := DispatchRound(db.outbox, eventType, limit, outcomes, t.now))
  }

  function Run(db: Db, steps: seq<Timed>): Db {
    if steps == [] then db else Exec(Run(db, steps[..|steps| - 1]), steps[|steps| - 1])
  }

  lemma RunOne(db: Db, t: Timed)
    ensures Run(db, [t]) == Exec(db, t)
  {
    var steps := [t];
    var front := steps[..|steps| - 1];
    assert front == [];
    assert Run(db, front) == db;
    assert Run(db, steps) == Exec(Run(db, front), t);
  }

  /** Tables of a fresh installation: the catalogue only. */
  predicate IsEmpty(db: Db) {
    && db.subscriptions == [] && db.snapshots == map[] && db.changeLog == [] && db.outbox == [] && db.webhooks == map[]
    && db.checkouts == map[] && db.invoices == map[] && db.payments == map[] && db.dunning == [] && db.sync ==
       FRESH_SYNC
  }

  /** The call of the webhook processor that a step makes, if it makes one. */
  function Attempting(db: Db, step: Step): Option<(StripeEvent, bool, Fault)> {
    match step
    case Deliver(event, signatureValid, fault) => Some((event, signatureValid, fault))
    case Replay(key, fault) =>
      if key in db.webhooks && key.0 == "stripe"
      then Some((db.webhooks[key].payload, db.webhooks[key].signatureValid, fault)) else None
    case _ => None
  }

  lemma AttemptingIsProcessEvent(db: Db, t: Timed)
    requires Attempting(db, t.step).Some?
    ensures var (event, valid, fault) := Attempting(db, t.step).value;
            Exec(db, t) == ProcessEvent(db, event, valid, fault, t.now)
  {
  }

  // ---------------------------------------------------------------- what local steps leave alone

  predicate WritesSubscriptions(step: Step) {
    step.ApplyChange? || step.AttachAddOn? || step.GrantManual? || step.AddOverride?
  }

  /** Which tables a step that is no webhook call may write. */
  predicate LocalFrame(db: Db, next: Db, step: Step) {
    && next == db.(subscriptions := next.subscriptions, snapshots := next.snapshots, changeLog := next.changeLog,
                   outbox := next.outbox, dunning := next.dunning)
    && (!WritesSubscriptions(step) ==> next.subscriptions == db.subscriptions)
    && (!step.CloseDunning? ==> next.dunning == db.dunning)
    && (!step.RecalculateWithLog? ==> next.changeLog == db.changeLog)
    && (!step.RecalculateWithLog? && !step.DispatchOutbox? ==> next.outbox == db.outbox)
    && (step.GrantManual? || step.AddOverride? || step.CloseDunning? || step.DispatchOutbox? ==>
          next.snapshots == db.snapshots)
  }

  lemma ChangeFramed(db: Db, t: Timed)
    requires t.step.ApplyChange?
    ensures LocalFrame(db, Exec(db, t), t.step)
  {
  }

  lemma AttachFramed(db: Db, t: Timed)
    requires t.step.AttachAddOn?
    ensures LocalFrame(db, Exec(db, t), t.step)
  {
  }

  lemma RecalculateFramed(db: Db, t: Timed)
    requires t.step.Recalculate?
    ensures LocalFrame(db, Exec(db, t), t.step)
  {
    RecalculatedFrame(db, t.step.customer, t.step.reason, t.now);
  }

  lemma LoggedRecalculationFramed(db: Db, t: Timed)
    requires t.step.RecalculateWithLog?
    ensures LocalFrame(db, Exec(db, t), t.step)
  {
    LoggedFrame(db, t.step.loggedCustomer, t.step.loggedReason, t.now);
  }

  lemma ReadFramed(db: Db, t: Timed)
    requires t.step.ReadSnapshot?
    ensures LocalFrame(db, Exec(db, t), t.step)
  {
    RecalculatedFrame(db, t.step.reader, "api_read", t.now);
  }

  lemma GrantFramed(db: Db, t: Timed)
    requires t.step.GrantManual?
    ensures LocalFrame(db, Exec(db, t), t.step)
  {
  }

  lemma OverrideFramed(db: Db, t: Timed)
    requires t.step.AddOverride?
    ensures LocalFrame(db, Exec(db, t), t.step)
  {
    var r := OverrideAdded(db, t.step.overridden, t.step.override);
    assert r.Ok? ==> r.value == db.(subscriptions := r.value.subscriptions);
  }

  lemma OtherFramed(db: Db, t: Timed)
    requires t.step.CloseDunning? || t.step.DispatchOutbox?
    ensures LocalFrame(db, Exec(db, t), t.step)
  {
  }

  lemma UnhandledReplayFramed(db: Db, t: Timed)
    requires t.step.Replay? && Attempting(db, t.step).None?
    ensures LocalFrame(db, Exec(db, t), t.step)
  {
  }

  lemma LocalStepsFramed(db: Db, t: Timed)
    requires Attempting(db, t.step).None?
    ensures LocalFrame(db, Exec(db, t), t.step)
  {
    if t.step.ApplyChange? {
      ChangeFramed(db, t);
    } else if t.step.AttachAddOn? {
      AttachFramed(db, t);
    } else if t.step.Recalculate? {
      RecalculateFramed(db, t);
    } else if t.step.RecalculateWithLog? {
      LoggedRecalculationFramed(db, t);
    } else if t.step.ReadSnapshot? {
      ReadFramed(db, t);
    } else if t.step.GrantManual? {
      GrantFramed(db, t);
    } else if t.step.AddOverride? {
      OverrideFramed(db, t);
    } else if t.step.Replay? {
      UnhandledReplayFramed(db, t);
    } else {
      OtherFramed(db, t);
    }
  }

  // ---------------------------------------------------------------- every row keeps its seats and its id

  ghost predicate RowsInOrder(rows: seq<Subscription>) {
    forall i | 0 <= i < |rows| :: Seated(rows[i]) && rows[i].id == |rows| - 1 - i
  }

  lemma RowsInOrderDistinct(rows: seq<Subscription>)
    requires RowsInOrder(rows)
    ensures DistinctIds(rows)
  {
  }

  lemma ReplacedRowInOrder(rows: seq<Subscription>, i: nat, row: Subscription)
    requires RowsInOrder(rows) && i < |rows| && Seated(row) && row.id == rows[i].id
    ensures RowsInOrder(rows[i := row])
  {
  }

  lemma NewRowInOrder(rows: seq<Subscription>, row: Subscription)
    requires RowsInOrder(rows) && Seated(row) && row.id == |rows|
    ensures RowsInOrder([row] + rows)
  {
    var all := [row] + rows;
    forall i | 0 <= i < |all| ensures Seated(all[i]) && all[i].id == |all| - 1 - i {
      assert i > 0 ==> all[i] == rows[i - 1];
    }
  }

  lemma UpsertKeepsRows(rows: seq<Subscription>, customer: CustomerId, price: Price, obj: StripeObject)
    requires RowsInOrder(rows)
    ensures RowsInOrder(UpsertedRows(rows, customer, price, obj))
  {
    FindStripeFinds(rows, obj.id);
    var i := FindStripe(rows, obj.id);
    if i.Some? {
      ReplacedRowInOrder(rows, i.value, Upserted(rows[i.value], customer, price, obj));
    } else {
      NewRowInOrder(rows, Upserted(BlankRow(|rows|, customer, price.plan, obj.id), customer, price, obj));
    }
  }

  lemma CancelKeepsRows(db: Db, obj: StripeObject, now: int)
    requires RowsInOrder(db.subscriptions)
    ensures RowsInOrder(HandleCancel(db, obj, now).first.subscriptions)
  {
    FindStripeFinds(db.subscriptions, obj.id);
    var i := FindStripe(db.subscriptions, obj.id);
    if i.Some? {
      ReplacedRowInOrder(db.subscriptions, i.value, CancelledRow(db.subscriptions[i.value], obj, now));
    }
  }

  lemma HandlerKeepsRows(db: Db, event: StripeEvent, now: int)
    requires RowsInOrder(db.subscriptions)
    ensures var h := Handle(db, event, now); h.Handled? ==> RowsInOrder(h.first.subscriptions)
  {
    if event.kind.SubscriptionDeleted? {
      CancelKeepsRows(db, event.data, now);
    } else if ChangesSubscriptions(event) {
      if CustomerOf(db, event.data.customer).Some? && event.data.price in db.providerPrices {
        UpsertKeepsRows(db.subscriptions, CustomerOf(db, event.data.customer).value,
                        db.providerPrices[event.data.price], event.data);
      }
    } else {
      HandlerFrame(db, event, now);
    }
  }

  lemma ProcessKeepsRows(db: Db, event: StripeEvent, valid: bool, fault: Fault, now: int)
    requires RowsInOrder(db.subscriptions)
    ensures RowsInOrder(ProcessEvent(db, event, valid, fault, now).subscriptions)
  {
    HandlerFrame(db, event, now);
    HandlerKeepsRows(db, event, now);
    TryFrame(db, Handle(db, event, now), event, fault, now);
  }

  lemma ChangeKeepsRows(db: Db, id: nat, change: Change, now: int)
    requires RowsInOrder(db.subscriptions) && ChangeApplied(db, id, change, now).Ok?
    ensures RowsInOrder(ChangeApplied(db, id, change, now).value.subscriptions)
  {
    var i := RowIndex(db, id).value;
    ChangeKeepsSeats(db.subscriptions[i], change, now);
    ReplacedRowInOrder(db.subscriptions, i, ChangedRow(db.subscriptions[i], change, now).value);
  }

  lemma AttachKeepsRows(db: Db, id: nat, addon: AddOn, quantity: nat, now: int)
    requires RowsInOrder(db.subscriptions) && AddOnAttached(db, id, addon, quantity, now).Ok?
    ensures RowsInOrder(AddOnAttached(db, id, addon, quantity, now).value.subscriptions)
  {
    var i := RowIndex(db, id).value;
    var row := db.subscriptions[i];
    ReplacedRowInOrder(db.subscriptions, i, row.(addons := Attached(row.addons, addon, quantity)));
  }

  lemma GrantKeepsRows(db: Db, customer: CustomerId, plan: Plan, price: Option<string>, status: Status,
                       periodEnd: Option<int>, now: int)
    requires RowsInOrder(db.subscriptions)
    ensures RowsInOrder(ManuallyGranted(db, customer, plan, price, status, periodEnd, now).subscriptions)
  {
    NewRowInOrder(db.subscriptions, ManuallyGranted(db, customer, plan, price, status, periodEnd,
                                                    now).subscriptions[0]);
  }

  lemma OverrideKeepsRows(db: Db, id: nat, row: Entitlement)
    requires RowsInOrder(db.subscriptions) && OverrideAdded(db, id, row).Ok?
    ensures RowsInOrder(OverrideAdded(db, id, row).value.subscriptions)
  {
    var i := RowIndex(db, id).value;
    ReplacedRowInOrder(db.subscriptions, i, Overridden(db.subscriptions[i], row));
  }

  lemma LocalStepKeepsRows(db: Db, t: Timed)
    requires RowsInOrder(db.subscriptions) && Attempting(db, t.step).None?
    ensures RowsInOrder(Exec(db, t).subscriptions)
  {
    if t.step.ApplyChange? {
      if ChangeApplied(db, t.step.subscription, t.step.change, t.now).Ok? {
        ChangeKeepsRows(db, t.step.subscription, t.step.change, t.now);
      }
    } else if t.step.AttachAddOn? {
      if AddOnAttached(db, t.step.attachTo, t.step.addon, t.step.quantity, t.now).Ok? {
        AttachKeepsRows(db, t.step.attachTo, t.step.addon, t.step.quantity, t.now);
      }
    } else if t.step.GrantManual? {
      GrantKeepsRows(db, t.step.grantee, t.step.plan, t.step.price, t.step.status, t.step.periodEnd, t.now);
    } else if t.step.AddOverride? {
      if OverrideAdded(db, t.step.overridden, t.step.override).Ok? {
        OverrideKeepsRows(db, t.step.overridden, t.step.override);
      }
    } else {
      LocalStepsFramed(db, t);
    }
  }

  lemma StepKeepsRows(db: Db, t: Timed)
    requires RowsInOrder(db.subscriptions)
    ensures RowsInOrder(Exec(db, t).subscriptions)
  {
    var call := Attempting(db, t.step);
    if call.Some? {
      AttemptingIsProcessEvent(db, t);
      ProcessKeepsRows(db, call.value.0, call.value.1, call.value.2, t.now);
    } else {
      LocalStepKeepsRows(db, t);
    }
  }

  /** `quantity == seat_limit >= 1` and the numbering of rows survive every run, local or provider-driven. */
  lemma {:induction false} SeatsAlwaysMatchQuantity(db: Db, steps: seq<Timed>)
    requires RowsInOrder(db.subscriptions)
    ensures RowsInOrder(Run(db, steps).subscriptions)
  {
    if steps != [] {
      SeatsAlwaysMatchQuantity(db, steps[..|steps| - 1]);
      StepKeepsRows(Run(db, steps[..|steps| - 1]), steps[|steps| - 1]);
    }
  }

  // ---------------------------------------------------------------- Stripe rows stay unique

  /** No two rows carry the same Stripe id, so the upsert never finds more than one. */
  ghost predicate StripeIdsUnique(rows: seq<Subscription>) {
    forall i, j | 0 <= i < j < |rows| ::
      rows[i].provider == "stripe" && rows[j].provider == "stripe" ==>
        rows[i].providerSubscriptionId != rows[j].providerSubscriptionId
  }

  predicate SameProvider(a: Subscription, b: Subscription) {
    a.provider == b.provider && a.providerSubscriptionId == b.providerSubscriptionId
  }

  lemma ReplacedRowUnique(rows: seq<Subscription>, i: nat, row: Subscription)
    requires StripeIdsUnique(rows) && i < |rows| && SameProvider(rows[i], row)
    ensures StripeIdsUnique(rows[i := row])
  {
  }

  lemma NewRowUnique(rows: seq<Subscription>, row: Subscription)
    requires StripeIdsUnique(rows)
    requires row.provider == "stripe" ==> forall j | 0 <= j < |rows| :: !IsStripeRow(rows[j],
                                                                                     row.providerSubscriptionId)
    ensures StripeIdsUnique([row] + rows)
  {
    var all := [row] + rows;
    forall i, j | 0 <= i < j < |all| && all[i].provider == "stripe" && all[j].provider == "stripe"
      ensures all[i].providerSubscriptionId != all[j].providerSubscriptionId
    {
      assert all[j] == rows[j - 1];
      assert i > 0 ==> all[i] == rows[i - 1];
    }
  }

  lemma UpsertKeepsUnique(rows: seq<Subscription>, customer: CustomerId, price: Price, obj: StripeObject)
    requires StripeIdsUnique(rows)
    ensures StripeIdsUnique(UpsertedRows(rows, customer, price, obj))
  {
    FindStripeFinds(rows, obj.id);
    var i := FindStripe(rows, obj.id);
    if i.Some? {
      ReplacedRowUnique(rows, i.value, Upserted(rows[i.value], customer, price, obj));
    } else {
      NewRowUnique(rows, Upserted(BlankRow(|rows|, customer, price.plan, obj.id), customer, price, obj));
    }
  }

  lemma CancelKeepsUnique(db: Db, obj: StripeObject, now: int)
    requires StripeIdsUnique(db.subscriptions)
    ensures StripeIdsUnique(HandleCancel(db, obj, now).first.subscriptions)
  {
    FindStripeFinds(db.subscriptions, obj.id);
    var i := FindStripe(db.subscriptions, obj.id);
    if i.Some? {
      ReplacedRowUnique(db.subscriptions, i.value, CancelledRow(db.subscriptions[i.value], obj, now));
    }
  }

  lemma HandlerKeepsUnique(db: Db, event: StripeEvent, now: int)
    requires StripeIdsUnique(db.subscriptions)
    ensures var h := Handle(db, event, now); h.Handled? ==> StripeIdsUnique(h.first.subscriptions)
  {
    if event.kind.SubscriptionDeleted? {
      CancelKeepsUnique(db, event.data, now);
    } else if ChangesSubscriptions(event) {
      if CustomerOf(db, event.data.customer).Some? && event.data.price in db.providerPrices {
        UpsertKeepsUnique(db.subscriptions, CustomerOf(db, event.data.customer).value,
                          db.providerPrices[event.data.price], event.data);
      }
    } else {
      HandlerFrame(db, event, now);
    }
  }

  lemma ProcessKeepsUnique(db: Db, event: StripeEvent, valid: bool, fault: Fault, now: int)
    requires StripeIdsUnique(db.subscriptions)
    ensures StripeIdsUnique(ProcessEvent(db, event, valid, fault, now).subscriptions)
  {
    HandlerFrame(db, event, now);
    HandlerKeepsUnique(db, event, now);
    TryFrame(db, Handle(db, event, now), event, fault, now);
  }

  lemma ChangeKeepsUnique(db: Db, id: nat, change: Change, now: int)
    requires StripeIdsUnique(db.subscriptions) && ChangeApplied(db, id, change, now).Ok?
    ensures StripeIdsUnique(ChangeApplied(db, id, change, now).value.subscriptions)
  {
    var i := RowIndex(db, id).value;
    ReplacedRowUnique(db.subscriptions, i, ChangedRow(db.subscriptions[i], change, now).value);
  }

  lemma AttachKeepsUnique(db: Db, id: nat, addon: AddOn, quantity: nat, now: int)
    requires StripeIdsUnique(db.subscriptions) && AddOnAttached(db, id, addon, quantity, now).Ok?
    ensures StripeIdsUnique(AddOnAttached(db, id, addon, quantity, now).value.subscriptions)
  {
    var i := RowIndex(db, id).value;
    var row := db.subscriptions[i];
    ReplacedRowUnique(db.subscriptions, i, row.(addons := Attached(row.addons, addon, quantity)));
  }

  lemma GrantKeepsUnique(db: Db, customer: CustomerId, plan: Plan, price: Option<string>, status: Status,
                         periodEnd: Option<int>, now: int)
    requires StripeIdsUnique(db.subscriptions)
    ensures StripeIdsUnique(ManuallyGranted(db, customer, plan, price, status, periodEnd, now).subscriptions)
  {
    var row := ManuallyGranted(db, customer, plan, price, status, periodEnd, now).subscriptions[0];
    assert row.provider != "stripe" by {
      assert row.provider[0] == 'm';
    }
    NewRowUnique(db.subscriptions, row);
  }

  lemma OverrideKeepsUnique(db: Db, id: nat, row: Entitlement)
    requires StripeIdsUnique(db.subscriptions) && OverrideAdded(db, id, row).Ok?
    ensures StripeIdsUnique(OverrideAdded(db, id, row).value.subscriptions)
  {
    var i := RowIndex(db, id).value;
    ReplacedRowUnique(db.subscriptions, i, Overridden(db.subscriptions[i], row));
  }

  lemma LocalStepKeepsUnique(db: Db, t: Timed)
    requires StripeIdsUnique(db.subscriptions) && Attempting(db, t.step).None?
    ensures StripeIdsUnique(Exec(db, t).subscriptions)
  {
    if t.step.ApplyChange? {
      if ChangeApplied(db, t.step.subscription, t.step.change, t.now).Ok? {
        ChangeKeepsUnique(db, t.step.subscription, t.step.change, t.now);
      }
    } else if t.step.AttachAddOn? {
      if AddOnAttached(db, t.step.attachTo, t.step.addon, t.step.quantity, t.now).Ok? {
        AttachKeepsUnique(db, t.step.attachTo, t.step.addon, t.step.quantity, t.now);
      }
    } else if t.step.GrantManual? {
      GrantKeepsUnique(db, t.step.grantee, t.step.plan, t.step.price, t.step.status, t.step.periodEnd, t.now);
    } else if t.step.AddOverride? {
      if OverrideAdded(db, t.step.overridden, t.step.override).Ok? {
        OverrideKeepsUnique(db, t.step.overridden, t.step.override);
      }
    } else {
      LocalStepsFramed(db, t);
    }
  }

  /** Over every run one Stripe id names one row, although no constraint says so; MultipleObjectsReturned is never
      raised. */
  lemma {:induction false} StripeIdsStayUnique(db: Db, steps: seq<Timed>, providerId: string)
    requires StripeIdsUnique(db.subscriptions)
    ensures StripeIdsUnique(Run(db, steps).subscriptions)
    ensures !IsAmbiguous(Run(db, steps).subscriptions, providerId)
  {
    if steps != [] {
      StripeIdsStayUnique(db, steps[..|steps| - 1], providerId);
      var before := Run(db, steps[..|steps| - 1]);
      var t := steps[|steps| - 1];
      var call := Attempting(before, t.step);
      if call.Some? {
        AttemptingIsProcessEvent(before, t);
        ProcessKeepsUnique(before, call.value.0, call.value.1, call.value.2, t.now);
      } else {
        LocalStepKeepsUnique(before, t);
      }
    }
  }
}
