/** The billing services as they run: methods that change the tables in place. Every method leaves the tables in the
    state that the specification functions of BillingState and Webhooks name. */
module BillingDatabase {
  import opened Prelude
  import opened Catalog
  import opened Subscriptions
  import opened Entitlements
  import opened Outbox
  import opened BillingState
  import opened Webhooks
  import opened BillingRuns

  datatype RequestStatus = RequestPending | RequestApplied | RequestFailed

  /** A `SubscriptionChangeRequest` row. */
  class SubscriptionChangeRequest {
    const subscription: nat
    const change: Change
    var status: RequestStatus
    var appliedAt: Option<int>
    var error: string

    constructor (subscription: nat, change: Change)
      ensures this.subscription == subscription && this.change == change
      ensures status == RequestPending && appliedAt == None && error == ""
    {
      this.subscription, this.change := subscription, change;
      status, appliedAt, error := RequestPending, None, "";
    }
  }

  class Database {
    const encodesDates: bool
    const providerCustomers: map<string, CustomerId>
    const providerPrices: map<string, Price>
    var subscriptions: seq<Subscription>
    var snapshots: map<CustomerId, Snapshot>
    var changeLog: seq<ChangeLog>
    var outbox: seq<OutboxEvent>
    var webhooks: map<(string, string), WebhookEvent>
    var checkouts: map<string, Checkout>
    var invoices: map<string, Invoice>
    var payments: map<string, Payment>
    var dunning: seq<DunningCase>
    var sync: SyncState

    ghost function State(): Db
      reads this
    {
      Db(encodesDates, providerCustomers, providerPrices, subscriptions, snapshots, changeLog, outbox, webhooks,
         checkouts, invoices,
         payments, dunning, sync)
    }

    constructor (encodesDates: bool, providerCustomers: map<string, CustomerId>, providerPrices: map<string, Price>)
      ensures IsEmpty(State()) && this.encodesDates == encodesDates
      ensures this.providerCustomers == providerCustomers && this.providerPrices == providerPrices
    {
      this.encodesDates := encodesDates;
      this.providerCustomers, this.providerPrices := providerCustomers, providerPrices;
      subscriptions, snapshots, changeLog, outbox := [], map[], [], [];
      webhooks, checkouts, invoices, payments := map[], map[], map[], map[];
      dunning, sync := [], FRESH_SYNC;
    }

    // -------------------------------------------------------------- snapshots

    /** Returns the row that stands for the message: the one already there, or the new one at the end. */
    method EnqueueBillingOutboxEvent(message: Message, now: int) returns (event: OutboxEvent)
      modifies this`outbox
      ensures outbox == Enqueue(old(outbox), message, now)
      ensures event in outbox && event.message.eventType == message.eventType && event.message.key == message.key
      ensures outbox != old(outbox) ==> event == Fresh(message, now) == outbox[|outbox| - 1]
    {
      if message.key != "" {
        for i := 0 to |outbox|
          invariant State() == old(State())
          invariant !HasKey(outbox[..i], message.eventType, message.key)
        {
          if outbox[i].message.eventType == message.eventType && outbox[i].message.key == message.key {
            return outbox[i];
          }
          assert outbox[..i + 1] == outbox[..i] + [outbox[i]];
        }
        assert outbox[..|outbox|] == outbox;
      }
      event := Fresh(message, now);
      outbox := outbox + [event];
    }

    method RecalculateEntitlementSnapshot(customer: CustomerId, reason: string, now: int)
      returns (r: Result<Snapshot, string>)
      modifies this`snapshots
      ensures State() == OrUnchanged(Recalculated(old(State()), customer, reason, now), old(State()))
      ensures r.Ok? <==> Recalculated(old(State()), customer, reason, now).Ok?
      ensures match r case Ok(s) => customer in snapshots && snapshots[customer] == s
                      case Raised(e) => Recalculated(old(State()), customer, reason, now) == Raised(e)
    {
      var payload := BuildCustomerEntitlementsWithAddons(subscriptions, customer, now);
      if payload.Raised? {
        return Raised(payload.error);
      }
      for i := 0 to |payload.value.subscriptions|
        invariant State() == old(State())
        invariant Storable(encodesDates, payload.value.subscriptions[..i])
      {
        if !encodesDates && payload.value.subscriptions[i].currentPeriodEnd.Some? {
          return Raised(NOT_SERIALIZABLE);
        }
      }
      assert payload.value.subscriptions[..|payload.value.subscriptions|] == payload.value.subscriptions;
      var version := 1;
      if customer in snapshots {
        version := snapshots[customer].version + 1;
      }
      var snapshot := Snapshot(payload.value, version, now, None, reason);
      snapshots := snapshots[customer := snapshot];
      r := Ok(snapshot);
    }

    /** Atomic: when the computation raises, neither log nor outbox is written. */
    method RecalculateEntitlementSnapshotWithLog(customer: CustomerId, reason: string, now: int)
      returns (r: Result<Snapshot, string>)
      modifies this`snapshots, this`changeLog, this`outbox
      ensures State() == OrUnchanged(RecalculatedWithLog(old(State()), customer, reason, now), old(State()))
      ensures r.Ok? <==> RecalculatedWithLog(old(State()), customer, reason, now).Ok?
      ensures r.Raised? ==> RecalculatedWithLog(old(State()), customer, reason, now) == Raised(r.error)
    {
      var previousPayload := EmptyPayload;
      if customer in snapshots {
        previousPayload := snapshots[customer].payload;
      }
      r := RecalculateEntitlementSnapshot(customer, reason, now);
      if r.Ok? {
        changeLog := changeLog + [ChangeLog(customer, previousPayload, r.value.payload, reason)];
        var event := EnqueueBillingOutboxEvent(ChangedMessage(customer, r.value.version, reason), now);
      }
    }

    /** `OrganizationEntitlementSnapshotView.get`. */
    method ReadSnapshot(customer: CustomerId, now: int) returns (r: Result<Snapshot, string>)
      modifies this`snapshots
      ensures match ReadThrough(old(State()), customer, now)
              case Ok(answer) => State() == answer.0 && r == Ok(answer.1)
              case Raised(e) => State() == old(State()) && r == Raised(e)
    {
      if customer in snapshots && snapshots[customer].invalidatedAt.None? {
        return Ok(snapshots[customer]);
      }
      r := RecalculateEntitlementSnapshot(customer, "api_read", now);
    }

    method InvalidateSnapshot(customer: CustomerId, reason: string, now: int)
      modifies this`snapshots
      ensures snapshots == Invalidated(old(snapshots), customer, reason, now)
    {
      if customer in snapshots {
        var s := snapshots[customer];
        snapshots := snapshots[customer := s.(invalidatedAt := Some(now), reason := reason)];
      }
    }

    // -------------------------------------------------------------- local changes

    /** The branches on the action, field by field. */
    method ChangeRow(s: Subscription, change: Change, now: int) returns (r: Result<Subscription, string>)
      ensures r == ChangedRow(s, change, now)
    {
      var row := s;
      match change {
        case ChangePlan(plan, price) =>
          if plan.None? {
            return Raised("target_plan is required for change_plan");
          }
          row := row.(plan := plan.value);
          if price.Some? {
            row := row.(price := price);
          }
        case ChangeQuantity(quantity) =>
          if quantity.None? || quantity.value == 0 {
            return Raised("target_quantity is required for change_quantity");
          }
          row := row.(quantity := quantity.value);
          row := row.(seatLimit := quantity.value);
        case CancelAtPeriodEnd => row := row.(cancelAtPeriodEnd := true);
        case CancelNow =>
          row := row.(status := Status.Cancelled);
          row := row.(cancelledAt := Some(now));
          row := row.(currentPeriodEnd := Some(now));
        case Resume =>
          row := row.(cancelAtPeriodEnd := false);
          if row.status == Status.Cancelled || row.status == Expired || row.status == Paused {
            row := row.(status := Active);
            row := row.(cancelledAt := None);
          }
        case ExtendTrial(at) =>
          row := row.(status := Trialing);
          row := row.(trialEndsAt := at);
        case ExtendGrace(at) => row := row.(gracePeriodEndsAt := at);
        case UnsupportedAction => return Raised("Unsupported subscription change action");
      }
      r := Ok(row);
    }

    method ApplySubscriptionChange(request: SubscriptionChangeRequest, now: int) returns (r: Result<(), string>)
      modifies this`subscriptions, this`snapshots, request
      ensures State() == OrUnchanged(ChangeApplied(old(State()), request.subscription, request.change, now),
                                     old(State()))
      ensures r.Ok? <==> ChangeApplied(old(State()), request.subscription, request.change, now).Ok?
      ensures r.Ok? ==> request.status == RequestApplied && request.appliedAt == Some(now)
      ensures request.error == old(request.error)
      ensures r.Raised? ==> request.status == old(request.status) && request.appliedAt == old(request.appliedAt)
    {
      if request.subscription >= |subscriptions| {
        return Raised("Not found.");
      }
      var i := |subscriptions| - 1 - request.subscription;
      var changed := ChangeRow(subscriptions[i], request.change, now);
      if changed.Raised? {
        return Raised(changed.error);
      }
      subscriptions := subscriptions[i := changed.value];
      request.status := RequestApplied;
      request.appliedAt := Some(now);
      InvalidateSnapshot(changed.value.customer, "subscription_changed", now);
      r := Ok(());
    }

    /** `ApplySubscriptionChangeView.post`: a request that raises is marked FAILED and changes no table. */
    method PostSubscriptionChange(request: SubscriptionChangeRequest, now: int)
      modifies this`subscriptions, this`snapshots, request
      ensures State() == OrUnchanged(ChangeApplied(old(State()), request.subscription, request.change, now),
                                     old(State()))
      ensures request.status == if ChangeApplied(old(State()), request.subscription, request.change, now).Ok?
                                then RequestApplied else RequestFailed
    {
      var r := ApplySubscriptionChange(request, now);
      if r.Raised? {
        request.status := RequestFailed;
        request.error := r.error;
      }
    }

    method AttachSubscriptionAddon(id: nat, addon: AddOn, quantity: nat, now: int) returns (r: Result<(), string>)
      modifies this`subscriptions, this`snapshots
      ensures State() == OrUnchanged(AddOnAttached(old(State()), id, addon, quantity, now), old(State()))
      ensures r.Ok? <==> AddOnAttached(old(State()), id, addon, quantity, now).Ok?
    {
      if id >= |subscriptions| {
        return Raised("Not found.");
      }
      var i := |subscriptions| - 1 - id;
      var row := subscriptions[i];
      subscriptions := subscriptions[i := row.(addons := Attached(row.addons, addon, quantity))];
      InvalidateSnapshot(row.customer, "subscription_addon_changed", now);
      r := Ok(());
    }

    method GrantManualSubscription(customer: CustomerId, plan: Plan, price: Option<string>, status: Status,
                                   periodEnd: Option<int>, now: int)
      modifies this`subscriptions
      ensures State() == ManuallyGranted(old(State()), customer, plan, price, status, periodEnd, now)
    {
      var row := Subscription(|subscriptions|, customer, plan, price, status, 1, 1, None, None, Some(now), periodEnd,
                              false,
                              None, "manual", "", [], []);
      subscriptions := [row] + subscriptions;
    }

    /** `EntitlementListCreateView` for a subscription: the serializer looks for the key before the row is inserted. */
    method CreateSubscriptionEntitlement(id: nat, row: Entitlement) returns (r: Result<(), string>)
      modifies this`subscriptions
      ensures State() == OrUnchanged(OverrideAdded(old(State()), id, row), old(State()))
      ensures r.Ok? <==> OverrideAdded(old(State()), id, row).Ok?
    {
      if id >= |subscriptions| {
        return Raised("Invalid pk.");
      }
      var i := |subscriptions| - 1 - id;
      var s := subscriptions[i];
      for j := 0 to |s.overrides|
        invariant State() == old(State())
        invariant forall k | 0 <= k < j :: s.overrides[k].key != row.key
      {
        if s.overrides[j].key == row.key {
          return Raised("The fields subscription, key must make a unique set.");
        }
      }
      subscriptions := subscriptions[i := s.(overrides := s.overrides + [row])];
      r := Ok(());
    }

    // -------------------------------------------------------------- dunning and provider sync

    method OpenOrUpdateDunningCase(debt: Debt, retryAt: Option<int>, graceEndsAt: Option<int>, now: int)
      modifies this`dunning
      ensures dunning == Dunned(old(dunning), debt, retryAt, graceEndsAt, now)
    {
      OpenCaseFinds(dunning, debt);
      var found := OpenCase(dunning, debt);
      var c := DunningCase(debt, DunningOpen, 0, None, None, None);
      if found.Some? {
        c := dunning[found.value];
      }
      c := c.(failedAttempts := c.failedAttempts + 1);
      c := c.(lastFailureAt := Some(now));
      c := c.(nextRetryAt := retryAt);
      c := c.(graceEndsAt := graceEndsAt);
      if graceEndsAt.Some? {
        c := c.(status := DunningInGrace);
      }
      if found.Some? {
        dunning := dunning[found.value := c];
      } else {
        dunning := [c] + dunning;
      }
    }

    method UpdateProviderSyncSuccess(cursor: string, now: int)
      modifies this`sync
      ensures sync == SyncSucceeded(old(sync), cursor, now)
    {
      sync := sync.(status := Healthy);
      if cursor != "" {
        sync := sync.(cursor := cursor);
      }
      if sync.lastStartedAt.None? {
        sync := sync.(lastStartedAt := Some(now));
      }
      sync := sync.(lastSuccessAt := Some(now), lastError := "", errorCount := 0);
    }

    method UpdateProviderSyncFailure(error: string, now: int)
      modifies this`sync
      ensures sync == SyncFailed(old(sync), error, now)
    {
      if sync.errorCount >= 2 {
        sync := sync.(status := Failing);
      } else {
        sync := sync.(status := Degraded);
      }
      sync := sync.(lastFailureAt := Some(now), lastError := error);
      sync := sync.(errorCount := sync.errorCount + 1);
    }

    // -------------------------------------------------------------- webhook handlers

    method OnCheckout(obj: StripeObject, completed: bool, now: int) returns (touched: Option<CustomerId>)
      modifies this`checkouts
      ensures HandleCheckout(old(State()), obj, completed, now) == Wrote(State(), touched)
    {
      if obj.id in checkouts {
        var checkout := checkouts[obj.id];
        if completed {
          checkout := checkout.(status := CheckoutCompleted);
          checkout := checkout.(completedAt := Some(now));
        } else {
          checkout := checkout.(status := CheckoutExpired);
        }
        checkouts := checkouts[obj.id := checkout];
        return Some(checkout.customer);
      }
      touched := Get(providerCustomers, obj.customer);
    }

    method OnSubscriptionUpsert(obj: StripeObject) returns (r: Result<Option<CustomerId>, string>)
      modifies this`subscriptions
      ensures match HandleUpsert(old(State()), obj)
              case Handled(_, after, touched) => State() == after && r == Ok(touched)
              case Raises(e) => State() == old(State()) && r == Raised(e)
    {
      var customer := Get(providerCustomers, obj.customer);
      if customer.None? {
        return Ok(None);
      }
      if obj.price !in providerPrices {
        return Ok(customer);
      }
      var price := providerPrices[obj.price];
      if IsAmbiguous(subscriptions, obj.id) {
        return Raised("MultipleObjectsReturned");
      }
      FindStripeFinds(subscriptions, obj.id);
      var found := FindStripe(subscriptions, obj.id);
      var row := if found.Some? then subscriptions[found.value]
      else BlankRow(|subscriptions|, customer.value, price.plan, obj.id);
      var quantity := if obj.quantity == 0 then 1 else obj.quantity;
      row := row.(customer := customer.value, plan := price.plan, price := Some(price.code));
      row := row.(status := SubscriptionStatusOf(obj.status), quantity := quantity, seatLimit := quantity);
      row := row.(trialEndsAt := Ts(obj.trialEnd), currentPeriodStart := Ts(obj.currentPeriodStart),
                  currentPeriodEnd := Ts(obj.currentPeriodEnd));
      row := row.(cancelAtPeriodEnd := obj.cancelAtPeriodEnd, cancelledAt := Ts(obj.canceledAt));
      if found.Some? {
        subscriptions := subscriptions[found.value := row];
      } else {
        subscriptions := [row] + subscriptions;
      }
      r := Ok(customer);
    }

    method OnSubscriptionDeleted(obj: StripeObject, now: int) returns (touched: Option<CustomerId>)
      modifies this`subscriptions
      ensures HandleCancel(old(State()), obj, now) == Wrote(State(), touched)
    {
      FindStripeFinds(subscriptions, obj.id);
      var found := FindStripe(subscriptions, obj.id);
      if found.None? {
        return Get(providerCustomers, obj.customer);
      }
      var row := subscriptions[found.value];
      row := row.(status := Status.Cancelled);
      row := row.(cancelledAt := Some(Ts(obj.canceledAt).GetOr(now)));
      if Ts(obj.currentPeriodEnd).Some? {
        row := row.(currentPeriodEnd := Ts(obj.currentPeriodEnd));
      }
      subscriptions := subscriptions[found.value := row];
      touched := Some(row.customer);
    }

    /** With `breaks`, an exception is raised after the invoice has been written and before anything else is. */
    method OnInvoice(obj: StripeObject, failed: bool, breaks: bool, now: int) returns (touched: Option<CustomerId>)
      modifies this`invoices, this`dunning
      ensures var h := HandleInvoice(old(State()), obj, failed, now);
              State() == (if breaks then h.first else h.db) && touched == h.touched
    {
      touched := Get(providerCustomers, obj.customer);
      if touched.None? {
        return;
      }
      FindStripeFinds(subscriptions, obj.subscription);
      var found := FindStripe(subscriptions, obj.subscription);
      var subscription := if found.Some? then Some(subscriptions[found.value].id) else None;
      invoices := invoices[obj.id := Invoice(touched.value, subscription, InvoiceStatusOf(obj.status), obj.amountDue,
                                             obj.amountPaid, Ts(obj.dueDate), Ts(obj.paidAt))];
      if failed && !breaks {
        OpenOrUpdateDunningCase(Debt(touched.value, subscription, obj.id), Ts(obj.nextPaymentAttempt), None, now);
      }
    }

    method OnPayment(obj: StripeObject, kind: EventType) returns (touched: Option<CustomerId>)
      modifies this`payments
      ensures HandlePayment(old(State()), obj, kind) == Wrote(State(), touched)
    {
      touched := Get(providerCustomers, obj.customer);
      if touched.Some? {
        payments := payments[obj.id := Payment(touched.value, PaymentStatusOf(kind), obj.amount, None)];
      }
    }

    method OnRefund(obj: StripeObject) returns (touched: Option<CustomerId>)
      modifies this`payments
      ensures HandleRefund(old(State()), obj) == Wrote(State(), touched)
    {
      if obj.paymentIntent !in payments {
        return Get(providerCustomers, obj.customer);
      }
      var payment := payments[obj.paymentIntent];
      payment := payment.(status := Refunded);
      payment := payment.(refundCharge := Some(obj.id));
      payments := payments[obj.paymentIntent := payment];
      touched := Some(payment.customer);
    }

    method Dispatch(event: StripeEvent, breaks: bool, now: int) returns (r: Result<Option<CustomerId>, string>)
      modifies this`subscriptions, this`checkouts, this`invoices, this`payments, this`dunning
      ensures match Handle(old(State()), event, now)
              case Handled(first, after, touched) => State() == (if breaks then first else after) && r == Ok(touched)
              case Raises(e) => State() == old(State()) && r == Raised(e)
    {
      var touched;
      match event.kind {
        case CheckoutSessionCompleted => touched := OnCheckout(event.data, true, now);
        case CheckoutSessionExpired => touched := OnCheckout(event.data, false, now);
        case SubscriptionCreated =>
          r := OnSubscriptionUpsert(event.data);
          return;
        case SubscriptionUpdated =>
          r := OnSubscriptionUpsert(event.data);
          return;
        case SubscriptionDeleted => touched := OnSubscriptionDeleted(event.data, now);
        case InvoicePaymentFailed => touched := OnInvoice(event.data, true, breaks, now);
        case InvoicePaidEvent => touched := OnInvoice(event.data, false, breaks, now);
        case InvoiceFinalized => touched := OnInvoice(event.data, false, breaks, now);
        case InvoiceVoided => touched := OnInvoice(event.data, false, breaks, now);
        case InvoiceMarkedUncollectible => touched := OnInvoice(event.data, false, breaks, now);
        case PaymentSucceeded => touched := OnPayment(event.data, event.kind);
        case PaymentAttemptFailed => touched := OnPayment(event.data, event.kind);
        case PaymentInProgress => touched := OnPayment(event.data, event.kind);
        case PaymentRequiresAction => touched := OnPayment(event.data, event.kind);
        case ChargeRefunded => touched := OnRefund(event.data);
        case OtherType(_) => touched := None;
      }
      r := Ok(touched);
    }

    /** The try block; None means that it ended without an exception. */
    method TryEvent(event: StripeEvent, fault: Fault, now: int) returns (error: Option<string>)
      requires !fault.Escapes?
      modifies this`subscriptions, this`checkouts, this`invoices, this`payments, this`dunning,
               this`snapshots, this`changeLog, this`outbox
      ensures Try(old(State()), event, fault, now) == if error.None? then Done(State())
              else Broken(State(), error.value)
    {
      if fault.BeforeWrites? {
        return Some(fault.error);
      }
      var handled := Dispatch(event, fault.BetweenWrites?, now);
      if handled.Raised? {
        return Some(handled.error);
      }
      if fault.BetweenWrites? || fault.AfterHandler? {
        return Some(fault.error);
      }
      error := PublishChange(handled.value, event, fault, now);
    }

    method PublishChange(touched: Option<CustomerId>, event: StripeEvent, fault: Fault, now: int)
      returns (error: Option<string>)
      requires fault.NoFault? || fault.AfterRecalculation? || fault.AfterEnqueue?
      modifies this`snapshots, this`changeLog, this`outbox
      ensures Publish(old(State()), touched, event, fault, now) ==
              if error.None? then Done(State()) else Broken(State(), error.value)
    {
      if touched.Some? {
        var rebuilt := RecalculateEntitlementSnapshotWithLog(touched.value, Reason(event), now);
        if rebuilt.Raised? {
          return Some(rebuilt.error);
        }
        if fault.AfterRecalculation? {
          return Some(fault.error);
        }
        var announced := EnqueueBillingOutboxEvent(ProcessedMessage(touched.value, event), now);
      }
      error := if fault.NoFault? then None else Some(fault.error);
    }

    method ConcludeEvent(event: StripeEvent, signatureValid: bool, error: Option<string>, now: int)
      modifies this`sync, this`webhooks
      ensures State() == Conclude(if error.None? then Done(old(State())) else Broken(old(State()), error.value), event,
                                  signatureValid, now)
    {
      var status := Processed;
      if error.None? {
        UpdateProviderSyncSuccess(event.id, now);
      } else {
        UpdateProviderSyncFailure(error.value, now);
        status := WebhookFailed;
      }
      webhooks := webhooks[("stripe", event.id) :=
        WebhookEvent(event.kind, event, signatureValid, status, error.GetOr(""), Some(now))];
    }

    /** Atomic: an exception that escapes rolls everything back. */
    method ProcessStripeEvent(event: StripeEvent, signatureValid: bool, fault: Fault, now: int)
      modifies this
      ensures State() == ProcessEvent(old(State()), event, signatureValid, fault, now)
    {
      if fault.Escapes? {
        return;
      }
      var key := ("stripe", event.id);
      if key in webhooks && webhooks[key].status == Processed {
        return;
      }
      var error := TryEvent(event, fault, now);
      ConcludeEvent(event, signatureValid, error, now);
    }

    method ReplayWebhookRequest(key: (string, string), fault: Fault, now: int) returns (status: ReplayStatus)
      requires key in webhooks
      modifies this
      ensures (State(), status) == ReplayEvent(old(State()), key, fault, now)
    {
      var row := webhooks[key];
      if key.0 != "stripe" {
        return ReplayFailed;
      }
      ProcessStripeEvent(row.payload, row.signatureValid, fault, now);
      status := if fault.Escapes? then ReplayFailed else Replayed;
    }
  }
}
