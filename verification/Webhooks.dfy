/** `process_stripe_event` and its handlers. */
module Webhooks {
  import opened Prelude
  import opened Catalog
  import opened Subscriptions
  import opened Entitlements
  import opened Outbox
  import opened BillingState

  /** `_ts`. */
  function Ts(value: int): Option<int> {
    if value == 0 then None else Some(value)
  }

  function CustomerOf(db: Db, providerId: string): Option<CustomerId> {
    Get(db.providerCustomers, providerId)
  }

  predicate IsStripeRow(s: Subscription, providerId: string) {
    s.provider == "stripe" && s.providerSubscriptionId == providerId
  }

  /** Newest Stripe row with this provider id. */
  function FindStripe(rows: seq<Subscription>, providerId: string): Option<nat> {
    if rows == [] then None
    else if IsStripeRow(rows[0], providerId) then Some(0)
    else
      var rest := FindStripe(rows[1..], providerId);
      if rest.Some? then Some(rest.value + 1) else None
  }

  lemma {:induction false} FindStripeFinds(rows: seq<Subscription>, providerId: string)
    ensures var i := FindStripe(rows, providerId);
            i.Some? ==> i.value < |rows| && IsStripeRow(rows[i.value], providerId)
    ensures var i := FindStripe(rows, providerId);
            i.None? ==> forall j | 0 <= j < |rows| :: !IsStripeRow(rows[j], providerId)
  {
    if rows != [] {
      FindStripeFinds(rows[1..], providerId);
      assert forall j | 1 <= j < |rows| :: rows[j] == rows[1..][j - 1];
    }
  }

  /** `update_or_create` raises MultipleObjectsReturned. */
  predicate IsAmbiguous(rows: seq<Subscription>, providerId: string) {
    exists i, j | 0 <= i < j < |rows| :: IsStripeRow(rows[i], providerId) && IsStripeRow(rows[j], providerId)
  }

  function SubscriptionStatusOf(status: string): Status {
    match status
    case "trialing" => Trialing
    case "active" => Active
    case "past_due" => PastDue
    case "paused" => Paused
    case "canceled" => Subscriptions.Cancelled
    case "incomplete_expired" => Expired
    case _ => PastDue
  }

  function InvoiceStatusOf(status: string): InvoiceStatus {
    match status
    case "paid" => InvoicePaid
    case "open" => InvoiceOpen
    case "draft" => InvoiceDraft
    case "void" => InvoiceVoid
    case "uncollectible" => InvoiceUncollectible
    case _ => InvoiceOpen
  }

  function PaymentStatusOf(kind: EventType): PaymentStatus {
    match kind
    case PaymentSucceeded => Succeeded
    case PaymentAttemptFailed => PaymentFailed
    case PaymentRequiresAction => RequiresAction
    case _ => PaymentProcessing
  }

  // ---------------------------------------------------------------- handlers

  /** What a handler leaves: the tables after its first write, after its last write, and the touched customer. A handler
      that raises by itself writes nothing. */
  datatype Handled = Handled(first: Db, db: Db, touched: Option<CustomerId>) | Raises(error: string)

  function Wrote(db: Db, touched: Option<CustomerId>): Handled {
    Handled(db, db, touched)
  }

  function HandleCheckout(db: Db, obj: StripeObject, completed: bool, now: int): Handled {
    if obj.id in db.checkouts then
      var c := db.checkouts[obj.id];
      var next := if completed then c.(status := CheckoutCompleted, completedAt := Some(now))
                  else c.(status := CheckoutExpired);
      Wrote(db.(checkouts := db.checkouts[obj.id := next]), Some(c.customer))
    else Wrote(db, CustomerOf(db, obj.customer))
  }

  /** The defaults of the upsert, written over an existing row. */
  function Upserted(row: Subscription, customer: CustomerId, price: Price, obj: StripeObject): Subscription {
    var quantity := if obj.quantity == 0 then 1 else obj.quantity;
    row.(customer := customer, plan := price.plan, price := Some(price.code),
         status := SubscriptionStatusOf(obj.status),
         quantity := quantity, seatLimit := quantity, trialEndsAt := Ts(obj.trialEnd),
         currentPeriodStart := Ts(obj.currentPeriodStart), currentPeriodEnd := Ts(obj.currentPeriodEnd),
         cancelAtPeriodEnd := obj.cancelAtPeriodEnd, cancelledAt := Ts(obj.canceledAt))
  }

  function BlankRow(id: nat, customer: CustomerId, plan: Plan, providerId: string): Subscription {
    Subscription(id, customer, plan, None, Active, 1, 1, None, None, None, None, false, None, "stripe", providerId, [],
                 [])
  }

  function UpsertedRows(rows: seq<Subscription>, customer: CustomerId, price: Price,
                        obj: StripeObject): seq<Subscription> {
    FindStripeFinds(rows, obj.id);
    var i := FindStripe(rows, obj.id);
    if i.Some? then rows[i.value := Upserted(rows[i.value], customer, price, obj)]
    else [Upserted(BlankRow(|rows|, customer, price.plan, obj.id), customer, price, obj)] + rows
  }

  function HandleUpsert(db: Db, obj: StripeObject): Handled {
    var customer := CustomerOf(db, obj.customer);
    if customer.None? then Wrote(db, None)
    else if obj.price !in db.providerPrices then Wrote(db, customer)
    else if IsAmbiguous(db.subscriptions, obj.id) then Raises("MultipleObjectsReturned")
    else
      var price := db.providerPrices[obj.price];
      Wrote(db.(subscriptions := UpsertedRows(db.subscriptions, customer.value, price, obj)), customer)
  }

  function CancelledRow(row: Subscription, obj: StripeObject, now: int): Subscription {
    row.(status := Subscriptions.Cancelled, cancelledAt := Some(Ts(obj.canceledAt).GetOr(now)),
         currentPeriodEnd := if Ts(obj.currentPeriodEnd).Some? then Ts(obj.currentPeriodEnd) else row.currentPeriodEnd)
  }

  function HandleCancel(db: Db, obj: StripeObject, now: int): Handled {
    FindStripeFinds(db.subscriptions, obj.id);
    var i := FindStripe(db.subscriptions, obj.id);
    if i.None? then Wrote(db, CustomerOf(db, obj.customer))
    else
      var row := db.subscriptions[i.value];
      Wrote(db.(subscriptions := db.subscriptions[i.value := CancelledRow(row, obj, now)]), Some(row.customer))
  }

  function InvoiceSubscription(db: Db, obj: StripeObject): Option<nat> {
    FindStripeFinds(db.subscriptions, obj.subscription);
    var i := FindStripe(db.subscriptions, obj.subscription);
    if i.Some? then Some(db.subscriptions[i.value].id) else None
  }

  function HandleInvoice(db: Db, obj: StripeObject, failed: bool, now: int): Handled {
    var customer := CustomerOf(db, obj.customer);
    if customer.None? then Wrote(db, None)
    else
      var subscription := InvoiceSubscription(db, obj);
      var invoice := Invoice(customer.value, subscription, InvoiceStatusOf(obj.status), obj.amountDue, obj.amountPaid,
                             Ts(obj.dueDate), Ts(obj.paidAt));
      var first := db.(invoices := db.invoices[obj.id := invoice]);
      if failed then
        var debt := Debt(customer.value, subscription, obj.id);
        Handled(first, first.(dunning := Dunned(db.dunning, debt, Ts(obj.nextPaymentAttempt), None, now)), customer)
      else Wrote(first, customer)
  }

  function HandlePayment(db: Db, obj: StripeObject, kind: EventType): Handled {
    var customer := CustomerOf(db, obj.customer);
    if customer.None? then Wrote(db, None)
    else Wrote(db.(payments := db.payments[obj.id := Payment(customer.value, PaymentStatusOf(kind), obj.amount, None)]),
               customer)
  }

  function HandleRefund(db: Db, obj: StripeObject): Handled {
    if obj.paymentIntent in db.payments then
      var p := db.payments[obj.paymentIntent];
      Wrote(db.(payments := db.payments[obj.paymentIntent := p.(status := Refunded, refundCharge := Some(obj.id))]),
            Some(p.customer))
    else Wrote(db, CustomerOf(db, obj.customer))
  }

  function Handle(db: Db, event: StripeEvent, now: int): Handled {
    match event.kind
    case CheckoutSessionCompleted => HandleCheckout(db, event.data, true, now)
    case CheckoutSessionExpired => HandleCheckout(db, event.data, false, now)
    case SubscriptionCreated => HandleUpsert(db, event.data)
    case SubscriptionUpdated => HandleUpsert(db, event.data)
    case SubscriptionDeleted => HandleCancel(db, event.data, now)
    case InvoicePaymentFailed => HandleInvoice(db, event.data, true, now)
    case InvoicePaidEvent => HandleInvoice(db, event.data, false, now)
    case InvoiceFinalized => HandleInvoice(db, event.data, false, now)
    case InvoiceVoided => HandleInvoice(db, event.data, false, now)
    case InvoiceMarkedUncollectible => HandleInvoice(db, event.data, false, now)
    case PaymentSucceeded => HandlePayment(db, event.data, event.kind)
    case PaymentAttemptFailed => HandlePayment(db, event.data, event.kind)
    case PaymentInProgress => HandlePayment(db, event.data, event.kind)
    case PaymentRequiresAction => HandlePayment(db, event.data, event.kind)
    case ChargeRefunded => HandleRefund(db, event.data)
    case OtherType(_) => Wrote(db, None)
  }

  // ---------------------------------------------------------------- one attempt

  /** Where an attempt goes wrong. An exception inside the try block keeps the writes made before it, except those
      of the nested recalculation, which has its own savepoint; an exception outside it rolls the whole call back. */
  datatype Fault =
    | NoFault
    | BeforeWrites(error: string)
    | BetweenWrites(error: string)
    | AfterHandler(error: string)
    | AfterRecalculation(error: string)
    | AfterEnqueue(error: string)
    | Escapes(error: string)

  /** The tables after the try block, and the error it ended with. */
  datatype Attempt = Done(db: Db) | Broken(db: Db, error: string)

  function Reason(event: StripeEvent): string {
    "stripe_webhook:" + TypeText(event.kind)
  }

  /** The try block after the handler. */
  function Publish(db: Db, touched: Option<CustomerId>, event: StripeEvent, fault: Fault, now: int): Attempt {
    if touched.None? then if fault.AfterRecalculation? || fault.AfterEnqueue? then Broken(db, fault.error) else Done(db)
    else
      match RecalculatedWithLog(db, touched.value, Reason(event), now)
      case Raised(e) => Broken(db, e)
      case Ok(rebuilt) =>
        if fault.AfterRecalculation? then Broken(rebuilt, fault.error)
        else
          var announced := rebuilt.(outbox := Enqueue(rebuilt.outbox, ProcessedMessage(touched.value, event), now));
          if fault.AfterEnqueue? then Broken(announced, fault.error) else Done(announced)
  }

  /** The try block, given what the handler does. */
  function TryWith(db: Db, h: Handled, event: StripeEvent, fault: Fault, now: int): Attempt {
    if fault.BeforeWrites? then Broken(db, fault.error)
    else
      match h
      case Raises(e) => Broken(db, e)
      case Handled(first, after, touched) =>
        if fault.BetweenWrites? then Broken(first, fault.error)
        else if fault.AfterHandler? then Broken(after, fault.error)
        else Publish(after, touched, event, fault, now)
  }

  function Try(db: Db, event: StripeEvent, fault: Fault, now: int): Attempt {
    TryWith(db, Handle(db, event, now), event, fault, now)
  }

  /** The sync state and the webhook row, written after either ending of the try block. */
  function Conclude(attempt: Attempt, event: StripeEvent, signatureValid: bool, now: int): Db {
    match attempt
    case Done(next) =>
      next.(sync := SyncSucceeded(next.sync, event.id, now),
            webhooks := next.webhooks[("stripe", event.id) :=
              WebhookEvent(event.kind, event, signatureValid, Processed, "", Some(now))])
    case Broken(next, e) =>
      next.(sync := SyncFailed(next.sync, e, now),
            webhooks := next.webhooks[("stripe", event.id) :=
              WebhookEvent(event.kind, event, signatureValid, WebhookFailed, e, Some(now))])
  }

  lemma ConcludeFrame(attempt: Attempt, event: StripeEvent, signatureValid: bool, now: int)
    ensures var after := Conclude(attempt, event, signatureValid, now);
            after == attempt.db.(sync := after.sync, webhooks := after.webhooks)
  {
  }

  predicate IsProcessed(db: Db, eventId: string) {
    ("stripe", eventId) in db.webhooks && db.webhooks[("stripe", eventId)].status == Processed
  }

  /** `process_stripe_event`. */
  function ProcessEvent(db: Db, event: StripeEvent, signatureValid: bool, fault: Fault, now: int): Db {
    if fault.Escapes? || IsProcessed(db, event.id) then db
    else Conclude(Try(db, event, fault, now), event, signatureValid, now)
  }

  datatype ReplayStatus = Replayed | ReplayFailed

  /** `replay_webhook_request`: the tables, and the status of the replay row. */
  function ReplayEvent(db: Db, key: (string, string), fault: Fault, now: int): (Db, ReplayStatus)
    requires key in db.webhooks
  {
    var row := db.webhooks[key];
    if key.0 != "stripe" then (db, ReplayFailed)
    else (ProcessEvent(db, row.payload, row.signatureValid, fault, now), if fault.Escapes? then ReplayFailed
          else Replayed)
  }

  // ---------------------------------------------------------------- what an attempt leaves alone

  predicate ChangesSubscriptions(event: StripeEvent) {
    event.kind.SubscriptionCreated? || event.kind.SubscriptionUpdated? || event.kind.SubscriptionDeleted?
  }

  /** Handlers write subscriptions, checkouts, invoices, payments and dunning cases only; subscriptions only for
      subscription events, and anything after the first write only for a failed invoice payment. */
  predicate Framed(db: Db, h: Handled, event: StripeEvent) {
    h.Handled? ==>
      && h.first == db.(subscriptions := h.first.subscriptions, checkouts := h.first.checkouts,
                        invoices := h.first.invoices, payments := h.first.payments)
      && h.db == h.first.(dunning := h.db.dunning)
      && (!ChangesSubscriptions(event) ==> h.first.subscriptions == db.subscriptions)
      && (!event.kind.InvoicePaymentFailed? ==> h.db == h.first)
  }

  lemma CheckoutFramed(db: Db, event: StripeEvent, completed: bool, now: int)
    ensures Framed(db, HandleCheckout(db, event.data, completed, now), event)
  {
  }

  lemma UpsertFramed(db: Db, event: StripeEvent)
    requires ChangesSubscriptions(event)
    ensures Framed(db, HandleUpsert(db, event.data), event)
  {
  }

  lemma CancelFramed(db: Db, event: StripeEvent, now: int)
    requires ChangesSubscriptions(event)
    ensures Framed(db, HandleCancel(db, event.data, now), event)
  {
  }

  lemma InvoiceFramed(db: Db, event: StripeEvent, failed: bool, now: int)
    requires failed ==> event.kind.InvoicePaymentFailed?
    ensures Framed(db, HandleInvoice(db, event.data, failed, now), event)
  {
  }

  lemma PaymentFramed(db: Db, event: StripeEvent)
    ensures Framed(db, HandlePayment(db, event.data, event.kind), event)
    ensures Framed(db, HandleRefund(db, event.data), event)
  {
  }

  lemma HandlerFrame(db: Db, event: StripeEvent, now: int)
    ensures Framed(db, Handle(db, event, now), event)
  {
    match event.kind
    case CheckoutSessionCompleted => CheckoutFramed(db, event, true, now);
    case CheckoutSessionExpired => CheckoutFramed(db, event, false, now);
    case SubscriptionCreated => UpsertFramed(db, event);
    case SubscriptionUpdated => UpsertFramed(db, event);
    case SubscriptionDeleted => CancelFramed(db, event, now);
    case InvoicePaymentFailed => InvoiceFramed(db, event, true, now);
    case InvoicePaidEvent => InvoiceFramed(db, event, false, now);
    case InvoiceFinalized => InvoiceFramed(db, event, false, now);
    case InvoiceVoided => InvoiceFramed(db, event, false, now);
    case InvoiceMarkedUncollectible => InvoiceFramed(db, event, false, now);
    case OtherType(_) =>
    case _ => PaymentFramed(db, event);
  }

  /** The part after the handler writes snapshots, change log and outbox only. */
  lemma PublishFrame(db: Db, touched: Option<CustomerId>, event: StripeEvent, fault: Fault, now: int)
    ensures var after := Publish(db, touched, event, fault, now).db;
            after == db.(snapshots := after.snapshots, changeLog := after.changeLog, outbox := after.outbox)
  {
    if touched.Some? {
      LoggedFrame(db, touched.value, Reason(event), now);
    }
  }

  lemma LoggedFrame(db: Db, customer: CustomerId, reason: string, now: int)
    ensures var r := RecalculatedWithLog(db, customer, reason, now);
            r.Ok? ==> r.value == db.(snapshots := r.value.snapshots, changeLog := r.value.changeLog,
                                     outbox := r.value.outbox)
  {
  }

  /** What the try block leaves alone, and where its subscriptions come from. */
  lemma TryFrame(db: Db, h: Handled, event: StripeEvent, fault: Fault, now: int)
    requires Framed(db, h, event)
    ensures var after := TryWith(db, h, event, fault, now).db;
            && after.webhooks == db.webhooks && after.sync == db.sync
            && after.providerCustomers == db.providerCustomers && after.providerPrices == db.providerPrices
            && (after.subscriptions == db.subscriptions || (h.Handled? && after.subscriptions == h.first.subscriptions))
            && (after.dunning == db.dunning || (h.Handled? && after.dunning == h.db.dunning))
  {
    if h.Handled? {
      PublishFrame(h.db, h.touched, event, fault, now);
    }
  }

  // ---------------------------------------------------------------- when an event is processed

  lemma {:induction false} StorableExactly(rows: seq<Subscription>, customer: CustomerId, now: int)
    ensures Storable(false, Entries(rows, customer, now)) <==>
            forall i | 0 <= i < |rows| :: Counts(rows[i], customer, now) ==> rows[i].currentPeriodEnd.None?
  {
    if rows != [] {
      var front := rows[..|rows| - 1];
      var before := Entries(front, customer, now);
      StorableExactly(front, customer, now);
      var all := before + [SubscriptionEntry(rows[|rows| - 1])];
      assert all[..|all| - 1] == before;
      assert Storable(false, all) <==> Storable(false, before) && rows[|rows| - 1].currentPeriodEnd.None? by {
        assert all[|all| - 1] == SubscriptionEntry(rows[|rows| - 1]);
        assert forall i | 0 <= i < |before| :: all[i] == before[i];
      }
    }
  }

  /** A snapshot can be rebuilt if and only if the features can be merged and, without an encoder for datetimes, no
      entitled subscription of the customer has a period end. */
  lemma RebuildableExactly(db: Db, customer: CustomerId, now: int)
    ensures StoredPayload(db, customer, now).Ok? <==>
            && Build(db.subscriptions, customer, now).Ok?
            && (db.encodesDates ||
                forall i | 0 <= i < |db.subscriptions| ::
                  Counts(db.subscriptions[i], customer, now) ==> db.subscriptions[i].currentPeriodEnd.None?)
  {
    StorableExactly(db.subscriptions, customer, now);
  }

  lemma ConcludeStatus(db: Db, attempt: Attempt, event: StripeEvent, valid: bool, now: int, id: string)
    requires attempt.db.webhooks == db.webhooks
    ensures var after := Conclude(attempt, event, valid, now);
            && (event.id != id ==> (IsProcessed(after, id) <==> IsProcessed(db, id)))
            && (IsProcessed(after, event.id) <==> attempt.Done?)
  {
  }

  lemma DoneExactly(db: Db, h: Handled, event: StripeEvent, now: int)
    ensures TryWith(db, h, event, NoFault, now).Done? <==>
            h.Handled? && (h.touched.Some? ==> StoredPayload(h.db, h.touched.value, now).Ok?)
  {
  }

  /** Left to itself, an event becomes PROCESSED if and only if its handler does not raise and the touched customer, if
      any, can be given a new snapshot. */
  lemma ProcessedExactly(db: Db, event: StripeEvent, valid: bool, now: int)
    requires !IsProcessed(db, event.id)
    ensures var h := Handle(db, event, now);
            IsProcessed(ProcessEvent(db, event, valid, NoFault, now), event.id) <==>
            h.Handled? && (h.touched.Some? ==> StoredPayload(h.db, h.touched.value, now).Ok?)
  {
    HandlerFrame(db, event, now);
    TryFrame(db, Handle(db, event, now), event, NoFault, now);
    DoneExactly(db, Handle(db, event, now), event, now);
    ConcludeStatus(db, Try(db, event, NoFault, now), event, valid, now, event.id);
  }

  /** A replay is REPLAYED exactly when the provider has a processor and no exception leaves it, and says nothing about
      the event: that one is PROCESSED afterwards exactly when it was before or its handler and the snapshot succeed. */
  lemma ReplayedExactly(db: Db, key: (string, string), fault: Fault, now: int)
    requires key in db.webhooks && key.1 == db.webhooks[key].payload.id
    ensures ReplayEvent(db, key, fault, now).1 == Replayed <==> key.0 == "stripe" && !fault.Escapes?
    ensures key.0 == "stripe" && fault.NoFault? ==>
              var event := db.webhooks[key].payload;
              var h := Handle(db, event, now);
              IsProcessed(ReplayEvent(db, key, fault, now).0, key.1) <==>
              || IsProcessed(db, key.1)
              || (h.Handled? && (h.touched.Some? ==> StoredPayload(h.db, h.touched.value, now).Ok?))
  {
    if key.0 == "stripe" && fault.NoFault? && !IsProcessed(db, key.1) {
      ProcessedExactly(db, db.webhooks[key].payload, db.webhooks[key].signatureValid, now);
    }
  }

  /** With the column as declared, an event that leaves its customer an entitled subscription with a period end always
      ends FAILED: the handler's writes stay, and snapshots, change log and outbox are not written. */
  lemma PeriodEndBlocksSnapshot(db: Db, event: StripeEvent, valid: bool, now: int, i: nat)
    requires !db.encodesDates && !IsProcessed(db, event.id)
    requires var h := Handle(db, event, now);
             && h.Handled? && h.touched.Some? && i < |h.db.subscriptions|
             && Counts(h.db.subscriptions[i], h.touched.value, now) && h.db.subscriptions[i].currentPeriodEnd.Some?
    ensures var after := ProcessEvent(db, event, valid, NoFault, now);
            && after.webhooks[("stripe", event.id)].status == WebhookFailed
            && after.subscriptions == Handle(db, event, now).db.subscriptions
            && after.snapshots == db.snapshots && after.changeLog == db.changeLog && after.outbox == db.outbox
  {
    var h := Handle(db, event, now);
    HandlerFrame(db, event, now);
    RebuildableExactly(h.db, h.touched.value, now);
    assert TryWith(db, h, event, NoFault, now).Broken? && TryWith(db, h, event, NoFault, now).db == h.db;
  }

  /** The commonest subscription event: a new active subscription of a known customer at a known price, with the period
      end in the future. */
  predicate IsOrdinaryCreation(db: Db, event: StripeEvent, now: int) {
    && event.kind.SubscriptionCreated? && event.data.status == "active"
    && CustomerOf(db, event.data.customer).Some? && event.data.price in db.providerPrices
    && FindStripe(db.subscriptions, event.data.id).None?
    && 0 <= now < event.data.currentPeriodEnd
  }

  /** With the column as declared it is written and ends FAILED. */
  lemma OrdinaryCreationFails(db: Db, event: StripeEvent, valid: bool, now: int)
    requires !db.encodesDates && !IsProcessed(db, event.id) && IsOrdinaryCreation(db, event, now)
    ensures var after := ProcessEvent(db, event, valid, NoFault, now);
            && after.webhooks[("stripe", event.id)].status == WebhookFailed
            && after.snapshots == db.snapshots
            && |after.subscriptions| == |db.subscriptions| + 1
            && after.subscriptions == [after.subscriptions[0]] + db.subscriptions
            && forall t | t <= now :: Counts(after.subscriptions[0], CustomerOf(db, event.data.customer).value, t)
  {
    FindStripeFinds(db.subscriptions, event.data.id);
    var customer, price := CustomerOf(db, event.data.customer).value, db.providerPrices[event.data.price];
    var row := Upserted(BlankRow(|db.subscriptions|, customer, price.plan, event.data.id), customer, price, event.data);
    assert row.status == Active && row.currentPeriodEnd == Some(event.data.currentPeriodEnd);
    var h := Handle(db, event, now);
    assert h.Handled? && h.touched == Some(customer) && h.db.subscriptions == [row] + db.subscriptions;
    PeriodEndBlocksSnapshot(db, event, valid, now, 0);
  }

  /** Replaying it is REPLAYED, and the event it ran ends FAILED once more. */
  lemma ReplayedDoesNotMeanProcessed(db: Db, key: (string, string), now: int)
    requires key in db.webhooks && key.0 == "stripe"
    requires db.webhooks[key].payload.id == key.1 && db.webhooks[key].status != Processed
    requires !db.encodesDates && IsOrdinaryCreation(db, db.webhooks[key].payload, now)
    ensures var (after, status) := ReplayEvent(db, key, NoFault, now);
            status == Replayed && after.webhooks[key].status == WebhookFailed
  {
    OrdinaryCreationFails(db, db.webhooks[key].payload, db.webhooks[key].signatureValid, now);
  }

  /** A processed event that touched a customer has been announced. */
  lemma SuccessAnnounces(db: Db, event: StripeEvent, valid: bool, fault: Fault, now: int)
    requires !fault.Escapes? && !IsProcessed(db, event.id)
    requires Try(db, event, fault, now).Done?
    requires Handle(db, event, now).Handled? && Handle(db, event, now).touched.Some?
    ensures HasKey(ProcessEvent(db, event, valid, fault, now).outbox, PROVIDER_EVENT_PROCESSED, ProcessedKey(event.id))
  {
    EnqueuedHasKey(db, Handle(db, event, now), event, fault, now);
  }

  lemma EnqueuedHasKey(db: Db, h: Handled, event: StripeEvent, fault: Fault, now: int)
    requires h.Handled? && h.touched.Some? && TryWith(db, h, event, fault, now).Done?
    ensures HasKey(TryWith(db, h, event, fault, now).db.outbox, PROVIDER_EVENT_PROCESSED, ProcessedKey(event.id))
  {
    var rebuilt := RecalculatedWithLog(h.db, h.touched.value, Reason(event), now).value;
    var m := ProcessedMessage(h.touched.value, event);
    var rows := Enqueue(rebuilt.outbox, m, now);
    if rows != rebuilt.outbox {
      assert rows[|rows| - 1].message == m;
    }
  }
}
