/** What a Stripe event leaves in the tables, by the texts and amounts it carries. */
module ProviderEffects {
  import opened Prelude
  import opened Catalog
  import opened Subscriptions
  import opened Entitlements
  import opened BillingState
  import opened Webhooks
  import opened BillingRuns

  // ---------------------------------------------------------------- subscriptions

  /** The instant lies before the time stamp, or there is none. */
  predicate IsBefore(t: int, stamp: int) {
    stamp == 0 || t < stamp
  }

  /** The instant is not past the time stamp, or there is none. */
  predicate IsNotPast(t: int, stamp: int) {
    stamp == 0 || t <= stamp
  }

  /** A date column holds the time stamp, and null for none. */
  predicate Dates(at: Option<int>, stamp: int) {
    (at.None? <==> stamp == 0) && (at.Some? ==> at.value == stamp)
  }

  /** The stored status, by the status text: five texts have one of their own, and any other text is PAST_DUE. */
  predicate StatusIsTold(status: Status, text: string) {
    && (status == Active <==> text == "active")
    && (status == Trialing <==> text == "trialing")
    && (status == Paused <==> text == "paused")
    && (status == Cancelled <==> text == "canceled")
    && (status == Expired <==> text == "incomplete_expired")
    && (status == PastDue <==> text !in {"active", "trialing", "paused", "canceled", "incomplete_expired"})
  }

  /** The row the event is about after an upsert: unique, since one Stripe id names one row. */
  predicate IsTheRow(rows: seq<Subscription>, i: nat, obj: StripeObject) {
    i < |rows| && rows[i].provider == "stripe" && rows[i].providerSubscriptionId == obj.id
  }

  /** What the row grants after an upsert, by the status text: "active" until the period end, "trialing" through the
      trial end, and every other text nothing to anybody at any instant. */
  ghost predicate GrantsAsTold(s: Subscription, customer: CustomerId, obj: StripeObject) {
    forall c, t ::
      Counts(s, c, t) <==>
      && c == customer
      && (obj.status == "active" || obj.status == "trialing")
      && (obj.status == "active" ==> IsBefore(t, obj.currentPeriodEnd))
      && (obj.status == "trialing" ==> IsNotPast(t, obj.trialEnd))
  }

  lemma UpsertedGrantsAsTold(row: Subscription, customer: CustomerId, price: Price, obj: StripeObject)
    ensures GrantsAsTold(Upserted(row, customer, price, obj), customer, obj)
  {
    var s := Upserted(row, customer, price, obj);
    assert obj.status == "active" ==> s.status == Active;
    assert obj.status == "trialing" ==> s.status == Trialing;
    assert obj.status != "active" && obj.status != "trialing" ==>
        s.status != Active && s.status != Trialing && s.status != Free;
  }

  /** A created or updated subscription of a known customer at a known price. */
  predicate IsUpsert(db: Db, event: StripeEvent) {
    && (event.kind.SubscriptionCreated? || event.kind.SubscriptionUpdated?)
    && CustomerOf(db, event.data.customer).Some? && event.data.price in db.providerPrices
  }

  /** Such an event leaves one row with its Stripe id: of the event's customer, at the plan and price it names, with its
      seats and ends, granting what its status text says. */
  lemma UpsertLeavesTheRow(db: Db, event: StripeEvent, now: int, i: nat)
    requires StripeIdsUnique(db.subscriptions) && IsUpsert(db, event)
    requires Handle(db, event, now).Handled? && IsTheRow(Handle(db, event, now).db.subscriptions, i, event.data)
    ensures var s := Handle(db, event, now).db.subscriptions[i];
            var customer := db.providerCustomers[event.data.customer];
            var price := db.providerPrices[event.data.price];
            && s.customer == customer && s.plan == price.plan && s.price == Some(price.code)
            && s.quantity == s.seatLimit == (if event.data.quantity == 0 then 1 else event.data.quantity)
            && s.cancelAtPeriodEnd == event.data.cancelAtPeriodEnd
            && Dates(s.trialEndsAt, event.data.trialEnd) && Dates(s.cancelledAt, event.data.canceledAt)
            && Dates(s.currentPeriodStart, event.data.currentPeriodStart)
            && Dates(s.currentPeriodEnd, event.data.currentPeriodEnd)
            && StatusIsTold(s.status, event.data.status)
            && GrantsAsTold(s, customer, event.data)
  {
    var obj := event.data;
    var customer, price := db.providerCustomers[obj.customer], db.providerPrices[obj.price];
    UpsertIsHandled(db, event, now);
    UpsertWritesAt(db.subscriptions, customer, price, obj, i);
    var row :| Handle(db, event, now).db.subscriptions[i] == Upserted(row, customer, price, obj);
    UpsertedGrantsAsTold(row, customer, price, obj);
    StatusIsStoredAsTold(obj.status);
  }

  lemma StatusIsStoredAsTold(text: string)
    ensures StatusIsTold(SubscriptionStatusOf(text), text)
  {
  }

  lemma UpsertIsHandled(db: Db, event: StripeEvent, now: int)
    requires IsUpsert(db, event) && Handle(db, event, now).Handled?
    ensures Handle(db, event, now).db.subscriptions ==
            UpsertedRows(db.subscriptions, db.providerCustomers[event.data.customer],
                         db.providerPrices[event.data.price], event.data)
  {
  }

  /** The row with the Stripe id is the one that the upsert has written. */
  lemma UpsertWritesAt(rows: seq<Subscription>, customer: CustomerId, price: Price, obj: StripeObject, i: nat)
    requires StripeIdsUnique(rows) && IsTheRow(UpsertedRows(rows, customer, price, obj), i, obj)
    ensures exists row :: UpsertedRows(rows, customer, price, obj)[i] == Upserted(row, customer, price, obj)
  {
    FindStripeFinds(rows, obj.id);
    UpsertKeepsUnique(rows, customer, price, obj);
    var found := FindStripe(rows, obj.id);
    var k := if found.Some? then found.value else 0;
    var row := if found.Some? then rows[k] else BlankRow(|rows|, customer, price.plan, obj.id);
    assert UpsertedRows(rows, customer, price, obj)[k] == Upserted(row, customer, price, obj);
    assert i == k;
  }

  /** And there is such a row. */
  lemma UpsertLeavesARow(db: Db, event: StripeEvent, now: int)
    requires StripeIdsUnique(db.subscriptions) && IsUpsert(db, event)
    ensures Handle(db, event, now).Handled?
    ensures exists i: nat :: IsTheRow(Handle(db, event, now).db.subscriptions, i, event.data)
  {
    var rows, obj := db.subscriptions, event.data;
    FindStripeFinds(rows, obj.id);
    var found := FindStripe(rows, obj.id);
    var h := Handle(db, event, now);
    assert h == HandleUpsert(db, obj);
    assert h.Handled?;
    assert IsTheRow(h.db.subscriptions, if found.Some? then found.value else 0, obj);
  }

  /** An update of a row there is keeps its place, its overrides and add-ons and its grace period, and every other row;
      a creation puts one row without overrides and add-ons in front of the others. */
  lemma UpsertKeepsOverrides(db: Db, event: StripeEvent, now: int)
    requires StripeIdsUnique(db.subscriptions) && IsUpsert(db, event) && Handle(db, event, now).Handled?
    ensures var rows := Handle(db, event, now).db.subscriptions;
            && (forall i: nat | IsTheRow(db.subscriptions, i, event.data) ::
                  && |rows| == |db.subscriptions| && rows == db.subscriptions[i := rows[i]]
                  && rows[i].overrides == db.subscriptions[i].overrides && rows[i].addons == db.subscriptions[i].addons
                  && rows[i].gracePeriodEndsAt == db.subscriptions[i].gracePeriodEndsAt)
            && ((forall i: nat :: !IsTheRow(db.subscriptions, i, event.data)) ==>
                  && |rows| == |db.subscriptions| + 1 && rows[1..] == db.subscriptions
                  && rows[0].overrides == [] && rows[0].addons == [] && rows[0].gracePeriodEndsAt.None?)
  {
    UpsertIsHandled(db, event, now);
    FindStripeFinds(db.subscriptions, event.data.id);
    var found := FindStripe(db.subscriptions, event.data.id);
    if found.Some? {
      assert IsTheRow(db.subscriptions, found.value, event.data);
    }
    forall i: nat | IsTheRow(db.subscriptions, i, event.data)
      ensures found == Some(i)
    {
      assert IsStripeRow(db.subscriptions[i], event.data.id);
    }
  }

  /** A deleted subscription grants nothing to anybody at any instant; its period end is the event's, or stays. */
  lemma DeletionEndsTheRow(db: Db, event: StripeEvent, now: int, i: nat)
    requires StripeIdsUnique(db.subscriptions) && event.kind.SubscriptionDeleted?
    requires IsTheRow(db.subscriptions, i, event.data)
    ensures var h := Handle(db, event, now);
            && h.Handled? && h.touched == Some(db.subscriptions[i].customer)
            && |h.db.subscriptions| == |db.subscriptions|
            && var s := h.db.subscriptions[i];
               && h.db.subscriptions == db.subscriptions[i := s]
               && (forall c, t :: !Counts(s, c, t))
               && s.cancelledAt == Some(if event.data.canceledAt == 0 then now else event.data.canceledAt)
               && s.currentPeriodEnd == (if event.data.currentPeriodEnd == 0 then db.subscriptions[i].currentPeriodEnd
                                         else Some(event.data.currentPeriodEnd))
               && s.customer == db.subscriptions[i].customer && s.plan == db.subscriptions[i].plan
  {
    FindStripeFinds(db.subscriptions, event.data.id);
  }

  // ---------------------------------------------------------------- invoices

  predicate IsInvoiceEvent(kind: EventType) {
    kind.InvoicePaidEvent? || kind.InvoicePaymentFailed? || kind.InvoiceFinalized? || kind.InvoiceVoided?
    || kind.InvoiceMarkedUncollectible?
  }

  /** The status an invoice carries, by its text: each of the five texts its own, any other text OPEN. */
  predicate InvoiceIsTold(status: InvoiceStatus, text: string) {
    && (text == "paid" <==> status == InvoicePaid)
    && (text == "draft" <==> status == InvoiceDraft)
    && (text == "void" <==> status == InvoiceVoid)
    && (text == "uncollectible" <==> status == InvoiceUncollectible)
  }

  /** An invoice event of a known customer leaves its invoice with the amounts and dates of the event and the status of
      its text, with a subscription exactly if it names a known one, and no other invoice changes. */
  lemma InvoiceEventLeavesInvoice(db: Db, event: StripeEvent, now: int)
    requires IsInvoiceEvent(event.kind) && event.data.customer in db.providerCustomers
    ensures var h := Handle(db, event, now);
            && h.Handled? && event.data.id in h.db.invoices
            && h.db.invoices == db.invoices[event.data.id := h.db.invoices[event.data.id]]
            && var invoice := h.db.invoices[event.data.id];
               && invoice.customer == db.providerCustomers[event.data.customer]
               && invoice.amountDueCents == event.data.amountDue && invoice.amountPaidCents == event.data.amountPaid
               && Dates(invoice.dueAt, event.data.dueDate) && Dates(invoice.paidAt, event.data.paidAt)
               && InvoiceIsTold(invoice.status, event.data.status)
               && (invoice.subscription.Some? <==>
                     exists i: nat ::
                       i < |db.subscriptions| && IsStripeRow(db.subscriptions[i], event.data.subscription))
               && (event.kind.InvoicePaymentFailed? || h.db.dunning == db.dunning)
  {
    InvoiceEventIsHandled(db, event, now);
    InvoiceIsWritten(db, event.data, event.kind.InvoicePaymentFailed?, now);
    InvoiceNamesSubscription(db, event.data);
    InvoiceStatusIsTold(event.data.status);
  }

  lemma InvoiceEventIsHandled(db: Db, event: StripeEvent, now: int)
    requires IsInvoiceEvent(event.kind)
    ensures Handle(db, event, now) == HandleInvoice(db, event.data, event.kind.InvoicePaymentFailed?, now)
  {
  }

  lemma InvoiceIsWritten(db: Db, obj: StripeObject, failed: bool, now: int)
    requires obj.customer in db.providerCustomers
    ensures var h := HandleInvoice(db, obj, failed, now);
            && h.Handled? && (failed || h.db.dunning == db.dunning)
            && h.db.invoices ==
               db.invoices[obj.id := Invoice(db.providerCustomers[obj.customer], InvoiceSubscription(db, obj),
                                             InvoiceStatusOf(obj.status), obj.amountDue, obj.amountPaid,
                                             Ts(obj.dueDate), Ts(obj.paidAt))]
  {
  }

  lemma InvoiceStatusIsTold(text: string)
    ensures InvoiceIsTold(InvoiceStatusOf(text), text)
  {
  }

  lemma InvoiceNamesSubscription(db: Db, obj: StripeObject)
    ensures InvoiceSubscription(db, obj).Some? <==>
            exists i: nat :: i < |db.subscriptions| && IsStripeRow(db.subscriptions[i], obj.subscription)
  {
    FindStripeFinds(db.subscriptions, obj.subscription);
    var found := FindStripe(db.subscriptions, obj.subscription);
    if found.Some? {
      assert IsStripeRow(db.subscriptions[found.value], obj.subscription);
    }
  }

  /** A failed payment leaves an open case about the invoice that says when it failed and when it will be retried. */
  lemma FailedPaymentLeavesCase(db: Db, event: StripeEvent, now: int)
    requires event.kind.InvoicePaymentFailed? && event.data.customer in db.providerCustomers
    ensures var h := Handle(db, event, now);
            && h.Handled?
            && exists c ::
                 && c in h.db.dunning && !IsClosed(c)
                 && c.debt.customer == db.providerCustomers[event.data.customer] && c.debt.invoice == event.data.id
                 && c.failedAttempts >= 1 && c.lastFailureAt == Some(now)
                 && c.nextRetryAt ==
                    (if event.data.nextPaymentAttempt == 0 then None else Some(event.data.nextPaymentAttempt))
  {
    var debt := Debt(db.providerCustomers[event.data.customer], InvoiceSubscription(db, event.data), event.data.id);
    OpenCaseFinds(db.dunning, debt);
    var i := OpenCase(db.dunning, debt);
    var h := Handle(db, event, now);
    assert h.db.dunning == Dunned(db.dunning, debt, Ts(event.data.nextPaymentAttempt), None, now);
    var k := if i.Some? then i.value else 0;
    assert h.db.dunning[k] in h.db.dunning && h.db.dunning[k].debt == debt;
  }

  // ---------------------------------------------------------------- payments and checkouts

  predicate IsPaymentEvent(kind: EventType) {
    kind.PaymentSucceeded? || kind.PaymentAttemptFailed? || kind.PaymentInProgress? || kind.PaymentRequiresAction?
  }

  /** A payment event of a known customer leaves its payment with the event's amount and the status its type stands
      for. */
  lemma PaymentEventLeavesPayment(db: Db, event: StripeEvent, now: int)
    requires IsPaymentEvent(event.kind) && event.data.customer in db.providerCustomers
    ensures var h := Handle(db, event, now);
            && h.Handled? && event.data.id in h.db.payments
            && h.db.payments == db.payments[event.data.id := h.db.payments[event.data.id]]
            && var payment := h.db.payments[event.data.id];
               && payment.customer == db.providerCustomers[event.data.customer]
               && payment.amountCents == event.data.amount
               && (payment.status == Succeeded <==> event.kind.PaymentSucceeded?)
               && (payment.status == PaymentFailed <==> event.kind.PaymentAttemptFailed?)
               && (payment.status == PaymentProcessing <==> event.kind.PaymentInProgress?)
               && (payment.status == RequiresAction <==> event.kind.PaymentRequiresAction?)
  {
    PaymentEventIsHandled(db, event, now);
  }

  lemma PaymentEventIsHandled(db: Db, event: StripeEvent, now: int)
    requires IsPaymentEvent(event.kind)
    ensures Handle(db, event, now) == HandlePayment(db, event.data, event.kind)
  {
  }

  /** A refunded charge marks the payment it belongs to, whoever the event names, and keeps its amount. */
  lemma RefundMarksPayment(db: Db, event: StripeEvent, now: int)
    requires event.kind.ChargeRefunded? && event.data.paymentIntent in db.payments
    ensures var h := Handle(db, event, now);
            var before := db.payments[event.data.paymentIntent];
            && h.Handled? && h.touched == Some(before.customer)
            && h.db.payments.Keys == db.payments.Keys
            && (forall id | id in db.payments && id != event.data.paymentIntent :: h.db.payments[id] == db.payments[id])
            && var payment := h.db.payments[event.data.paymentIntent];
               && payment.status == Refunded && payment.refundCharge == Some(event.data.id)
               && payment.amountCents == before.amountCents && payment.customer == before.customer
  {
  }

  /** A completed checkout is dated, an expired one is not; both keep their customer. */
  lemma CheckoutEventMarksCheckout(db: Db, event: StripeEvent, now: int)
    requires event.kind.CheckoutSessionCompleted? || event.kind.CheckoutSessionExpired?
    requires event.data.id in db.checkouts
    ensures var h := Handle(db, event, now);
            var before := db.checkouts[event.data.id];
            && h.Handled? && h.touched == Some(before.customer) && h.db.checkouts.Keys == db.checkouts.Keys
            && (forall id | id in db.checkouts && id != event.data.id :: h.db.checkouts[id] == db.checkouts[id])
            && var checkout := h.db.checkouts[event.data.id];
               && checkout.customer == before.customer
               && (event.kind.CheckoutSessionCompleted? ==>
                     checkout.status == CheckoutCompleted && checkout.completedAt == Some(now))
               && (event.kind.CheckoutSessionExpired? ==>
                     checkout.status == CheckoutExpired && checkout.completedAt == before.completedAt)
  {
  }

  /** An event about a customer that is not known, or of a type without a handler, writes nothing. */
  lemma StrangersChangeNothing(db: Db, event: StripeEvent, now: int)
    requires event.data.customer !in db.providerCustomers || event.kind.OtherType?
    requires !event.kind.ChargeRefunded? && !event.kind.SubscriptionDeleted?
    requires !event.kind.CheckoutSessionCompleted? && !event.kind.CheckoutSessionExpired?
    ensures Handle(db, event, now) == Handled(db, db, None)
  {
  }

  // ---------------------------------------------------------------- sync state

  /** The last event that succeeded is the cursor, unless its id is blank; a failure keeps it and leaves its error. */
  lemma SyncRemembersLastSuccess(db: Db, event: StripeEvent, valid: bool, fault: Fault, now: int)
    requires !fault.Escapes? && !IsProcessed(db, event.id)
    ensures var after := ProcessEvent(db, event, valid, fault, now).sync;
            match Try(db, event, fault, now)
            case Done(_) =>
              && after.cursor == (if event.id != "" then event.id else db.sync.cursor)
              && after.lastSuccessAt == Some(now) && after.lastError == ""
              && after.lastFailureAt == db.sync.lastFailureAt
            case Broken(_, error) =>
              && after.cursor == db.sync.cursor && after.lastSuccessAt == db.sync.lastSuccessAt
              && after.lastError == error && after.lastFailureAt == Some(now)
  {
    HandlerFrame(db, event, now);
    TryFrame(db, Handle(db, event, now), event, fault, now);
  }
}
