/** The billing tables and the services that change them one at a time. */
module BillingState {
  import opened Prelude
  import opened Text
  import opened Catalog
  import opened Subscriptions
  import opened Entitlements
  import opened Outbox

  // ---------------------------------------------------------------- rows

  /** `EntitlementSnapshot`, one per customer. */
  datatype Snapshot = Snapshot(payload: Payload, version: nat, calculatedAt: int, invalidatedAt: Option<int>,
                               reason: string)

  /** `EntitlementChangeLog`, append-only. */
  datatype ChangeLog = ChangeLog(customer: CustomerId, previousPayload: Payload, newPayload: Payload, reason: string)

  datatype CheckoutStatus = CheckoutOpen | CheckoutCompleted | CheckoutExpired

  datatype Checkout = Checkout(customer: CustomerId, status: CheckoutStatus, completedAt: Option<int>)

  datatype InvoiceStatus = InvoiceDraft | InvoiceOpen | InvoicePaid | InvoiceVoid | InvoiceUncollectible

  datatype Invoice = Invoice(
    customer: CustomerId, subscription: Option<nat>, status: InvoiceStatus, amountDueCents: nat, amountPaidCents: nat,
    dueAt: Option<int>, paidAt: Option<int>
  )

  datatype PaymentStatus = RequiresAction | PaymentProcessing | Succeeded | PaymentFailed | Refunded

  datatype Payment = Payment(customer: CustomerId, status: PaymentStatus, amountCents: nat,
                             refundCharge: Option<string>)

  datatype DunningStatus = DunningOpen | DunningInGrace | DunningRestricted | DunningResolved | DunningCancelled

  /** What a dunning case is about; the invoice is named by its provider id. */
  datatype Debt = Debt(customer: CustomerId, subscription: Option<nat>, invoice: string)

  datatype DunningCase = DunningCase(
    debt: Debt, status: DunningStatus, failedAttempts: nat, lastFailureAt: Option<int>, nextRetryAt: Option<int>,
    graceEndsAt: Option<int>
  )

  datatype SyncStatus = Healthy | Degraded | Failing

  /** The `ProviderSyncState` row of (stripe, webhook). */
  datatype SyncState = SyncState(
    status: SyncStatus, cursor: string, lastStartedAt: Option<int>, lastSuccessAt: Option<int>,
    lastFailureAt: Option<int>, lastError: string, errorCount: nat
  )

  const FRESH_SYNC := SyncState(Healthy, "", None, None, None, "", 0)

  datatype WebhookStatus = Received | Processed | WebhookFailed | Ignored

  /** The fields of the Stripe payloads that the handlers read; 0 and "" stand for absent values. */
  datatype StripeObject = StripeObject(
    id: string, customer: string, subscription: string, paymentIntent: string, status: string, price: string,
    quantity: nat, trialEnd: int, currentPeriodStart: int, currentPeriodEnd: int, canceledAt: int,
    cancelAtPeriodEnd: bool, nextPaymentAttempt: int, dueDate: int, paidAt: int,
    amountDue: nat, amountPaid: nat, amount: nat
  )

  /** The event types that `process_stripe_event` dispatches on; any other type has no handler. */
  datatype EventType =
    | CheckoutSessionCompleted
    | CheckoutSessionExpired
    | SubscriptionCreated
    | SubscriptionUpdated
    | SubscriptionDeleted
    | InvoicePaidEvent
    | InvoicePaymentFailed
    | InvoiceFinalized
    | InvoiceVoided
    | InvoiceMarkedUncollectible
    | PaymentSucceeded
    | PaymentAttemptFailed
    | PaymentInProgress
    | PaymentRequiresAction
    | ChargeRefunded
    | OtherType(text: string)

  function TypeText(kind: EventType): string {
    match kind
    case CheckoutSessionCompleted => "checkout.session.completed"
    case CheckoutSessionExpired => "checkout.session.expired"
    case SubscriptionCreated => "customer.subscription.created"
    case SubscriptionUpdated => "customer.subscription.updated"
    case SubscriptionDeleted => "customer.subscription.deleted"
    case InvoicePaidEvent => "invoice.paid"
    case InvoicePaymentFailed => "invoice.payment_failed"
    case InvoiceFinalized => "invoice.finalized"
    case InvoiceVoided => "invoice.voided"
    case InvoiceMarkedUncollectible => "invoice.marked_uncollectible"
    case PaymentSucceeded => "payment_intent.succeeded"
    case PaymentAttemptFailed => "payment_intent.payment_failed"
    case PaymentInProgress => "payment_intent.processing"
    case PaymentRequiresAction => "payment_intent.requires_action"
    case ChargeRefunded => "charge.refunded"
    case OtherType(text) => text
  }

  datatype StripeEvent = StripeEvent(id: string, kind: EventType, data: StripeObject)

  datatype WebhookEvent = WebhookEvent(
    kind: EventType, payload: StripeEvent, signatureValid: bool, status: WebhookStatus, error: string,
      processedAt: Option<int>
  )

  /** All billing tables. `subscriptions` is newest first, `changeLog` and `outbox` oldest first; the two provider
      maps resolve Stripe customer and price ids and are not changed by any step. `encodesDates` says whether the JSON
      column of payloads accepts datetimes; the column as declared has no encoder for them, so it is false for the
      repository as it stands. Everything about runs is proved for both values. */
  datatype Db = Db(
    encodesDates: bool,
    providerCustomers: map<string, CustomerId>,
    providerPrices: map<string, Price>,
    subscriptions: seq<Subscription>,
    snapshots: map<CustomerId, Snapshot>,
    changeLog: seq<ChangeLog>,
    outbox: seq<OutboxEvent>,
    webhooks: map<(string, string), WebhookEvent>,
    checkouts: map<string, Checkout>,
    invoices: map<string, Invoice>,
    payments: map<string, Payment>,
    dunning: seq<DunningCase>,
    sync: SyncState
  )

  // ---------------------------------------------------------------- outbox messages

  const ENTITLEMENTS_CHANGED := "billing.entitlements.changed"
  const PROVIDER_EVENT_PROCESSED := "billing.provider_event.processed"

  function EntitlementsKey(customer: CustomerId, version: nat): string {
    "entitlements:" + (Decimal(customer) + ":" + Decimal(version))
  }

  function ProcessedKey(eventId: string): string {
    "stripe:" + (eventId + ":processed")
  }

  function ChangedMessage(customer: CustomerId, version: nat, reason: string): Message {
    Message(ENTITLEMENTS_CHANGED, customer, EntitlementsKey(customer, version), version, reason)
  }

  function ProcessedMessage(customer: CustomerId, event: StripeEvent): Message {
    Message(PROVIDER_EVENT_PROCESSED, customer, ProcessedKey(event.id), 0, TypeText(event.kind))
  }

  lemma DigitsHaveNoColon(n: nat)
    ensures ':' !in Decimal(n)
  {
    DecimalRoundTrip(n);
  }

  lemma AfterPrefix(prefix: string, a: string, b: string)
    ensures prefix + a == prefix + b <==> a == b
  {
    assert (prefix + a)[|prefix|..] == a && (prefix + b)[|prefix|..] == b;
  }

  /** The idempotency keys never confuse two customers, two versions, or two provider events. */
  lemma KeysAreInjective(c: CustomerId, v: nat, d: CustomerId, w: nat)
    ensures EntitlementsKey(c, v) == EntitlementsKey(d, w) <==> c == d && v == w
  {
    AfterPrefix("entitlements:", Decimal(c) + ":" + Decimal(v), Decimal(d) + ":" + Decimal(w));
    if EntitlementsKey(c, v) == EntitlementsKey(d, w) {
      DigitsHaveNoColon(c);
      DigitsHaveNoColon(d);
      FirstSeparator(Decimal(c), Decimal(v), Decimal(d), Decimal(w), ':');
      DecimalRoundTrip(c);
      DecimalRoundTrip(d);
      DecimalRoundTrip(v);
      DecimalRoundTrip(w);
    }
  }

  lemma ProcessedKeysAreInjective(e: string, f: string)
    ensures ProcessedKey(e) == ProcessedKey(f) <==> e == f
    ensures |ProcessedKey(e)| > 0
  {
    AfterPrefix("stripe:", e + ":processed", f + ":processed");
    if e + ":processed" == f + ":processed" {
      assert (e + ":processed")[..|e|] == e && (f + ":processed")[..|f|] == f;
    }
  }

  // ---------------------------------------------------------------- snapshots

  function PreviousPayload(db: Db, customer: CustomerId): Payload {
    if customer in db.snapshots then db.snapshots[customer].payload else EmptyPayload
  }

  function NextVersion(db: Db, customer: CustomerId): nat {
    if customer in db.snapshots then db.snapshots[customer].version + 1 else 1
  }

  const NOT_SERIALIZABLE := "Object of type datetime is not JSON serializable"

  /** The payload can be written to its JSON column. */
  predicate Storable(encodesDates: bool, entries: seq<SubscriptionPayload>) {
    encodesDates || forall i | 0 <= i < |entries| :: entries[i].currentPeriodEnd.None?
  }

  /** The payload a recalculation stores; it raises when it cannot be computed or not be saved. */
  function StoredPayload(db: Db, customer: CustomerId, now: int): Result<Payload, string> {
    match Build(db.subscriptions, customer, now)
    case Raised(e) => Raised(e)
    case Ok(payload) =>
      if Storable(db.encodesDates, Entries(db.subscriptions, customer, now)) then Ok(payload)
        else Raised(NOT_SERIALIZABLE)
  }

  /** `recalculate_entitlement_snapshot`. */
  function Recalculated(db: Db, customer: CustomerId, reason: string, now: int): Result<Db, string> {
    match StoredPayload(db, customer, now)
    case Raised(e) => Raised(e)
    case Ok(payload) =>
      Ok(db.(snapshots := db.snapshots[customer := Snapshot(payload, NextVersion(db, customer), now, None, reason)]))
  }

  lemma RecalculatedFrame(db: Db, customer: CustomerId, reason: string, now: int)
    ensures var r := Recalculated(db, customer, reason, now); r.Ok? ==> r.value == db.(snapshots := r.value.snapshots)
  {
  }

  /** `recalculate_entitlement_snapshot_with_log`; atomic. */
  function RecalculatedWithLog(db: Db, customer: CustomerId, reason: string, now: int): Result<Db, string> {
    match Recalculated(db, customer, reason, now)
    case Raised(e) => Raised(e)
    case Ok(next) =>
      var snapshot := next.snapshots[customer];
      Ok(next.(
           changeLog := db.changeLog + [ChangeLog(customer, PreviousPayload(db, customer), snapshot.payload, reason)],
           outbox := Enqueue(db.outbox, ChangedMessage(customer, snapshot.version, reason), now)))
  }

  /** `EntitlementSnapshot.objects.filter(customer=...).update(invalidated_at=now, reason=...)`. */
  function Invalidated(snapshots: map<CustomerId, Snapshot>, customer: CustomerId, reason: string, now: int)
    : map<CustomerId, Snapshot>
  {
    if customer in snapshots
    then snapshots[customer := snapshots[customer].(invalidatedAt := Some(now), reason := reason)] else snapshots
  }

  /** What `OrganizationEntitlementSnapshotView.get` answers, and the state it leaves. */
  function ReadThrough(db: Db, customer: CustomerId, now: int): Result<(Db, Snapshot), string> {
    if customer in db.snapshots && db.snapshots[customer].invalidatedAt.None? then Ok((db, db.snapshots[customer]))
    else
      match Recalculated(db, customer, "api_read", now)
      case Raised(e) => Raised(e)
      case Ok(next) => Ok((next, next.snapshots[customer]))
  }

  // ---------------------------------------------------------------- subscriptions

  /** Position of the row with this id; ids count rows from the oldest. */
  function RowIndex(db: Db, id: nat): Option<nat> {
    if id < |db.subscriptions| then Some(|db.subscriptions| - 1 - id) else None
  }

  /** `apply_subscription_change` for a change that the provider accepted. */
  function ChangeApplied(db: Db, id: nat, change: Change, now: int): Result<Db, string> {
    var i := RowIndex(db, id);
    if i.None? then Raised("Not found.")
    else
      match ChangedRow(db.subscriptions[i.value], change, now)
      case Raised(e) => Raised(e)
      case Ok(row) =>
        Ok(db.(subscriptions := db.subscriptions[i.value := row],
               snapshots := Invalidated(db.snapshots, row.customer, "subscription_changed", now)))
  }

  /** Update the attachment of this add-on, or insert one in add-on code order. */
  function Attached(attachments: seq<Attachment>, addon: AddOn, quantity: nat): seq<Attachment> {
    var a := Attachment(addon, AttachmentActive, quantity);
    if attachments == [] then [a]
    else if attachments[0].addon.code == addon.code then [a] + attachments[1..]
    else if Below(addon.code, attachments[0].addon.code) then [a] + attachments
    else [attachments[0]] + Attached(attachments[1..], addon, quantity)
  }

  /** `attach_subscription_addon`. */
  function AddOnAttached(db: Db, id: nat, addon: AddOn, quantity: nat, now: int): Result<Db, string> {
    var i := RowIndex(db, id);
    if i.None? then Raised("Not found.")
    else
      var row := db.subscriptions[i.value];
      Ok(db.(subscriptions := db.subscriptions[i.value := row.(addons := Attached(row.addons, addon, quantity))],
             snapshots := Invalidated(db.snapshots, row.customer, "subscription_addon_changed", now)))
  }

  predicate HasOverride(s: Subscription, key: string) {
    exists i | 0 <= i < |s.overrides| :: s.overrides[i].key == key
  }

  function Overridden(s: Subscription, row: Entitlement): Subscription {
    s.(overrides := s.overrides + [row])
  }

  /** `EntitlementListCreateView` for a subscription: one override per key, and no word to the snapshot. */
  function OverrideAdded(db: Db, id: nat, row: Entitlement): Result<Db, string> {
    var i := RowIndex(db, id);
    if i.None? then Raised("Invalid pk.")
    else if HasOverride(db.subscriptions[i.value],
                        row.key) then Raised("The fields subscription, key must make a unique set.")
    else Ok(db.(subscriptions := db.subscriptions[i.value := Overridden(db.subscriptions[i.value], row)]))
  }

  /** The override shows under its key over everything the row had before. */
  lemma OverriddenEntitlements(s: Subscription, row: Entitlement)
    ensures EffectiveEntitlements(Overridden(s, row)) == EffectiveEntitlements(s)[row.key := row.Value()]
  {
    assert Overridden(s, row).overrides[..|s.overrides|] == s.overrides;
  }

  /** `grant_manual_subscription`: a new row, and no word to the snapshot. */
  function ManuallyGranted(db: Db, customer: CustomerId, plan: Plan, price: Option<string>, status: Status,
                           periodEnd: Option<int>, now: int): Db {
    var row := Subscription(|db.subscriptions|, customer, plan, price, status, 1, 1, None, None, Some(now), periodEnd,
                            false,
                            None, "manual", "", [], []);
    db.(subscriptions := [row] + db.subscriptions)
  }

  function AddOnCodes(attachments: seq<Attachment>): seq<string> {
    seq(|attachments|, i requires 0 <= i < |attachments| => attachments[i].addon.code)
  }

  /** A subscription has one attachment per add-on, in code order, and attaching keeps it so: the add-on's attachment is
      the new one and all others stay. */
  lemma AttachingReplacesOne(attachments: seq<Attachment>, addon: AddOn, quantity: nat, a: Attachment)
    requires Ascending(AddOnCodes(attachments))
    ensures Ascending(AddOnCodes(Attached(attachments, addon, quantity)))
    ensures a in Attached(attachments, addon, quantity) <==>
            if a.addon.code == addon.code then a == Attachment(addon, AttachmentActive, quantity) else a in attachments
  {
    AttachedElements(attachments, addon, quantity, a);
    AttachedAscends(attachments, addon, quantity);
  }

  lemma {:induction false} AttachedElements(attachments: seq<Attachment>, addon: AddOn, quantity: nat, a: Attachment)
    requires Ascending(AddOnCodes(attachments))
    ensures a in Attached(attachments, addon, quantity) <==>
            if a.addon.code == addon.code then a == Attachment(addon, AttachmentActive, quantity) else a in attachments
  {
    if attachments == [] {
    } else {
      assert attachments == [attachments[0]] + attachments[1..];
      if attachments[0].addon.code == addon.code {
        LaterCodesDiffer(attachments);
      } else if Below(addon.code, attachments[0].addon.code) {
        BelowAllIsAbsent(attachments, addon.code);
      } else {
        TailAscends(attachments);
        AttachedElements(attachments[1..], addon, quantity, a);
      }
    }
  }

  lemma {:induction false} AttachedAscends(attachments: seq<Attachment>, addon: AddOn, quantity: nat)
    requires Ascending(AddOnCodes(attachments))
    ensures Ascending(AddOnCodes(Attached(attachments, addon, quantity)))
  {
    var r := Attached(attachments, addon, quantity);
    if attachments == [] {
    } else if attachments[0].addon.code == addon.code {
      assert AddOnCodes(r) == AddOnCodes(attachments);
    } else if Below(addon.code, attachments[0].addon.code) {
      BelowAllIsAbsent(attachments, addon.code);
      assert AddOnCodes(r) == [addon.code] + AddOnCodes(attachments);
    } else {
      var head, tail := attachments[0], attachments[1..];
      TailAscends(attachments);
      AttachedAscends(tail, addon, quantity);
      BelowIsStrictOrder(head.addon.code, addon.code, head.addon.code);
      var rest := Attached(tail, addon, quantity);
      forall j | 0 <= j < |rest| ensures Below(head.addon.code, rest[j].addon.code) {
        AttachedElements(tail, addon, quantity, rest[j]);
        if rest[j].addon.code != addon.code {
          var k :| 0 <= k < |tail| && tail[k] == rest[j];
          CodesAscend(attachments, 0, k + 1);
        }
      }
      assert AddOnCodes(r) == [head.addon.code] + AddOnCodes(rest);
    }
  }

  lemma TailAscends(attachments: seq<Attachment>)
    requires Ascending(AddOnCodes(attachments)) && attachments != []
    ensures Ascending(AddOnCodes(attachments[1..]))
  {
    assert AddOnCodes(attachments[1..]) == AddOnCodes(attachments)[1..];
  }

  lemma BelowAllIsAbsent(attachments: seq<Attachment>, code: string)
    requires Ascending(AddOnCodes(attachments)) && attachments != [] && Below(code, attachments[0].addon.code)
    ensures forall j | 0 <= j < |attachments| ::
              Below(code, attachments[j].addon.code) && attachments[j].addon.code != code
  {
    forall j | 0 <= j < |attachments|
      ensures Below(code, attachments[j].addon.code) && attachments[j].addon.code != code
    {
      CodesAscend(attachments, 0, j);
      BelowIsStrictOrder(code, attachments[0].addon.code, attachments[j].addon.code);
    }
  }

  lemma CodesAscend(attachments: seq<Attachment>, i: nat, j: nat)
    requires Ascending(AddOnCodes(attachments)) && i <= j < |attachments|
    ensures i < j ==> Below(attachments[i].addon.code, attachments[j].addon.code)
  {
    assert i < j ==> Below(AddOnCodes(attachments)[i], AddOnCodes(attachments)[j]);
  }

  lemma LaterCodesDiffer(attachments: seq<Attachment>)
    requires Ascending(AddOnCodes(attachments)) && attachments != []
    ensures forall j | 0 < j < |attachments| :: attachments[j].addon.code != attachments[0].addon.code
  {
    forall j | 0 < j < |attachments| ensures attachments[j].addon.code != attachments[0].addon.code {
      CodesAscend(attachments, 0, j);
      BelowIsStrictOrder(attachments[0].addon.code, attachments[0].addon.code, attachments[0].addon.code);
    }
  }

  // ---------------------------------------------------------------- dunning

  predicate IsClosed(c: DunningCase) {
    c.status == DunningResolved || c.status == DunningCancelled
  }

  /** Newest case about the debt that is neither resolved nor cancelled; `cases` is newest first. */
  function OpenCase(cases: seq<DunningCase>, debt: Debt): Option<nat> {
    if cases == [] then None
    else if cases[0].debt == debt && !IsClosed(cases[0]) then Some(0)
    else
      var rest := OpenCase(cases[1..], debt);
      if rest.Some? then Some(rest.value + 1) else None
  }

  lemma {:induction false} OpenCaseFinds(cases: seq<DunningCase>, debt: Debt)
    ensures var i := OpenCase(cases, debt);
            && (i.Some? ==> i.value < |cases| && cases[i.value].debt == debt && !IsClosed(cases[i.value]))
            && (i.None? ==> forall j | 0 <= j < |cases| :: !(cases[j].debt == debt && !IsClosed(cases[j])))
  {
    if cases != [] {
      OpenCaseFinds(cases[1..], debt);
      assert forall j | 1 <= j < |cases| :: cases[j] == cases[1..][j - 1];
    }
  }

  /** One more failure on a case; a grace end moves it to IN_GRACE. */
  function FailedAgain(c: DunningCase, retryAt: Option<int>, graceEndsAt: Option<int>, now: int): DunningCase {
    c.(failedAttempts := c.failedAttempts + 1, lastFailureAt := Some(now), nextRetryAt := retryAt,
       graceEndsAt := graceEndsAt, status := if graceEndsAt.Some? then DunningInGrace else c.status)
  }

  /** `open_or_update_dunning_case`. */
  function Dunned(cases: seq<DunningCase>, debt: Debt, retryAt: Option<int>, graceEndsAt: Option<int>, now: int)
    : (r: seq<DunningCase>)
  {
    OpenCaseFinds(cases, debt);
    var i := OpenCase(cases, debt);
    if i.Some? then cases[i.value := FailedAgain(cases[i.value], retryAt, graceEndsAt, now)]
    else [FailedAgain(DunningCase(debt, DunningOpen, 0, None, None, None), retryAt, graceEndsAt, now)] + cases
  }

  // ---------------------------------------------------------------- provider sync

  function SyncSucceeded(s: SyncState, cursor: string, now: int): SyncState {
    s.(status := Healthy, cursor := if cursor != "" then cursor else s.cursor,
       lastStartedAt := if s.lastStartedAt.Some? then s.lastStartedAt else Some(now),
       lastSuccessAt := Some(now), lastError := "", errorCount := 0)
  }

  function SyncFailed(s: SyncState, error: string, now: int): SyncState {
    s.(status := if s.errorCount >= 2 then Failing else Degraded, lastFailureAt := Some(now), lastError := error,
       errorCount := s.errorCount + 1)
  }
}
