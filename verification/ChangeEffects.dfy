/** What an applied subscription change does to what the customer gets, action by action. */
module ChangeEffects {
  import opened Prelude
  import opened Catalog
  import opened Subscriptions
  import opened Entitlements
  import opened BillingState
  import opened RowValues

  /** The request is applied to the subscription with this id. */
  predicate IsApplied(db: Db, id: nat, change: Change, now: int) {
    id < |db.subscriptions| && ChangeApplied(db, id, change, now).Ok?
  }

  function Before(db: Db, id: nat): Subscription
    requires id < |db.subscriptions|
  {
    db.subscriptions[|db.subscriptions| - 1 - id]
  }

  function After(db: Db, id: nat, change: Change, now: int): Subscription
    requires IsApplied(db, id, change, now)
  {
    ChangeApplied(db, id, change, now).value.subscriptions[|db.subscriptions| - 1 - id]
  }

  /** A request is applied if and only if the subscription exists and the action is supported and has its target. */
  lemma AppliedExactly(db: Db, id: nat, change: Change, now: int)
    ensures ChangeApplied(db, id, change, now).Ok? <==>
            && id < |db.subscriptions| && !change.UnsupportedAction?
            && (change.ChangePlan? ==> change.targetPlan.Some?)
            && (change.ChangeQuantity? ==> change.targetQuantity.Some? && change.targetQuantity.value >= 1)
  {
  }

  /** It changes one row and takes the customer's snapshot out of service; no other row, snapshot or table changes. */
  lemma AppliedTouchesOneRow(db: Db, id: nat, change: Change, now: int)
    requires IsApplied(db, id, change, now)
    ensures var next := ChangeApplied(db, id, change, now).value;
            var c := Before(db, id).customer;
            && next == db.(subscriptions := next.subscriptions, snapshots := next.snapshots)
            && next.subscriptions == db.subscriptions[|db.subscriptions| - 1 - id := After(db, id, change, now)]
            && After(db, id, change, now).customer == c && After(db, id, change, now).id == Before(db, id).id
            && next.snapshots.Keys == db.snapshots.Keys
            && (forall d | d in db.snapshots && d != c :: next.snapshots[d] == db.snapshots[d])
            && (c in db.snapshots ==>
                  next.snapshots[c] == db.snapshots[c].(invalidatedAt := Some(now), reason := next.snapshots[c].reason))
  {
  }

  /** What a row grants besides its plan and overrides. */
  predicate SameTerms(a: Subscription, b: Subscription) {
    && a.status == b.status && a.trialEndsAt == b.trialEndsAt && a.gracePeriodEndsAt == b.gracePeriodEndsAt
    && a.currentPeriodStart == b.currentPeriodStart && a.currentPeriodEnd == b.currentPeriodEnd
    && a.cancelAtPeriodEnd == b.cancelAtPeriodEnd && a.cancelledAt == b.cancelledAt
  }

  predicate SameSeats(a: Subscription, b: Subscription) {
    a.quantity == b.quantity && a.seatLimit == b.seatLimit
  }

  predicate SameOffer(a: Subscription, b: Subscription) {
    a.plan == b.plan && a.price == b.price && a.overrides == b.overrides && a.addons == b.addons
  }

  /** After CHANGE_PLAN the customer has the features of the target plan, except where the subscription has an override,
      under the terms it had. The price changes only if a target price is given. */
  lemma PlanChangeGivesTargetPlan(db: Db, id: nat, plan: Plan, price: Option<string>, now: int, row: Entitlement)
    requires IsApplied(db, id, ChangePlan(Some(plan), price), now)
    ensures var before := Before(db, id);
            var after := After(db, id, ChangePlan(Some(plan), price), now);
            && after.plan == plan && after.price == (if price.Some? then price else before.price)
            && after.overrides == before.overrides && after.addons == before.addons
            && SameTerms(before, after) && SameSeats(before, after)
            && (forall c, t :: Counts(after, c, t) == Counts(before, c, t))
            && (UniqueKeys(plan.entitlements) && UniqueKeys(before.overrides)
                && (row in before.overrides ||
                    (row in plan.entitlements && forall o | o in before.overrides :: o.key != row.key)) ==>
                  row.key in EffectiveEntitlements(after) && Carries(EffectiveEntitlements(after)[row.key], row))
  {
    var after := After(db, id, ChangePlan(Some(plan), price), now);
    if KeysAreUnique(after) && Decides(after, row) {
      DecidingRowShows(after, row);
    }
  }

  /** After CHANGE_QUANTITY quantity and seats are the target, and nothing else about the row changes. */
  lemma QuantityChangeSetsSeats(db: Db, id: nat, quantity: nat, now: int)
    requires IsApplied(db, id, ChangeQuantity(Some(quantity)), now)
    ensures var before := Before(db, id);
            var after := After(db, id, ChangeQuantity(Some(quantity)), now);
            && after.quantity == after.seatLimit == quantity >= 1
            && SameOffer(before, after) && SameTerms(before, after)
  {
  }

  /** CANCEL_AT_PERIOD_END only leaves a mark: at no instant does it change what the customer gets. */
  lemma CancelAtPeriodEndOnlyMarks(db: Db, id: nat, now: int)
    requires IsApplied(db, id, CancelAtPeriodEnd, now)
    ensures var before := Before(db, id);
            var after := After(db, id, CancelAtPeriodEnd, now);
            && after.cancelAtPeriodEnd && SameTerms(before.(cancelAtPeriodEnd := true), after)
            && SameOffer(before, after) && SameSeats(before, after)
            && (forall c, t :: Counts(after, c, t) == Counts(before, c, t))
  {
  }

  /** CANCEL_NOW ends the row for everybody and for good, and dates the end. */
  lemma CancelNowEndsTheRow(db: Db, id: nat, now: int)
    requires IsApplied(db, id, CancelNow, now)
    ensures var before := Before(db, id);
            var after := After(db, id, CancelNow, now);
            && (forall c, t :: !Counts(after, c, t))
            && after.status == Cancelled && after.cancelledAt == Some(now) && after.currentPeriodEnd == Some(now)
            && after.trialEndsAt == before.trialEndsAt && after.cancelAtPeriodEnd == before.cancelAtPeriodEnd
            && SameOffer(before, after) && SameSeats(before, after)
  {
  }

  /** RESUME makes a cancelled, expired or paused row count exactly until its period end; any other row only loses the
      mark of CANCEL_AT_PERIOD_END. */
  lemma ResumeCountsUntilPeriodEnd(db: Db, id: nat, now: int)
    requires IsApplied(db, id, Resume, now)
    ensures var before := Before(db, id);
            var after := After(db, id, Resume, now);
            var stopped := before.status == Cancelled || before.status == Expired || before.status == Paused;
            && !after.cancelAtPeriodEnd && after.currentPeriodEnd == before.currentPeriodEnd
            && SameOffer(before, after) && SameSeats(before, after)
            && (stopped ==>
                  && after.cancelledAt.None?
                  && forall t :: Counts(after, before.customer, t) <==>
                                 before.currentPeriodEnd.None? || t < before.currentPeriodEnd.value)
            && (!stopped ==> SameTerms(before.(cancelAtPeriodEnd := false), after))
  {
  }

  /** EXTEND_TRIAL makes the row count exactly through the new end, or for good without one. */
  lemma TrialExtensionCountsThroughEnd(db: Db, id: nat, end: Option<int>, now: int)
    requires IsApplied(db, id, ExtendTrial(end), now)
    ensures var before := Before(db, id);
            var after := After(db, id, ExtendTrial(end), now);
            && (forall t :: Counts(after, before.customer, t) <==> end.None? || t <= end.value)
            && after.trialEndsAt == end && after.currentPeriodEnd == before.currentPeriodEnd
            && SameOffer(before, after) && SameSeats(before, after)
  {
  }

  /** EXTEND_GRACE writes the date. */
  lemma GraceExtensionWritesTheDate(db: Db, id: nat, end: Option<int>, now: int)
    requires IsApplied(db, id, ExtendGrace(end), now)
    ensures var before := Before(db, id);
            var after := After(db, id, ExtendGrace(end), now);
            && after.gracePeriodEndsAt == end && SameTerms(before.(gracePeriodEndsAt := end), after)
            && SameOffer(before, after) && SameSeats(before, after)
  {
  }

  // ---------------------------------------------------------------- grants and add-ons

  /** A manual grant gives the customer the plan under the given status: an active or free row counts exactly until the
      given period end, a trial row without an end. */
  lemma GrantGivesPlan(db: Db, customer: CustomerId, plan: Plan, price: Option<string>, status: Status,
                       periodEnd: Option<int>, now: int)
    ensures var next := ManuallyGranted(db, customer, plan, price, status, periodEnd, now);
            && |next.subscriptions| == |db.subscriptions| + 1
            && next == db.(subscriptions := [next.subscriptions[0]] + db.subscriptions)
            && var row := next.subscriptions[0];
               && row.customer == customer && row.plan == plan && row.price == price
               && row.overrides == [] && row.addons == [] && row.quantity == row.seatLimit == 1
               && (status == Active || status == Free ==>
                     forall t :: Counts(row, customer, t) <==> periodEnd.None? || t < periodEnd.value)
               && (status == Trialing ==> forall t :: Counts(row, customer, t))
               && (status != Active && status != Free && status != Trialing ==> forall t :: !Counts(row, customer, t))
  {
  }
}
