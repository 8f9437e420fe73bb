/** Subscription rows, `is_entitled`, and the row-level part of `apply_subscription_change`. */
module Subscriptions {
  import opened Prelude
  import opened Catalog

  datatype Status = Trialing | Active | PastDue | Paused | Cancelled | Expired | Free

  datatype AttachmentStatus = AttachmentActive | AttachmentPaused | AttachmentCancelled

  /** An add-on attached to a subscription; a subscription keeps them in add-on code order. */
  datatype Attachment = Attachment(addon: AddOn, status: AttachmentStatus, quantity: nat)

  datatype Subscription = Subscription(
    id: nat,
    customer: CustomerId,
    plan: Plan,
    price: Option<string>,
    status: Status,
    quantity: nat,
    seatLimit: nat,
    trialEndsAt: Option<int>,
    gracePeriodEndsAt: Option<int>,
    currentPeriodStart: Option<int>,
    currentPeriodEnd: Option<int>,
    cancelAtPeriodEnd: bool,
    cancelledAt: Option<int>,
    provider: string,
    providerSubscriptionId: string,
    overrides: seq<Entitlement>,
    addons: seq<Attachment>
  )

  /** The trial end is inclusive, the period end and the grace end are exclusive. */
  predicate IsEntitled(s: Subscription, now: int) {
    match s.status
    case Trialing => !(s.trialEndsAt.Some? && now > s.trialEndsAt.value)
    case Active => s.currentPeriodEnd.None? || now < s.currentPeriodEnd.value
    case Free => s.currentPeriodEnd.None? || now < s.currentPeriodEnd.value
    case PastDue => s.gracePeriodEndsAt.Some? && now < s.gracePeriodEndsAt.value
    case _ => false
  }

  /** The rows that `active_subscriptions_for_customer` returns and that are entitled at `now`. PAST_DUE rows are
      dropped by the query before the grace period is ever looked at. */
  predicate Counts(s: Subscription, customer: CustomerId, now: int) {
    && s.customer == customer
    && (s.status == Active || s.status == Trialing || s.status == Free)
    && IsEntitled(s, now)
  }

  /** An end of the row's trial or paid period lies between two instants, with the bounds the code uses. */
  predicate EndCrossed(s: Subscription, from: int, to: int) {
    || (s.status == Trialing && s.trialEndsAt.Some? && from <= s.trialEndsAt.value < to)
    || ((s.status == Active || s.status == Free) && s.currentPeriodEnd.Some? && from < s.currentPeriodEnd.value <= to)
  }

  lemma CountsChangesExactlyAtEnds(s: Subscription, customer: CustomerId, from: int, to: int)
    requires from <= to
    ensures Counts(s, customer, from) != Counts(s, customer, to) <==> s.customer == customer && EndCrossed(s, from, to)
    ensures Counts(s, customer, to) ==> Counts(s, customer, from)
  {
  }

  // ---------------------------------------------------------------- local changes

  datatype Change =
    | ChangePlan(targetPlan: Option<Plan>, targetPrice: Option<string>)
    | ChangeQuantity(targetQuantity: Option<nat>)
    | CancelAtPeriodEnd
    | CancelNow
    | Resume
    | ExtendTrial(effectiveAt: Option<int>)
    | ExtendGrace(effectiveAt: Option<int>)
    | UnsupportedAction

  function ChangedRow(s: Subscription, change: Change, now: int): Result<Subscription, string> {
    match change
    case ChangePlan(plan, price) =>
      if plan.None? then Raised("target_plan is required for change_plan")
      else Ok(s.(plan := plan.value, price := if price.Some? then price else s.price))
    case ChangeQuantity(q) =>
      if q.None? || q.value == 0 then Raised("target_quantity is required for change_quantity")
      else Ok(s.(quantity := q.value, seatLimit := q.value))
    case CancelAtPeriodEnd => Ok(s.(cancelAtPeriodEnd := true))
    case CancelNow => Ok(s.(status := Cancelled, cancelledAt := Some(now), currentPeriodEnd := Some(now)))
    case Resume =>
      var resumed := s.(cancelAtPeriodEnd := false);
      if s.status == Cancelled || s.status == Expired || s.status == Paused
      then Ok(resumed.(status := Active, cancelledAt := None))
      else Ok(resumed)
    case ExtendTrial(at) => Ok(s.(status := Trialing, trialEndsAt := at))
    case ExtendGrace(at) => Ok(s.(gracePeriodEndsAt := at))
    case UnsupportedAction => Raised("Unsupported subscription change action")
  }

  // ---------------------------------------------------------------- the grace period

  /** EXTEND_GRACE moves no row into or out of the rows that grant features, at any instant. */
  lemma GraceExtensionCountsNothing(s: Subscription, at: Option<int>, now: int, customer: CustomerId, t: int)
    ensures Counts(ChangedRow(s, ExtendGrace(at), now).value, customer, t) == Counts(s, customer, t)
  {
  }

  /** A row that calls itself entitled grants nothing exactly while it is past due within its grace period. */
  lemma GraceIsLostExactlyWhilePastDue(s: Subscription, t: int)
    ensures IsEntitled(s, t) && !Counts(s, s.customer, t) <==>
            s.status == PastDue && s.gracePeriodEndsAt.Some? && t < s.gracePeriodEndsAt.value
  {
  }

  /** The input on which the promise fails: a past-due row whose grace period is extended beyond t is entitled at t by
      its own account, and is not among the rows that grant features. */
  lemma ExtendedGraceIsIgnored(s: Subscription, end: int, now: int, t: int)
    requires s.status == PastDue && t < end
    ensures var row := ChangedRow(s, ExtendGrace(Some(end)), now).value;
            IsEntitled(row, t) && !Counts(row, s.customer, t)
  {
    GraceIsLostExactlyWhilePastDue(ChangedRow(s, ExtendGrace(Some(end)), now).value, t);
  }

  // ---------------------------------------------------------------- seats

  predicate Seated(s: Subscription) {
    s.quantity == s.seatLimit >= 1
  }

  lemma ChangeKeepsSeats(s: Subscription, change: Change, now: int)
    requires Seated(s) && ChangedRow(s, change, now).Ok?
    ensures Seated(ChangedRow(s, change, now).value)
  {
  }

  // ---------------------------------------------------------------- histories of local changes

  datatype Event = At(time: int, change: Change)

  /** A failed request leaves the row alone. */
  function AfterChanges(s: Subscription, history: seq<Event>): Subscription {
    if history == [] then s
    else
      var before := AfterChanges(s, history[..|history| - 1]);
      var last := history[|history| - 1];
      match ChangedRow(before, last.change, last.time)
      case Ok(row) => row
      case Raised(_) => before
  }

  ghost predicate Chronological(start: int, history: seq<Event>) {
    && (forall i | 0 <= i < |history| :: start <= history[i].time)
    && (forall i, j | 0 <= i < j < |history| :: history[i].time <= history[j].time)
  }

  function Clock(start: int, history: seq<Event>): int {
    if history == [] then start else history[|history| - 1].time
  }

  /** The end set by the last trial extension that no immediate cancellation follows. */
  function LiveTrial(history: seq<Event>): Option<Option<int>> {
    if history == [] then None
    else
      match history[|history| - 1].change
      case ExtendTrial(at) => Some(at)
      case CancelNow => None
      case _ => LiveTrial(history[..|history| - 1])
  }

  /** What a cancelled row looks like later: its paid period is over, and only a trial can make it count. */
  predicate CancelledShape(r: Subscription, clock: int, trial: Option<Option<int>>) {
    && r.currentPeriodEnd.Some? && r.currentPeriodEnd.value <= clock
    && (trial.Some? ==> r.status == Trialing && r.trialEndsAt == trial.value)
    && (trial.None? ==> r.status == Cancelled || r.status == Active)
  }

  lemma CancelledShapeKept(r: Subscription, clock: int, trial: Option<Option<int>>, e: Event)
    requires CancelledShape(r, clock, trial) && clock <= e.time && ChangedRow(r, e.change, e.time).Ok?
    ensures var next := match e.change
                        case ExtendTrial(at) => Some(at)
                        case CancelNow => None
                        case _ => trial;
            CancelledShape(ChangedRow(r, e.change, e.time).value, e.time, next)
  {
  }

  lemma {:induction false} CancelledHistory(s: Subscription, t: int, history: seq<Event>)
    requires CancelledShape(s, t, None)
    requires Chronological(t, history)
    ensures CancelledShape(AfterChanges(s, history), Clock(t, history), LiveTrial(history))
  {
    if history != [] {
      var front := history[..|history| - 1];
      var e := history[|history| - 1];
      CancelledHistory(s, t, front);
      var r := AfterChanges(s, front);
      if ChangedRow(r, e.change, e.time).Ok? {
        CancelledShapeKept(r, Clock(t, front), LiveTrial(front), e);
      }
    }
  }

  /** After CANCEL_NOW, whatever local changes follow (RESUME and EXTEND_GRACE included), the subscription is
      entitled at a later instant exactly when a trial extension after the last immediate cancellation is still running.
      */
  lemma EntitledAfterCancelExactlyByTrial(s: Subscription, t: int, history: seq<Event>, later: int)
    requires Chronological(t, history) && Clock(t, history) <= later
    ensures var r := AfterChanges(ChangedRow(s, CancelNow, t).value, history);
            IsEntitled(r, later) <==>
            LiveTrial(history).Some? && (LiveTrial(history).value.None? || later <= LiveTrial(history).value.value)
  {
    CancelledHistory(ChangedRow(s, CancelNow, t).value, t, history);
  }

  /** In particular no history without EXTEND_TRIAL brings the entitlement back. */
  lemma CancelIsFinalWithoutTrial(s: Subscription, t: int, history: seq<Event>, later: int)
    requires Chronological(t, history) && Clock(t, history) <= later
    requires forall i | 0 <= i < |history| :: !history[i].change.ExtendTrial?
    ensures !IsEntitled(AfterChanges(ChangedRow(s, CancelNow, t).value, history), later)
  {
    EntitledAfterCancelExactlyByTrial(s, t, history, later);
    NoLiveTrial(history);
  }

  lemma {:induction false} NoLiveTrial(history: seq<Event>)
    requires forall i | 0 <= i < |history| :: !history[i].change.ExtendTrial?
    ensures LiveTrial(history).None?
  {
    if history != [] {
      NoLiveTrial(history[..|history| - 1]);
    }
  }

  lemma {:induction false} HistoryKeepsSeats(s: Subscription, history: seq<Event>)
    requires Seated(s)
    ensures Seated(AfterChanges(s, history))
    ensures AfterChanges(s, history).customer == s.customer && AfterChanges(s, history).id == s.id
  {
    if history != [] {
      HistoryKeepsSeats(s, history[..|history| - 1]);
    }
  }
}
