/** Usage rows, the periods they are counted in, and `record_usage`. */
module Usage {
  import opened Prelude

  // ---------------------------------------------------------------- periods

  datatype Period = PerDay | PerMonth | InTotal | NoPeriod

  datatype Moment = Moment(year: int, month: int, day: int, second: int)

  predicate Before(a: Moment, b: Moment) {
    || a.year < b.year
    || (a.year == b.year && a.month < b.month)
    || (a.year == b.year && a.month == b.month && a.day < b.day)
    || (a.year == b.year && a.month == b.month && a.day == b.day && a.second < b.second)
  }

  datatype PeriodKey = DayKey(year: int, month: int, day: int) | MonthKey(year: int, month: int) | TotalKey | BlankKey

  function PeriodKeyFor(period: Period, now: Moment): PeriodKey {
    match period
    case PerDay => DayKey(now.year, now.month, now.day)
    case PerMonth => MonthKey(now.year, now.month)
    case InTotal => TotalKey
    case NoPeriod => BlankKey
  }

  /** A period that has been left never comes back. */
  lemma PeriodsAreIntervals(period: Period, a: Moment, b: Moment, c: Moment)
    requires !Before(b, a) && !Before(c, b)
    requires PeriodKeyFor(period, a) == PeriodKeyFor(period, c)
    ensures PeriodKeyFor(period, a) == PeriodKeyFor(period, b)
  {
  }

  // ---------------------------------------------------------------- rows

  /** What `_subject_filter` selects on: the organisation if there is one, else the user, else nothing. */
  datatype Owner = OfOrganization(organization: nat) | OfUser(user: nat) | Nobody

  predicate Belongs(owner: Owner, user: Option<nat>, organization: Option<nat>) {
    match owner
    case OfOrganization(o) => organization == Some(o)
    case OfUser(u) => user == Some(u)
    case Nobody => false
  }

  datatype UsageEvent = UsageEvent(
    user: Option<nat>, organization: Option<nat>, product: string, action: string, quantity: nat,
    periodKey: PeriodKey, idempotencyKey: string
  )

  predicate CountsAs(e: UsageEvent, owner: Owner, product: string, action: string, key: PeriodKey) {
    Belongs(owner, e.user, e.organization) && e.product == product && e.action == action && e.periodKey == key
  }

  function UsageTotal(events: seq<UsageEvent>, owner: Owner, product: string, action: string, key: PeriodKey): nat {
    if events == [] then 0
    else
      var last := events[|events| - 1];
      UsageTotal(events[..|events| - 1], owner, product, action, key) +
      if CountsAs(last, owner, product, action, key) then last.quantity else 0
  }

  // ---------------------------------------------------------------- recording

  /** A request to record usage; `period` is the one the rule of (product, action) names. */
  datatype Request = Request(
    owner: Owner, product: string, action: string, period: Period, quantity: nat, idempotencyKey: string
  )

  predicate KeyTaken(events: seq<UsageEvent>, idempotencyKey: string) {
    exists i | 0 <= i < |events| :: events[i].idempotencyKey == idempotencyKey
  }

  function EventOf(r: Request, now: Moment): UsageEvent {
    UsageEvent(if r.owner.OfUser? then Some(r.owner.user) else None,
               if r.owner.OfOrganization? then Some(r.owner.organization) else None,
               r.product, r.action, r.quantity, PeriodKeyFor(r.period, now), r.idempotencyKey)
  }

  /** `record_usage`: a non-blank key that is already in the table, under whatever subject, records nothing more. The
      period is the one in force when the usage is recorded, not when it was checked. */
  function Recorded(events: seq<UsageEvent>, r: Request, now: Moment): seq<UsageEvent> {
    if r.idempotencyKey != "" && KeyTaken(events, r.idempotencyKey) then events else events + [EventOf(r, now)]
  }
}
