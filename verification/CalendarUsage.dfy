/** Quotas by the calendar: what a period key stands for, and the check stated over dates of usage. */
module CalendarUsage {
  import opened Prelude
  import opened Catalog
  import opened Entitlements
  import opened Usage
  import opened ProductCatalog
  import opened ProductAccess

  /** The two instants lie in one day, one month, or anywhere. */
  predicate SameDates(period: Period, a: Moment, b: Moment) {
    match period
    case PerDay => a.year == b.year && a.month == b.month && a.day == b.day
    case PerMonth => a.year == b.year && a.month == b.month
    case InTotal => true
    case NoPeriod => true
  }

  /** Two keys agree if and only if they are of one period and the instants lie in one day, month, or anywhere. */
  lemma KeysAgreeExactly(p: Period, a: Moment, q: Period, b: Moment)
    ensures PeriodKeyFor(p, a) == PeriodKeyFor(q, b) <==> p == q && SameDates(p, a, b)
  {
  }

  /** A monthly key does not change within a month, a daily one changes with the day. */
  lemma KeysFollowTheCalendar(a: Moment, b: Moment)
    requires a.year == b.year && a.month == b.month && a.day != b.day
    ensures PeriodKeyFor(PerMonth, a) == PeriodKeyFor(PerMonth, b)
    ensures PeriodKeyFor(PerDay, a) != PeriodKeyFor(PerDay, b)
  {
    KeysAgreeExactly(PerMonth, a, PerMonth, b);
    KeysAgreeExactly(PerDay, a, PerDay, b);
  }

  // ---------------------------------------------------------------- dated usage

  /** Requests to record usage, with the instants at which they were made, oldest first. */
  type History = seq<(Request, Moment)>

  /** The rows they leave. */
  function Rows(history: History): seq<UsageEvent> {
    if history == [] then []
    else Recorded(Rows(history[..|history| - 1]), history[|history| - 1].0, history[|history| - 1].1)
  }

  /** The idempotency key has been used before. */
  predicate IsRepeat(earlier: History, r: Request) {
    r.idempotencyKey != "" && exists i | 0 <= i < |earlier| :: earlier[i].0.idempotencyKey == r.idempotencyKey
  }

  /** Quantities recorded for the owner, product and action in the day, month, or all time of an instant. */
  function UsedInPeriod(history: History, owner: Owner, product: string, action: string, period: Period, now: Moment)
    : nat
  {
    if history == [] then 0
    else
      var front := history[..|history| - 1];
      var (r, at) := history[|history| - 1];
      UsedInPeriod(front, owner, product, action, period, now) +
      if !IsRepeat(front, r) && r.owner == owner && r.product == product && r.action == action &&
         SameDates(period, at, now)
      then r.quantity else 0
  }

  /** Usage of the action is recorded under the period of its rule. */
  ghost predicate UnderPeriod(history: History, product: string, action: string, period: Period) {
    forall i | 0 <= i < |history| ::
      history[i].0.product == product && history[i].0.action == action ==> history[i].0.period == period
  }

  lemma {:induction false} KeyTakenExactly(history: History, key: string)
    requires key != ""
    ensures KeyTaken(Rows(history), key) <==> exists i | 0 <= i < |history| :: history[i].0.idempotencyKey == key
  {
    if history != [] {
      var front, last := history[..|history| - 1], history[|history| - 1];
      KeyTakenExactly(front, key);
      if last.0.idempotencyKey != "" {
        if last.0.idempotencyKey == key {
          assert history[|history| - 1].0.idempotencyKey == key;
        }
      }
      RecordedKeys(Rows(front), last.0, last.1, key);
      assert (exists i | 0 <= i < |history| :: history[i].0.idempotencyKey == key) <==>
             (exists i | 0 <= i < |front| :: front[i].0.idempotencyKey == key) || last.0.idempotencyKey == key;
    }
  }

  lemma RecordedKeys(events: seq<UsageEvent>, r: Request, now: Moment, key: string)
    requires key != ""
    ensures KeyTaken(Recorded(events, r, now), key) <==> KeyTaken(events, key) || r.idempotencyKey == key
  {
    var after := Recorded(events, r, now);
    if after != events {
      assert after[|events|].idempotencyKey == r.idempotencyKey;
      if KeyTaken(events, key) {
        var i :| 0 <= i < |events| && events[i].idempotencyKey == key;
        assert after[i] == events[i];
      }
    }
  }

  /** A request with a key is recorded once, however often and whenever it is sent. */
  lemma RecordingTwiceRecordsOnce(events: seq<UsageEvent>, r: Request, now: Moment, later: Moment)
    requires r.idempotencyKey != ""
    ensures Recorded(Recorded(events, r, now), r, later) == Recorded(events, r, now)
  {
    RecordedKeys(events, r, now, r.idempotencyKey);
  }

  /** The total under the current key is the usage in the current day, month, or ever. */
  lemma {:induction false} TotalIsUsedInPeriod(history: History, owner: Owner, product: string, action: string,
                                               period: Period, now: Moment)
    requires owner != Nobody && UnderPeriod(history, product, action, period)
    ensures UsageTotal(Rows(history), owner, product, action, PeriodKeyFor(period, now)) ==
            UsedInPeriod(history, owner, product, action, period, now)
  {
    if history != [] {
      var front := history[..|history| - 1];
      var (r, at) := history[|history| - 1];
      TotalIsUsedInPeriod(front, owner, product, action, period, now);
      assert r.product == product && r.action == action ==> r.period == period;
      RequestAdds(front, r, at, owner, product, action, period, now);
    }
  }

  lemma RequestAdds(front: History, r: Request, at: Moment, owner: Owner, product: string, action: string,
                    period: Period, now: Moment)
    requires owner != Nobody && (r.product == product && r.action == action ==> r.period == period)
    ensures UsageTotal(Recorded(Rows(front), r, at), owner, product, action, PeriodKeyFor(period, now)) ==
            UsageTotal(Rows(front), owner, product, action, PeriodKeyFor(period, now)) +
            if !IsRepeat(front, r) && r.owner == owner && r.product == product && r.action == action &&
               SameDates(period, at, now)
            then r.quantity else 0
  {
    RepeatExactly(front, r);
    TotalAfter(Rows(front), r, at, owner, product, action, PeriodKeyFor(period, now));
    KeysAgreeExactly(r.period, at, period, now);
  }

  lemma RepeatExactly(earlier: History, r: Request)
    ensures IsRepeat(earlier, r) <==> r.idempotencyKey != "" && KeyTaken(Rows(earlier), r.idempotencyKey)
  {
    if r.idempotencyKey != "" {
      KeyTakenExactly(earlier, r.idempotencyKey);
    }
  }

  /** What one request adds to a total. */
  lemma TotalAfter(events: seq<UsageEvent>, r: Request, at: Moment, owner: Owner, product: string, action: string,
                   key: PeriodKey)
    requires owner != Nobody
    ensures UsageTotal(Recorded(events, r, at), owner, product, action, key) ==
            UsageTotal(events, owner, product, action, key) +
            if !(r.idempotencyKey != "" && KeyTaken(events, r.idempotencyKey)) && r.owner == owner &&
               r.product == product && r.action == action && PeriodKeyFor(r.period, at) == key
            then r.quantity else 0
  {
    var after := events + [EventOf(r, at)];
    assert after[..|after| - 1] == events;
  }

  // ---------------------------------------------------------------- the check

  /** The organisation of the subject if there is one, else its user. */
  predicate IsOwnerOf(owner: Owner, subject: Subject) {
    match subject.organization
    case Some(o) => owner == OfOrganization(o)
    case None => subject.user.Some? && owner == OfUser(subject.user.value)
  }

  /** A quota action whose other conditions hold is refused if and only if the quantities recorded for the subject in
      the calendar day, month, or ever, and the one asked for exceed the limit. */
  lemma QuotaRefusesExactlyOverLimit(subject: Subject, owner: Owner, product: string, action: string, quantity: nat,
                                     overrides: seq<Override>, features: Features, history: History, now: Moment,
                                     limit: int)
    requires ActionRule(product, action).Some? && ActionRule(product, action).value.limit.Some?
    requires subject.customer.Some? && IsOwnerOf(owner, subject)
    requires !AnyOverride(overrides, owner, product, action, AllowEffect, now)
    requires !AnyOverride(overrides, owner, product, action, DenyEffect, now)
    requires var rule := ActionRule(product, action).value;
             && Truthy(FeatureValue(features, rule.required)) && UnderPeriod(history, product, action, rule.period)
             && ToInt(LimitValue(subject, product, action, rule.limit.value, overrides, features, now)) == Some(limit)
    ensures var rule := ActionRule(product, action).value;
            var r := Decide(subject, product, action, quantity, overrides, features, Rows(history), now);
            var used := UsedInPeriod(history, owner, product, action, rule.period, now);
            && (IsAllowed(r) <==> used + quantity <= limit)
            && (!IsAllowed(r) ==> r.Ok? && r.value.reason == LimitExceeded)
            && r.Ok? && r.value.used == Some(used) && r.value.limit == Some(limit)
  {
    var rule := ActionRule(product, action).value;
    assert OwnerOf(subject) == owner;
    RulesUseNaturalKeys(product, action);
    FirstExistsIffAny(overrides, owner, product, action, DenyEffect, now);
    FirstExistsIffAny(overrides, owner, product, action, AllowEffect, now);
    TotalIsUsedInPeriod(history, owner, product, action, rule.period, now);
  }
}
