/** What one administrator's override does to the answers of the access check, from its columns. */
module OverrideEffects {
  import opened Prelude
  import opened Catalog
  import opened Entitlements
  import opened Usage
  import opened ProductCatalog
  import opened ProductAccess

  // ---------------------------------------------------------------- the clock

  /** A moment as a number, for months of up to 31 days and days of 86400 seconds. */
  function Instant(m: Moment): int {
    (((m.year * 12 + m.month) * 32) + m.day) * 86400 + m.second
  }

  predicate IsCalendarTime(m: Moment) {
    1 <= m.month <= 12 && 1 <= m.day <= 31 && 0 <= m.second < 86400
  }

  lemma BeforeFollowsTheClock(a: Moment, b: Moment)
    requires IsCalendarTime(a) && IsCalendarTime(b)
    ensures Before(a, b) <==> Instant(a) < Instant(b)
  {
    if a.year < b.year {
      assert a.year * 12 + a.month <= b.year * 12;
    } else if b.year < a.year {
      assert b.year * 12 + b.month <= a.year * 12;
    }
  }

  // ---------------------------------------------------------------- one override

  /** The override is live and about this request: of the subject's organisation, or of its user if it has none; for the
      product; for the action or for every action; for the entitlement key or for every key, when one is asked about. */
  predicate Reaches(o: Override, subject: Subject, product: string, action: string, limitKey: string, now: Moment) {
    && o.isActive && o.product == product && o.action in {"", action}
    && (limitKey == "" || o.entitlementKey in {"", limitKey})
    && (o.expiresAt.Some? ==> Before(now, o.expiresAt.value))
    && (subject.organization.Some? || subject.user.Some?)
    && (if subject.organization.Some? then o.organization == subject.organization else o.user == subject.user)
  }

  lemma ReachesApplies(o: Override, subject: Subject, product: string, action: string, limitKey: string, now: Moment)
    ensures Reaches(o, subject, product, action, limitKey, now) <==>
            Applies(o, OwnerOf(subject), product, action, limitKey, now)
  {
  }

  /** The override has a say in this request. */
  predicate HasSay(o: Override, subject: Subject, product: string, action: string, now: Moment) {
    var limit := if ActionRule(product, action).Some? then ActionRule(product, action).value.limit else None;
    match o.effect
    case AllowEffect => Reaches(o, subject, product, action, "", now)
    case DenyEffect => Reaches(o, subject, product, action, "", now)
    case LimitEffect => limit.Some? && Reaches(o, subject, product, action, limit.value, now)
  }

  lemma QueryUnchanged(front: seq<Override>, o: Override, back: seq<Override>, subject: Subject, product: string,
                       action: string, limitKey: string, effect: Effect, now: Moment)
    requires o.effect == effect ==> !Reaches(o, subject, product, action, limitKey, now)
    ensures FirstOverride(front + [o] + back, OwnerOf(subject), product, action, limitKey, effect, now) ==
            FirstOverride(front + back, OwnerOf(subject), product, action, limitKey, effect, now)
  {
    ReachesApplies(o, subject, product, action, limitKey, now);
    OverrideElsewhereInvisible(front, o, back, OwnerOf(subject), product, action, limitKey, effect, now);
  }

  /** The limit stage depends on the overrides by its one query. */
  lemma SameQuerySameLimit(subject: Subject, product: string, action: string, limitKey: string, period: Period,
                           allow: bool, quantity: nat, a: seq<Override>, b: seq<Override>, features: Features,
                           events: seq<UsageEvent>, now: Moment)
    requires FirstOverride(a, OwnerOf(subject), product, action, limitKey, LimitEffect, now) ==
             FirstOverride(b, OwnerOf(subject), product, action, limitKey, LimitEffect, now)
    ensures DecideLimit(subject, product, action, limitKey, period, allow, quantity, a, features, events, now) ==
            DecideLimit(subject, product, action, limitKey, period, allow, quantity, b, features, events, now)
  {
    assert LimitValue(subject, product, action, limitKey, a, features, now) ==
           LimitValue(subject, product, action, limitKey, b, features, now);
  }

  /** An override that is inactive, expired, or about another subject, product, action or key changes no answer,
      wherever it stands. */
  lemma OthersAreIgnored(subject: Subject, product: string, action: string, quantity: nat, front: seq<Override>,
                         o: Override, back: seq<Override>, features: Features, events: seq<UsageEvent>, now: Moment)
    requires !HasSay(o, subject, product, action, now)
    ensures Decide(subject, product, action, quantity, front + [o] + back, features, events, now) ==
            Decide(subject, product, action, quantity, front + back, features, events, now)
  {
    QueryUnchanged(front, o, back, subject, product, action, "", DenyEffect, now);
    QueryUnchanged(front, o, back, subject, product, action, "", AllowEffect, now);
    var rule := ActionRule(product, action);
    if rule.Some? && rule.value.limit.Some? {
      var limitKey := rule.value.limit.value;
      var allow := FirstOverride(front + back, OwnerOf(subject), product, action, "", AllowEffect, now).Some?;
      QueryUnchanged(front, o, back, subject, product, action, limitKey, LimitEffect, now);
      SameQuerySameLimit(subject, product, action, limitKey, rule.value.period, allow, quantity, front + [o] + back,
                         front + back, features, events, now);
    }
  }

  /** The request is about a known action of a known product, for somebody with a billing customer. */
  predicate IsKnown(subject: Subject, product: string, action: string) {
    product in BUSINESS_PRODUCTS && ActionRule(product, action).Some? && subject.customer.Some?
  }

  ghost predicate SomeReaches(overrides: seq<Override>, effect: Effect, subject: Subject, product: string,
                              action: string, now: Moment) {
    exists o :: o in overrides && o.effect == effect && Reaches(o, subject, product, action, "", now)
  }

  lemma SomeReachesExactly(overrides: seq<Override>, effect: Effect, subject: Subject, product: string, action: string,
                           now: Moment)
    ensures SomeReaches(overrides, effect, subject, product, action, now) <==>
            AnyOverride(overrides, OwnerOf(subject), product, action, effect, now)
  {
    forall o | o in overrides
      ensures Reaches(o, subject, product, action, "", now) <==>
              Applies(o, OwnerOf(subject), product, action, "", now)
    {
      ReachesApplies(o, subject, product, action, "", now);
    }
  }

  /** A known request is denied by the administrator if and only if some DENY reaches it, whatever else there is. */
  lemma DeniedExactlyByDeny(subject: Subject, product: string, action: string, quantity: nat, overrides: seq<Override>,
                            features: Features, events: seq<UsageEvent>, now: Moment)
    requires IsKnown(subject, product, action)
    ensures Decide(subject, product, action, quantity, overrides, features, events, now) ==
            Ok(Decision(AdminDenied, None, None, None)) <==>
            SomeReaches(overrides, DenyEffect, subject, product, action, now)
  {
    SomeReachesExactly(overrides, DenyEffect, subject, product, action, now);
    FirstExistsIffAny(overrides, OwnerOf(subject), product, action, DenyEffect, now);
  }

  /** An ALLOW that reaches the request, with no DENY, lifts both the required feature and the quota: the action is
      granted, unless its limit is missing or no number. */
  lemma AllowLiftsFeatureAndQuota(subject: Subject, product: string, action: string, quantity: nat,
                                  overrides: seq<Override>, features: Features, events: seq<UsageEvent>, now: Moment)
    requires IsKnown(subject, product, action)
    requires !SomeReaches(overrides, DenyEffect, subject, product, action, now)
    requires SomeReaches(overrides, AllowEffect, subject, product, action, now)
    ensures var limit := ActionRule(product, action).value.limit;
            IsAllowed(Decide(subject, product, action, quantity, overrides, features, events, now)) <==>
            (limit.Some? ==>
               ToInt(LimitValue(subject, product, action, limit.value, overrides, features, now)).Some?)
  {
    SomeReachesExactly(overrides, DenyEffect, subject, product, action, now);
    SomeReachesExactly(overrides, AllowEffect, subject, product, action, now);
    DecisionClosedForm(subject, product, action, quantity, overrides, features, events, now);
  }

  /** The newest LIMIT that reaches the request is its limit when it carries a number, whatever the features say. */
  lemma NewestLimitCaps(subject: Subject, product: string, action: string, limitKey: string, overrides: seq<Override>,
                        features: Features, now: Moment, i: nat, n: int)
    requires i < |overrides| && overrides[i].effect == LimitEffect && overrides[i].intValue == Some(n)
    requires Reaches(overrides[i], subject, product, action, limitKey, now)
    requires forall j | 0 <= j < i ::
               overrides[j].effect == LimitEffect ==> !Reaches(overrides[j], subject, product, action, limitKey, now)
    ensures LimitValue(subject, product, action, limitKey, overrides, features, now) == Int(n)
  {
    forall j | 0 <= j <= i
      ensures Reaches(overrides[j], subject, product, action, limitKey, now) <==>
              Applies(overrides[j], OwnerOf(subject), product, action, limitKey, now)
    {
      ReachesApplies(overrides[j], subject, product, action, limitKey, now);
    }
    FirstSelected(overrides, OwnerOf(subject), product, action, limitKey, LimitEffect, now, i);
  }

  lemma {:induction false} FirstSelected(overrides: seq<Override>, owner: Owner, product: string, action: string,
                                         entitlementKey: string, effect: Effect, now: Moment, i: nat)
    requires i < |overrides| && Selects(overrides[i], owner, product, action, entitlementKey, effect, now)
    requires forall j | 0 <= j < i :: !Selects(overrides[j], owner, product, action, entitlementKey, effect, now)
    ensures FirstOverride(overrides, owner, product, action, entitlementKey, effect, now) == Some(overrides[i])
  {
    if i > 0 {
      FirstSelected(overrides[1..], owner, product, action, entitlementKey, effect, now, i - 1);
    }
  }
}
