/** The access decision: `_feature_value`, `active_overrides`, `usage_total`, `check_product_access`. */
module ProductAccess {
  import opened Prelude
  import opened Text
  import opened Catalog
  import opened Subscriptions
  import opened Entitlements
  import opened ProductCatalog
  import opened Usage

  // ---------------------------------------------------------------- reading a feature back

  function GetOrNull(features: Features, key: string): Value {
    if key in features then features[key] else Null
  }

  /** `key.split(".", 1)[0]`. */
  function BeforeDot(key: string): string {
    if key == "" || key[0] == '.' then "" else [key[0]] + BeforeDot(key[1..])
  }

  /** `_feature_value`: the natural key first, then the key scoped by its own prefix. */
  function FeatureValue(features: Features, key: string): Value {
    var direct := GetOrNull(features, key);
    if direct != Null then direct else GetOrNull(features, BeforeDot(key) + "." + key)
  }

  lemma {:induction false} BeforeDotOfNaturalKey(project: string, feature: string)
    requires '.' !in project
    ensures BeforeDot(project + "." + feature) == project
  {
    var key := project + "." + feature;
    if project == "" {
      assert key[0] == '.';
    } else {
      assert key[1..] == project[1..] + "." + feature;
      BeforeDotOfNaturalKey(project[1..], feature);
    }
  }

  /** Under the twice-scoped key only plans of that very project publish, and they publish their natural key. */
  lemma OnlyOwnProjectPublishes(s: Subscription, project: string, feature: string)
    requires '.' !in project && '.' !in ProjectCode(s) && ProjectCode(s) != "global"
    ensures var key := project + "." + feature;
            Published(s, project + "." + key) ==
            if ProjectCode(s) != project then None
            else if LastRow(s.overrides, key).Some? then LastRow(s.overrides, key)
            else LastRow(s.plan.entitlements, key)
  {
    var key := project + "." + feature;
    var scoped := project + "." + key;
    var q := ProjectCode(s);
    assert scoped[..|project| + 1] == project + "." && scoped[|project| + 1..] == key;
    if HasScope(q, scoped) {
      assert scoped == q + "." + Unscoped(q, scoped);
      FirstSeparator(project, key, q, Unscoped(q, scoped), '.');
    }
  }

  /** What the layering has stored for the natural key of a project: the oldest entitled publisher plus all add-ons. */
  function LayeredQuota(rows: seq<Subscription>, customer: CustomerId, now: int, scoped: string): Value {
    var base := OldestPublished(rows, customer, now, scoped);
    var cs := ForKey(Contributions(rows, customer, now), scoped);
    if cs == [] then base.GetOr(Null)
    else Int(BaseInt(base).GetOr(0) + Sum(Amounts(cs)))
  }

  /** End to end: `_feature_value` reads exactly the layered quota, if and only if no direct key hides it behind another
      value. */
  lemma QuotaReadBack(rows: seq<Subscription>, customer: CustomerId, now: int, project: string, feature: string)
    requires '.' !in project
    requires Build(rows, customer, now).Ok?
    requires AllAdd(ForKey(Contributions(rows, customer, now), project + "." + (project + "." + feature)))
    ensures var key := project + "." + feature;
            var features := Build(rows, customer, now).value.features;
            var quota := LayeredQuota(rows, customer, now, project + "." + key);
            FeatureValue(features, key) == quota <==>
            GetOrNull(features, key) == Null || GetOrNull(features, key) == quota
  {
    var key := project + "." + feature;
    var scoped := project + "." + key;
    BeforeDotOfNaturalKey(project, feature);
    var features := Build(rows, customer, now).value.features;
    if ForKey(Contributions(rows, customer, now), scoped) == [] {
      BuiltUntouched(rows, customer, now, scoped);
    } else {
      BuiltQuota(rows, customer, now, scoped);
    }
    assert GetOrNull(features, scoped) == LayeredQuota(rows, customer, now, scoped);
  }

  // ---------------------------------------------------------------- subjects, overrides, usage

  datatype Subject = Subject(user: Option<nat>, organization: Option<nat>, customer: Option<CustomerId>)

  function OwnerOf(subject: Subject): Owner {
    if subject.organization.Some? then OfOrganization(subject.organization.value)
    else if subject.user.Some? then OfUser(subject.user.value)
    else Nobody
  }

  datatype Effect = AllowEffect | DenyEffect | LimitEffect

  datatype Override = Override(
    user: Option<nat>, organization: Option<nat>, product: string, action: string, entitlementKey: string,
    effect: Effect, intValue: Option<int>, isActive: bool, expiresAt: Option<Moment>
  )

  predicate Applies(o: Override, owner: Owner, product: string, action: string, entitlementKey: string, now: Moment) {
    && Belongs(owner, o.user, o.organization)
    && o.product == product && o.isActive
    && (o.action == "" || o.action == action)
    && (entitlementKey == "" || o.entitlementKey == "" || o.entitlementKey == entitlementKey)
    && (o.expiresAt.None? || Before(now, o.expiresAt.value))
  }

  /** `active_overrides(...).filter(effect=effect).first()`; the table is newest first. */
  function FirstOverride(overrides: seq<Override>, owner: Owner, product: string, action: string,
                         entitlementKey: string,
                         effect: Effect, now: Moment): Option<Override> {
    if overrides == [] then None
    else if Applies(overrides[0], owner, product, action, entitlementKey, now) && overrides[0].effect == effect
    then Some(overrides[0])
    else FirstOverride(overrides[1..], owner, product, action, entitlementKey, effect, now)
  }

  predicate Selects(o: Override, owner: Owner, product: string, action: string, entitlementKey: string, effect: Effect,
                    now: Moment) {
    Applies(o, owner, product, action, entitlementKey, now) && o.effect == effect
  }

  /** For any entitlement key: what the query returns is the applicable override of least position, that is the
      newest. */
  lemma {:induction false} FirstOverrideIsNewest(overrides: seq<Override>, owner: Owner, product: string,
                                                 action: string,
                                                 entitlementKey: string, effect: Effect, now: Moment)
    ensures match FirstOverride(overrides, owner, product, action, entitlementKey, effect, now)
            case None => forall o :: o in overrides ==> !Selects(o, owner, product, action, entitlementKey, effect, now)
            case Some(o) =>
              exists i :: 0 <= i < |overrides| && overrides[i] == o
                          && Selects(o, owner, product, action, entitlementKey, effect, now)
                          && forall j | 0 <= j < i ::
                            !Selects(overrides[j], owner, product, action, entitlementKey, effect, now)
  {
    if overrides != [] {
      var rest := overrides[1..];
      FirstOverrideIsNewest(rest, owner, product, action, entitlementKey, effect, now);
      assert overrides == [overrides[0]] + rest;
      var found := FirstOverride(overrides, owner, product, action, entitlementKey, effect, now);
      if Selects(overrides[0], owner, product, action, entitlementKey, effect, now) {
        assert found == Some(overrides[0]);
      } else if found.Some? {
        var i :| 0 <= i < |rest| && rest[i] == found.value
          && Selects(found.value, owner, product, action, entitlementKey, effect, now)
          && forall j | 0 <= j < i :: !Selects(rest[j], owner, product, action, entitlementKey, effect, now);
        assert overrides[i + 1] == found.value;
        forall j | 0 <= j < i + 1 ensures !Selects(overrides[j], owner, product, action, entitlementKey, effect, now) {
          assert j > 0 ==> overrides[j] == rest[j - 1];
        }
      }
    }
  }

  ghost predicate AnyOverride(overrides: seq<Override>, owner: Owner, product: string, action: string, effect: Effect,
                              now: Moment) {
    exists o :: o in overrides && Applies(o, owner, product, action, "", now) && o.effect == effect
  }

  lemma {:induction false} FirstExistsIffAny(overrides: seq<Override>, owner: Owner, product: string, action: string,
                                             effect: Effect, now: Moment)
    ensures FirstOverride(overrides, owner, product, action, "", effect, now).Some? <==>
            AnyOverride(overrides, owner, product, action, effect, now)
  {
    if overrides != [] {
      FirstExistsIffAny(overrides[1..], owner, product, action, effect, now);
      assert overrides == [overrides[0]] + overrides[1..];
    }
  }

  // ---------------------------------------------------------------- the decision

  datatype Reason =
    UnknownProduct | UnknownAction | UnknownSubject | AdminDenied | MissingEntitlement | MissingLimit | LimitExceeded
  | Granted

  datatype Decision = Decision(reason: Reason, limit: Option<int>, used: Option<int>, remaining: Option<int>) {
    predicate Allowed() {
      reason == Granted
    }
  }

  function Refuse(reason: Reason): Decision {
    Decision(reason, None, None, None)
  }

  /** The limit before `int()`: the newest LIMIT override if it carries a number, else the feature. */
  function LimitValue(subject: Subject, product: string, action: string, limitKey: string, overrides: seq<Override>,
                      features: Features, now: Moment): Value {
    var o := FirstOverride(overrides, OwnerOf(subject), product, action, limitKey, LimitEffect, now);
    if o.Some? && o.value.intValue.Some? then Int(o.value.intValue.value) else FeatureValue(features, limitKey)
  }

  /** The limit stage of the check; it raises when the limit is a text that is no number. */
  function DecideLimit(subject: Subject, product: string, action: string, limitKey: string, period: Period, allow: bool,
                       quantity: nat, overrides: seq<Override>, features: Features, events: seq<UsageEvent>,
                         now: Moment)
    : Result<Decision, string>
  {
    var value := LimitValue(subject, product, action, limitKey, overrides, features, now);
    if value == Null then Ok(Refuse(MissingLimit))
    else if ToInt(value).None? then Raised(NOT_A_NUMBER)
    else
      var limit := ToInt(value).value;
      var used := UsageTotal(events, OwnerOf(subject), product, action, PeriodKeyFor(period, now));
      var reason := if used + quantity > limit && !allow then LimitExceeded else Granted;
      Ok(Decision(reason, Some(limit), Some(used), Some(Max(limit - used, 0))))
  }

  /** `check_product_access` without its log entry. */
  function Decide(subject: Subject, product: string, action: string, quantity: nat, overrides: seq<Override>,
                  features: Features, events: seq<UsageEvent>, now: Moment): Result<Decision, string> {
    if product !in BUSINESS_PRODUCTS then Ok(Refuse(UnknownProduct))
    else if ActionRule(product, action).None? then Ok(Refuse(UnknownAction))
    else if subject.customer.None? then Ok(Refuse(UnknownSubject))
    else
      var rule := ActionRule(product, action).value;
      var owner := OwnerOf(subject);
      if FirstOverride(overrides, owner, product, action, "", DenyEffect, now).Some? then Ok(Refuse(AdminDenied))
      else
        var allow := FirstOverride(overrides, owner, product, action, "", AllowEffect, now).Some?;
        if !Truthy(FeatureValue(features, rule.required)) && !allow then Ok(Refuse(MissingEntitlement))
        else if rule.limit.None? then Ok(Refuse(Granted))
        else DecideLimit(subject, product, action, rule.limit.value, rule.period, allow, quantity, overrides, features,
                         events, now)
  }

  predicate IsAllowed(r: Result<Decision, string>) {
    r.Ok? && r.value.Allowed()
  }

  /** The closed form of the decision, over the sets of overrides rather than the queries. */
  ghost predicate MayAccess(subject: Subject, product: string, action: string, quantity: nat, overrides: seq<Override>,
                            features: Features, events: seq<UsageEvent>, now: Moment) {
    && product in BUSINESS_PRODUCTS && ActionRule(product, action).Some? && subject.customer.Some?
    && var rule := ActionRule(product, action).value;
       var owner := OwnerOf(subject);
       var allow := AnyOverride(overrides, owner, product, action, AllowEffect, now);
       && !AnyOverride(overrides, owner, product, action, DenyEffect, now)
       && (allow || Truthy(FeatureValue(features, rule.required)))
       && (rule.limit.Some? ==>
             var limit := ToInt(LimitValue(subject, product, action, rule.limit.value, overrides, features, now));
             && limit.Some?
             && (allow ||
                 UsageTotal(events, owner, product, action, PeriodKeyFor(rule.period, now)) + quantity <= limit.value))
  }

  lemma DecisionClosedForm(subject: Subject, product: string, action: string, quantity: nat, overrides: seq<Override>,
                           features: Features, events: seq<UsageEvent>, now: Moment)
    ensures IsAllowed(Decide(subject, product, action, quantity, overrides, features, events, now)) <==>
            MayAccess(subject, product, action, quantity, overrides, features, events, now)
  {
    FirstExistsIffAny(overrides, OwnerOf(subject), product, action, DenyEffect, now);
    FirstExistsIffAny(overrides, OwnerOf(subject), product, action, AllowEffect, now);
  }

  /** Asking for less, or having used less, never turns a grant into a refusal. */
  lemma DecisionIsAntitone(subject: Subject, product: string, action: string, less: nat, more: nat,
                           overrides: seq<Override>, features: Features, fewer: seq<UsageEvent>,
                             events: seq<UsageEvent>,
                           now: Moment)
    requires less <= more
    requires forall key :: UsageTotal(fewer, OwnerOf(subject), product, action, key)
                           <= UsageTotal(events, OwnerOf(subject), product, action, key)
    requires IsAllowed(Decide(subject, product, action, more, overrides, features, events, now))
    ensures IsAllowed(Decide(subject, product, action, less, overrides, features, fewer, now))
  {
  }

  lemma {:induction false} OverrideElsewhereInvisible(front: seq<Override>, o: Override, back: seq<Override>,
                                                      owner: Owner,
                                                      product: string, action: string, entitlementKey: string,
                                                      effect: Effect, now: Moment)
    requires !Selects(o, owner, product, action, entitlementKey, effect, now)
    ensures FirstOverride(front + [o] + back, owner, product, action, entitlementKey, effect, now) ==
            FirstOverride(front + back, owner, product, action, entitlementKey, effect, now)
  {
    if front == [] {
      assert [] + [o] + back == [o] + back && [] + back == back && ([o] + back)[1..] == back;
    } else {
      assert (front + [o] + back)[1..] == front[1..] + [o] + back && (front + back)[1..] == front[1..] + back;
      OverrideElsewhereInvisible(front[1..], o, back, owner, product, action, entitlementKey, effect, now);
    }
  }

  /** Wherever it lands in the newest-first list, an added DENY never grants access and an added ALLOW never takes it
      away. */
  lemma DenyNeverGrantsAllowNeverRevokes(subject: Subject, product: string, action: string, quantity: nat,
                                         front: seq<Override>, o: Override, back: seq<Override>, features: Features,
                                         events: seq<UsageEvent>, now: Moment)
    ensures var without := IsAllowed(Decide(subject, product, action, quantity, front + back, features, events, now));
            var with := IsAllowed(Decide(subject, product, action, quantity, front + [o] + back, features, events,
                                         now));
            && (o.effect == DenyEffect && with ==> without)
            && (o.effect == AllowEffect && without ==> with)
  {
    var without := IsAllowed(Decide(subject, product, action, quantity, front + back, features, events, now));
    var with := IsAllowed(Decide(subject, product, action, quantity, front + [o] + back, features, events, now));
    if o.effect == DenyEffect && with {
      DenyNeverGrants(subject, product, action, quantity, front, o, back, features, events, now);
    } else if o.effect == AllowEffect && without {
      AllowNeverRevokes(subject, product, action, quantity, front, o, back, features, events, now);
    }
  }

  /** More overrides of an effect are live with one more in the list. */
  lemma AddedOverrideStaysLive(front: seq<Override>, o: Override, back: seq<Override>, owner: Owner, product: string,
                               action: string, effect: Effect, now: Moment)
    ensures FirstOverride(front + back, owner, product, action, "", effect, now).Some? ==>
              FirstOverride(front + [o] + back, owner, product, action, "", effect, now).Some?
  {
    assert forall p :: p in front + back ==> p in front + [o] + back;
    FirstExistsIffAny(front + back, owner, product, action, effect, now);
    FirstExistsIffAny(front + [o] + back, owner, product, action, effect, now);
  }

  /** The limit does not see an override of another effect. */
  lemma LimitUnseen(subject: Subject, product: string, action: string, limitKey: string, front: seq<Override>,
                    o: Override, back: seq<Override>, features: Features, now: Moment)
    requires o.effect != LimitEffect
    ensures LimitValue(subject, product, action, limitKey, front + [o] + back, features, now) ==
            LimitValue(subject, product, action, limitKey, front + back, features, now)
  {
    OverrideElsewhereInvisible(front, o, back, OwnerOf(subject), product, action, limitKey, LimitEffect, now);
  }

  lemma DenyNeverGrants(subject: Subject, product: string, action: string, quantity: nat, front: seq<Override>,
                        o: Override, back: seq<Override>, features: Features, events: seq<UsageEvent>, now: Moment)
    requires o.effect == DenyEffect
    requires IsAllowed(Decide(subject, product, action, quantity, front + [o] + back, features, events, now))
    ensures IsAllowed(Decide(subject, product, action, quantity, front + back, features, events, now))
  {
    var rule := ActionRule(product, action).value;
    AddedOverrideStaysLive(front, o, back, OwnerOf(subject), product, action, DenyEffect, now);
    OverrideElsewhereInvisible(front, o, back, OwnerOf(subject), product, action, "", AllowEffect, now);
    if rule.limit.Some? {
      LimitUnseen(subject, product, action, rule.limit.value, front, o, back, features, now);
    }
  }

  lemma AllowNeverRevokes(subject: Subject, product: string, action: string, quantity: nat, front: seq<Override>,
                          o: Override, back: seq<Override>, features: Features, events: seq<UsageEvent>, now: Moment)
    requires o.effect == AllowEffect
    requires IsAllowed(Decide(subject, product, action, quantity, front + back, features, events, now))
    ensures IsAllowed(Decide(subject, product, action, quantity, front + [o] + back, features, events, now))
  {
    var rule := ActionRule(product, action).value;
    AddedOverrideStaysLive(front, o, back, OwnerOf(subject), product, action, AllowEffect, now);
    OverrideElsewhereInvisible(front, o, back, OwnerOf(subject), product, action, "", DenyEffect, now);
    if rule.limit.Some? {
      LimitUnseen(subject, product, action, rule.limit.value, front, o, back, features, now);
    }
  }

  /** The limit a product rule enforces, when no LIMIT override carries a number: the quota layered from the oldest
      entitled subscription and all active add-ons, if and only if no direct key hides it. */
  lemma EnforcedLimitIsLayeredQuota(subject: Subject, product: string, action: string, overrides: seq<Override>,
                                    rows: seq<Subscription>, now: Moment, clock: int)
    requires ActionRule(product, action).Some? && ActionRule(product, action).value.limit.Some?
    requires subject.customer.Some? && Build(rows, subject.customer.value, clock).Ok?
    requires var limitKey := ActionRule(product, action).value.limit.value;
             var o := FirstOverride(overrides, OwnerOf(subject), product, action, limitKey, LimitEffect, now);
             o.None? || o.value.intValue.None?
    requires var limitKey := ActionRule(product, action).value.limit.value;
             AllAdd(ForKey(Contributions(rows, subject.customer.value, clock), product + "." + limitKey))
    ensures var limitKey := ActionRule(product, action).value.limit.value;
            var features := Build(rows, subject.customer.value, clock).value.features;
            var quota := LayeredQuota(rows, subject.customer.value, clock, product + "." + limitKey);
            LimitValue(subject, product, action, limitKey, overrides, features, now) == quota <==>
            GetOrNull(features, limitKey) == Null || GetOrNull(features, limitKey) == quota
  {
    RulesUseNaturalKeys(product, action);
    var limitKey := ActionRule(product, action).value.limit.value;
    var feature := limitKey[|product| + 1..];
    assert limitKey == product + "." + feature;
    QuotaReadBack(rows, subject.customer.value, clock, product, feature);
  }

  /** A row of project "p" whose plan grants 100 under the natural key "p.x", with one add-on of the same project. */
  function QuotaRow(addonKey: string): Subscription {
    Subscription(0, 7, Plan("plan", Some("p"), [Entitlement("p.x", IntegerType, false, Some(100), "")]), None, Active,
                 1, 1,
                 None, None, None, None, false, None, "manual", "", [],
                 [Attachment(AddOn("more", Some("p"),
                                   [AddOnItem(Entitlement(addonKey, IntegerType, false, Some(50), ""), true)]),
                             AttachmentActive, 1)])
  }

  const ADDED := Contribution("p.x", AddOnItem(Entitlement("x", IntegerType, false, Some(50), ""), true), 1)

  lemma QuotaRowContributes()
    ensures Contributions([QuotaRow("x")], 7, 0) == [ADDED]
    ensures ForKey([ADDED], "p.p.x") == [] && ForKey([ADDED], "p.x") == [ADDED]
  {
    var s := QuotaRow("x");
    var addon := s.addons[0].addon;
    var items := addon.items;
    assert items == [ADDED.item] && items[..0] == [];
    assert AddOnKey(addon, "x") == "p.x";
    assert OfItems(addon, items, 1) == [ADDED];
    assert [s][..0] == [] && s.addons[..0] == [] && [ADDED][..0] == [];
    assert Contributions([s], 7, 0) == Contributions([], 7, 0) + OfAttachments(s.addons);
    assert "p.x" != "p.p.x" by { assert |"p.x"| != |"p.p.x"|; }
  }

  lemma QuotaRowPublishes()
    ensures OldestPublished([QuotaRow("x")], 7, 0, "p.p.x") == Some(Int(100))
    ensures OldestPublished([QuotaRow("x")], 7, 0, "p.x") == None
  {
    var s := QuotaRow("x");
    assert [s][..0] == [] && s.plan.entitlements[..0] == [];
    OnlyOwnProjectPublishes(s, "p", "x");
    assert "p" + "." + ("p" + "." + "x") == "p.p.x" && "p" + "." + "x" == "p.x";
    assert Unscoped("p", "p.x") == "x";
  }

  lemma MergeAdded(base: Features)
    requires "p.x" !in base
    ensures MergeAll(base, [ADDED]) == Ok(base["p.x" := Int(50)])
  {
    assert [ADDED][..0] == [];
    assert Amount(ADDED) == 50 && Adds(ADDED);
  }

  /** The direct-key condition is needed: an add-on whose item is keyed "x" instead of "p.x" publishes the direct key
      "p.x", and the quota that is read back is the add-on alone, without the 100 of the plan. */
  lemma UnprefixedAddOnHidesPlanQuota()
    ensures var built := Build([QuotaRow("x")], 7, 0);
            built.Ok? && FeatureValue(built.value.features, "p.x") == Int(50)
    ensures LayeredQuota([QuotaRow("x")], 7, 0, "p.p.x") == Int(100)
  {
    var rows := [QuotaRow("x")];
    QuotaRowContributes();
    QuotaRowPublishes();
    OldestSubscriptionWins(rows, 7, 0, "p.x");
    MergeAdded(BaseFeatures(rows, 7, 0));
  }
}
