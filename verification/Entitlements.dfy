/** The entitlement engine: `build_effective_entitlements`, `build_customer_entitlements`,
    `_merge_addon_entitlements` and `build_customer_entitlements_with_addons`. */
module Entitlements {
  import opened Prelude
  import opened Text
  import opened Catalog
  import opened Subscriptions

  type Features = map<string, Value>

  // ---------------------------------------------------------------- plan rows and overrides

  function Layer(base: Features, rows: seq<Entitlement>): Features {
    if rows == [] then base
    else Layer(base, rows[..|rows| - 1])[rows[|rows| - 1].key := rows[|rows| - 1].Value()]
  }

  /** `build_effective_entitlements`: plan rows, then subscription overrides. */
  function EffectiveEntitlements(s: Subscription): Features {
    Layer(Layer(map[], s.plan.entitlements), s.overrides)
  }

  /** Value of the last row for `key`. */
  function LastRow(rows: seq<Entitlement>, key: string): Option<Value> {
    if rows == [] then None
    else if rows[|rows| - 1].key == key then Some(rows[|rows| - 1].Value())
    else LastRow(rows[..|rows| - 1], key)
  }

  lemma {:induction false} LayerPerKey(base: Features, rows: seq<Entitlement>, key: string)
    ensures Get(Layer(base, rows), key) == if LastRow(rows, key).Some? then LastRow(rows, key) else Get(base, key)
  {
    if rows != [] {
      LayerPerKey(base, rows[..|rows| - 1], key);
    }
  }

  /** An override beats the plan, key by key. */
  lemma OverridesBeatPlan(s: Subscription, key: string)
    ensures Get(EffectiveEntitlements(s), key) ==
            if LastRow(s.overrides, key).Some? then LastRow(s.overrides, key) else LastRow(s.plan.entitlements, key)
  {
    LayerPerKey(Layer(map[], s.plan.entitlements), s.overrides, key);
    LayerPerKey(map[], s.plan.entitlements, key);
  }

  // ---------------------------------------------------------------- scoping

  function ProjectCode(s: Subscription): string {
    if s.plan.project.Some? then s.plan.project.value else "global"
  }

  /** Key under which a plan feature is published. */
  function ScopedKey(project: string, key: string): string {
    if project != "global" then project + "." + key else key
  }

  predicate HasScope(project: string, scoped: string) {
    project == "global" || (|scoped| > |project| && scoped[..|project| + 1] == project + ".")
  }

  function Unscoped(project: string, scoped: string): string
    requires HasScope(project, scoped)
  {
    if project == "global" then scoped else scoped[|project| + 1..]
  }

  /** All features of one subscription under their scoped keys. */
  function ScopeAll(project: string, features: Features): Features {
    map scoped | scoped in (set k | k in features :: ScopedKey(project, k)) && HasScope(project, scoped) &&
                 Unscoped(project, scoped) in features
      :: features[Unscoped(project, scoped)]
  }

  lemma ScopeRoundTrip(project: string, key: string)
    ensures HasScope(project, ScopedKey(project, key)) && Unscoped(project, ScopedKey(project, key)) == key
  {
    var scoped := ScopedKey(project, key);
    if project != "global" {
      assert scoped[..|project| + 1] == project + "." && scoped[|project| + 1..] == key;
    }
  }

  lemma ScopeAllPerKey(project: string, features: Features, scoped: string)
    ensures HasScope(project, scoped) ==>
              Get(ScopeAll(project, features), scoped) == Get(features, Unscoped(project, scoped))
    ensures !HasScope(project, scoped) ==> scoped !in ScopeAll(project, features)
  {
    if HasScope(project, scoped) {
      var key := Unscoped(project, scoped);
      assert ScopedKey(project, key) == scoped;
    }
  }

  /** (project, key) -> "project.key" is injective for dot-free project codes. */
  lemma ScopedKeyIsInjective(p: string, k: string, q: string, l: string)
    requires '.' !in p && '.' !in q && p != "global" && q != "global"
    ensures ScopedKey(p, k) == ScopedKey(q, l) <==> p == q && k == l
  {
    if ScopedKey(p, k) == ScopedKey(q, l) {
      FirstSeparator(p, k, q, l, '.');
    }
  }

  // ---------------------------------------------------------------- all entitled subscriptions

  /** `build_customer_entitlements(...)["features"]`; `rows` is newest first, as the table's ordering returns it. */
  function BaseFeatures(rows: seq<Subscription>, customer: CustomerId, now: int): Features {
    if rows == [] then map[]
    else
      var before := BaseFeatures(rows[..|rows| - 1], customer, now);
      var s := rows[|rows| - 1];
      if Counts(s, customer, now) then before + ScopeAll(ProjectCode(s), EffectiveEntitlements(s)) else before
  }

  /** What one subscription contributes under a scoped key. */
  function Published(s: Subscription, scoped: string): Option<Value> {
    var p := ProjectCode(s);
    if !HasScope(p, scoped) then None
    else
      var key := Unscoped(p, scoped);
      if LastRow(s.overrides, key).Some? then LastRow(s.overrides, key) else LastRow(s.plan.entitlements, key)
  }

  /** The contribution of the oldest entitled subscription that publishes the key. */
  function OldestPublished(rows: seq<Subscription>, customer: CustomerId, now: int, scoped: string): Option<Value> {
    if rows == [] then None
    else
      var s := rows[|rows| - 1];
      if Counts(s, customer, now) && Published(s, scoped).Some? then Published(s, scoped)
      else OldestPublished(rows[..|rows| - 1], customer, now, scoped)
  }

  lemma {:induction false} OldestSubscriptionWins(rows: seq<Subscription>, customer: CustomerId, now: int,
                                                  scoped: string)
    ensures Get(BaseFeatures(rows, customer, now), scoped) == OldestPublished(rows, customer, now, scoped)
  {
    if rows != [] {
      var s := rows[|rows| - 1];
      OldestSubscriptionWins(rows[..|rows| - 1], customer, now, scoped);
      ScopeAllPerKey(ProjectCode(s), EffectiveEntitlements(s), scoped);
      if HasScope(ProjectCode(s), scoped) {
        OverridesBeatPlan(s, Unscoped(ProjectCode(s), scoped));
      }
    }
  }

  // ---------------------------------------------------------------- add-ons

  /** One add-on item as it reaches the merge: its published key, its row, and the attached quantity. */
  datatype Contribution = Contribution(key: string, item: AddOnItem, quantity: nat)

  function AddOnKey(addon: AddOn, key: string): string {
    if addon.project.Some? && addon.project.value != "" then addon.project.value + "." + key else key
  }

  function OfItems(addon: AddOn, items: seq<AddOnItem>, quantity: nat): seq<Contribution> {
    if items == [] then []
    else
      OfItems(addon, items[..|items| - 1], quantity) +
      [Contribution(AddOnKey(addon, items[|items| - 1].row.key), items[|items| - 1], quantity)]
  }

  function OfAttachment(a: Attachment): seq<Contribution> {
    if a.status == AttachmentActive then OfItems(a.addon, a.addon.items, a.quantity) else []
  }

  function OfAttachments(attachments: seq<Attachment>): seq<Contribution> {
    if attachments == [] then []
    else OfAttachments(attachments[..|attachments| - 1]) + OfAttachment(attachments[|attachments| - 1])
  }

  /** Every contribution of every entitled subscription, in merge order. */
  function Contributions(rows: seq<Subscription>, customer: CustomerId, now: int): seq<Contribution> {
    if rows == [] then []
    else
      var before := Contributions(rows[..|rows| - 1], customer, now);
      var s := rows[|rows| - 1];
      if Counts(s, customer, now) then before + OfAttachments(s.addons) else before
  }

  predicate Adds(c: Contribution) {
    c.item.isIncremental && c.item.row.valueType == IntegerType
  }

  predicate Ors(c: Contribution) {
    c.item.row.valueType == BooleanType
  }

  predicate AllAdd(cs: seq<Contribution>) {
    forall c | c in cs :: Adds(c)
  }

  predicate AllOr(cs: seq<Contribution>) {
    forall c | c in cs :: Ors(c)
  }

  predicate AnyTrue(cs: seq<Contribution>) {
    exists c | c in cs :: c.item.row.boolValue
  }

  /** `int(base.get(key, 0) or 0)`. */
  function BaseInt(current: Option<Value>): Option<int> {
    if current.None? || !Truthy(current.value) then Some(0) else ToInt(current.value)
  }

  function BaseTruth(current: Option<Value>): bool {
    current.Some? && Truthy(current.value)
  }

  /** `int(value or 0) * quantity`. */
  function Amount(c: Contribution): int {
    c.item.row.intValue.GetOr(0) * c.quantity
  }

  /** The value one item leaves under its key; None when `int()` of the present text raises. */
  function Merged(current: Option<Value>, c: Contribution): Option<Value> {
    if Adds(c) then
      var base := BaseInt(current);
      if base.Some? then Some(Int(base.value + Amount(c))) else None
    else if Ors(c) then Some(Bool(BaseTruth(current) || c.item.row.boolValue))
    else Some(c.item.row.Value())
  }

  const NOT_A_NUMBER := "invalid literal for int()"

  function MergeOne(base: Features, c: Contribution): Result<Features, string> {
    var v := Merged(Get(base, c.key), c);
    if v.Some? then Ok(base[c.key := v.value]) else Raised(NOT_A_NUMBER)
  }

  /** The ordered merge; the first item that raises ends it. */
  function MergeAll(base: Features, cs: seq<Contribution>): Result<Features, string> {
    if cs == [] then Ok(base)
    else
      var before := MergeAll(base, cs[..|cs| - 1]);
      if before.Raised? then before else MergeOne(before.value, cs[|cs| - 1])
  }

  lemma {:induction false} MergeConcat(base: Features, a: seq<Contribution>, b: seq<Contribution>)
    ensures MergeAll(base, a + b) ==
            (match MergeAll(base, a) case Ok(f) => MergeAll(f, b) case Raised(e) => Raised(e))
  {
    if b == [] {
      assert a + b == a;
    } else {
      assert (a + b)[..|a + b| - 1] == a + b[..|b| - 1];
      MergeConcat(base, a, b[..|b| - 1]);
    }
  }

  // ---------------------------------------------------------------- per-key meaning of the merge

  function ForKey(cs: seq<Contribution>, key: string): seq<Contribution> {
    if cs == [] then []
    else
      var before := ForKey(cs[..|cs| - 1], key);
      if cs[|cs| - 1].key == key then before + [cs[|cs| - 1]] else before
  }

  /** The same merge on one key alone. */
  function MergeKey(current: Option<Value>, cs: seq<Contribution>): Result<Option<Value>, string> {
    if cs == [] then Ok(current)
    else
      var before := MergeKey(current, cs[..|cs| - 1]);
      if before.Raised? then before
      else
        var v := Merged(before.value, cs[|cs| - 1]);
        if v.Some? then Ok(v) else Raised(NOT_A_NUMBER)
  }

  lemma {:induction false} ForKeyConcat(a: seq<Contribution>, b: seq<Contribution>, key: string)
    ensures ForKey(a + b, key) == ForKey(a, key) + ForKey(b, key)
  {
    if b == [] {
      assert a + b == a;
    } else {
      assert (a + b)[..|a + b| - 1] == a + b[..|b| - 1];
      ForKeyConcat(a, b[..|b| - 1], key);
    }
  }

  lemma {:induction false} ForKeyIsAboutKey(cs: seq<Contribution>, key: string)
    ensures forall i | 0 <= i < |ForKey(cs, key)| :: ForKey(cs, key)[i].key == key && ForKey(cs, key)[i] in cs
  {
    if cs != [] {
      ForKeyIsAboutKey(cs[..|cs| - 1], key);
    }
  }

  /** The merge of the whole dictionary is the merge of each key by itself: same values, and it raises exactly when the
      merge of some key raises. */
  lemma {:induction false} MergeRefinesPerKey(base: Features, cs: seq<Contribution>)
    ensures MergeAll(base, cs).Ok? <==> forall key :: MergeKey(Get(base, key), ForKey(cs, key)).Ok?
    ensures MergeAll(base, cs).Ok? ==>
              forall key :: MergeKey(Get(base, key), ForKey(cs, key)) == Ok(Get(MergeAll(base, cs).value, key))
  {
    if cs != [] {
      var front := cs[..|cs| - 1];
      var c := cs[|cs| - 1];
      MergeRefinesPerKey(base, front);
      assert ForKey(cs, c.key)[..|ForKey(cs, c.key)| - 1] == ForKey(front, c.key);
      if MergeAll(base, front).Raised? {
        var key :| MergeKey(Get(base, key), ForKey(front, key)).Raised?;
        assert MergeKey(Get(base, key), ForKey(cs, key)).Raised?;
      } else {
        assert MergeKey(Get(base, c.key), ForKey(front, c.key)) == Ok(Get(MergeAll(base, front).value, c.key));
        forall key | key != c.key ensures ForKey(cs, key) == ForKey(front, key) {
        }
      }
    }
  }

  lemma MergedKey(base: Features, cs: seq<Contribution>, key: string)
    requires MergeAll(base, cs).Ok?
    ensures MergeKey(Get(base, key), ForKey(cs, key)) == Ok(Get(MergeAll(base, cs).value, key))
  {
    MergeRefinesPerKey(base, cs);
  }

  function Amounts(cs: seq<Contribution>): seq<int> {
    seq(|cs|, i requires 0 <= i < |cs| => Amount(cs[i]))
  }

  /** Only incremental integer items: base integer plus the sum of value times quantity. */
  lemma {:induction false} IncrementsSum(current: Option<Value>, cs: seq<Contribution>)
    requires cs != [] && AllAdd(cs)
    ensures BaseInt(current).Some? ==>
              MergeKey(current, cs) == Ok(Some(Int(BaseInt(current).value + Sum(Amounts(cs)))))
    ensures BaseInt(current).None? ==> MergeKey(current, cs).Raised?
  {
    var front := cs[..|cs| - 1];
    assert Amounts(cs) == Amounts(front) + [Amount(cs[|cs| - 1])];
    SumConcat(Amounts(front), [Amount(cs[|cs| - 1])]);
    assert [Amount(cs[|cs| - 1])][..0] == [];
    if front != [] {
      IncrementsSum(current, front);
    } else {
      assert Amounts(front) == [];
    }
  }

  lemma AnyTrueOfLast(cs: seq<Contribution>)
    requires cs != []
    ensures AnyTrue(cs) <==> AnyTrue(cs[..|cs| - 1]) || cs[|cs| - 1].item.row.boolValue
  {
    assert cs == cs[..|cs| - 1] + [cs[|cs| - 1]];
  }

  /** Only boolean items: the disjunction of the base and all contributions. */
  lemma {:induction false} BooleansDisjoin(current: Option<Value>, cs: seq<Contribution>)
    requires cs != [] && AllOr(cs)
    ensures MergeKey(current, cs) == Ok(Some(Bool(BaseTruth(current) || AnyTrue(cs))))
  {
    var front := cs[..|cs| - 1];
    var c := cs[|cs| - 1];
    AnyTrueOfLast(cs);
    assert Ors(c) && !Adds(c) && AllOr(front);
    if front != [] {
      BooleansDisjoin(current, front);
    }
  }

  // ---------------------------------------------------------------- the payload

  datatype SubscriptionPayload = SubscriptionPayload(
    id: nat, status: Status, plan: string, project: string, currentPeriodEnd: Option<int>, features: Features
  )

  datatype Payload = EmptyPayload | Payload(customer: CustomerId, subscriptions: seq<SubscriptionPayload>,
                                            features: Features)

  function SubscriptionEntry(s: Subscription): SubscriptionPayload {
    SubscriptionPayload(s.id, s.status, s.plan.code, ProjectCode(s), s.currentPeriodEnd, EffectiveEntitlements(s))
  }

  function Entries(rows: seq<Subscription>, customer: CustomerId, now: int): seq<SubscriptionPayload> {
    if rows == [] then []
    else
      var before := Entries(rows[..|rows| - 1], customer, now);
      var s := rows[|rows| - 1];
      if Counts(s, customer, now) then before + [SubscriptionEntry(s)] else before
  }

  /** `build_customer_entitlements_with_addons`. */
  function Build(rows: seq<Subscription>, customer: CustomerId, now: int): Result<Payload, string> {
    match MergeAll(BaseFeatures(rows, customer, now), Contributions(rows, customer, now))
    case Ok(features) => Ok(Payload(customer, Entries(rows, customer, now), features))
    case Raised(e) => Raised(e)
  }

  lemma QuotaOfMerge(base: Features, cs: seq<Contribution>, key: string, present: Option<Value>)
    requires MergeAll(base, cs).Ok? && Get(base, key) == present
    requires ForKey(cs, key) != [] && AllAdd(ForKey(cs, key))
    ensures BaseInt(present).Some?
    ensures Get(MergeAll(base, cs).value, key) ==
            Some(Int(BaseInt(present).value + Sum(Amounts(ForKey(cs, key)))))
  {
    MergedKey(base, cs, key);
    IncrementsSum(Get(base, key), ForKey(cs, key));
  }

  lemma BuiltFeatures(rows: seq<Subscription>, customer: CustomerId, now: int)
    requires Build(rows, customer, now).Ok?
    ensures var merged := MergeAll(BaseFeatures(rows, customer, now), Contributions(rows, customer, now));
            merged.Ok? && Build(rows, customer, now).value.features == merged.value
  {
  }

  /** Integer feature of the built payload: value of the oldest entitled subscription publishing the key, plus the
      sum of value times quantity over all active add-ons of entitled subscriptions. */
  lemma BuiltQuota(rows: seq<Subscription>, customer: CustomerId, now: int, key: string)
    requires Build(rows, customer, now).Ok?
    requires ForKey(Contributions(rows, customer, now), key) != []
    requires AllAdd(ForKey(Contributions(rows, customer, now), key))
    ensures BaseInt(OldestPublished(rows, customer, now, key)).Some?
    ensures Get(Build(rows, customer, now).value.features, key) ==
            Some(Int(BaseInt(OldestPublished(rows, customer, now, key)).value +
                     Sum(Amounts(ForKey(Contributions(rows, customer, now), key)))))
  {
    BuiltFeatures(rows, customer, now);
    OldestSubscriptionWins(rows, customer, now, key);
    QuotaOfMerge(BaseFeatures(rows, customer, now), Contributions(rows, customer, now), key,
                 OldestPublished(rows, customer, now, key));
  }

  /** Boolean feature of the built payload. */
  lemma BuiltFlag(rows: seq<Subscription>, customer: CustomerId, now: int, key: string)
    requires Build(rows, customer, now).Ok?
    requires ForKey(Contributions(rows, customer, now), key) != []
    requires AllOr(ForKey(Contributions(rows, customer, now), key))
    ensures Get(Build(rows, customer, now).value.features, key) ==
            Some(Bool(BaseTruth(OldestPublished(rows, customer, now, key)) ||
                      AnyTrue(ForKey(Contributions(rows, customer, now), key))))
  {
    var cs := Contributions(rows, customer, now);
    var base := BaseFeatures(rows, customer, now);
    OldestSubscriptionWins(rows, customer, now, key);
    MergedKey(base, cs, key);
    BooleansDisjoin(Get(base, key), ForKey(cs, key));
  }

  /** A key no active add-on touches keeps the value of the oldest entitled subscription. */
  lemma BuiltUntouched(rows: seq<Subscription>, customer: CustomerId, now: int, key: string)
    requires Build(rows, customer, now).Ok?
    requires ForKey(Contributions(rows, customer, now), key) == []
    ensures Get(Build(rows, customer, now).value.features, key) == OldestPublished(rows, customer, now, key)
  {
    var cs := Contributions(rows, customer, now);
    var base := BaseFeatures(rows, customer, now);
    OldestSubscriptionWins(rows, customer, now, key);
    MergedKey(base, cs, key);
  }

  // ---------------------------------------------------------------- what the payload depends on

  /** A key is absent from the payload exactly when no entitled subscription publishes it and no active add-on names
      it. */
  lemma AbsentExactlyWhenUnpublished(rows: seq<Subscription>, customer: CustomerId, now: int, key: string)
    requires Build(rows, customer, now).Ok?
    ensures key !in Build(rows, customer, now).value.features <==>
            OldestPublished(rows, customer, now, key).None? && ForKey(Contributions(rows, customer, now), key) == []
  {
    if ForKey(Contributions(rows, customer, now), key) == [] {
      BuiltUntouched(rows, customer, now, key);
    } else {
      BuiltFeatures(rows, customer, now);
      MergedKey(BaseFeatures(rows, customer, now), Contributions(rows, customer, now), key);
    }
  }

  /** The payload depends only on which rows count, and on the entries and add-ons of those. */
  lemma {:induction false} BuildDependsOnCountedRows(a: seq<Subscription>, b: seq<Subscription>, customer: CustomerId,
                                                     from: int, to: int)
    requires |a| == |b|
    requires forall i | 0 <= i < |a| :: Counts(a[i], customer, from) == Counts(b[i], customer, to)
    requires forall i | 0 <= i < |a| :: Counts(a[i], customer, from) ==>
                                          SubscriptionEntry(a[i]) == SubscriptionEntry(b[i]) && a[i].addons ==
                                            b[i].addons
    ensures BaseFeatures(a, customer, from) == BaseFeatures(b, customer, to)
    ensures Contributions(a, customer, from) == Contributions(b, customer, to)
    ensures Entries(a, customer, from) == Entries(b, customer, to)
    ensures Build(a, customer, from) == Build(b, customer, to)
  {
    if a != [] {
      BuildDependsOnCountedRows(a[..|a| - 1], b[..|b| - 1], customer, from, to);
    }
  }

  /** Extending a grace period changes no payload, whatever the status of the row. */
  lemma GraceExtensionChangesNoPayload(rows: seq<Subscription>, i: nat, at: Option<int>, now: int, customer: CustomerId,
                                       t: int)
    requires i < |rows|
    ensures Build(rows[i := ChangedRow(rows[i], ExtendGrace(at), now).value], customer, t) == Build(rows, customer, t)
  {
    var row := ChangedRow(rows[i], ExtendGrace(at), now).value;
    GraceExtensionCountsNothing(rows[i], at, now, customer, t);
    assert EffectiveEntitlements(row) == EffectiveEntitlements(rows[i]);
    BuildDependsOnCountedRows(rows[i := row], rows, customer, t, t);
  }

  /** A customer whose subscriptions are all past due has no feature at all, grace period or not. */
  lemma {:induction false} PastDueCustomersHaveNothing(rows: seq<Subscription>, customer: CustomerId, t: int)
    requires forall i | 0 <= i < |rows| :: rows[i].customer == customer ==> rows[i].status == PastDue
    ensures Build(rows, customer, t) == Ok(Payload(customer, [], map[]))
  {
    if rows != [] {
      PastDueCustomersHaveNothing(rows[..|rows| - 1], customer, t);
    }
  }

  /** A row that does not count may be put in front, where new rows appear. */
  lemma {:induction false} BuildIgnoresNewRow(s: Subscription, rows: seq<Subscription>, customer: CustomerId, now: int)
    requires !Counts(s, customer, now)
    ensures BaseFeatures([s] + rows, customer, now) == BaseFeatures(rows, customer, now)
    ensures Contributions([s] + rows, customer, now) == Contributions(rows, customer, now)
    ensures Entries([s] + rows, customer, now) == Entries(rows, customer, now)
    ensures Build([s] + rows, customer, now) == Build(rows, customer, now)
  {
    var all := [s] + rows;
    if rows != [] {
      assert all[..|all| - 1] == [s] + rows[..|rows| - 1];
      BuildIgnoresNewRow(s, rows[..|rows| - 1], customer, now);
    } else {
      assert all[..0] == [];
    }
  }

  ghost predicate DistinctIds(rows: seq<Subscription>) {
    forall i, j | 0 <= i < j < |rows| :: rows[i].id != rows[j].id
  }

  /** The trial or period end of some row of the customer lies between the two instants. */
  predicate SomeEndCrossed(rows: seq<Subscription>, customer: CustomerId, from: int, to: int) {
    exists i | 0 <= i < |rows| :: rows[i].customer == customer && EndCrossed(rows[i], from, to)
  }

  /** What a row contributes to the customer's payload at an instant. */
  function PartAt(s: Subscription, customer: CustomerId, t: int): Option<SubscriptionPayload> {
    if Counts(s, customer, t) then Some(SubscriptionEntry(s)) else None
  }

  /** The same rows with the same add-ons, whatever else of them has changed. */
  ghost predicate SameRows(a: seq<Subscription>, b: seq<Subscription>) {
    |a| == |b| && forall i | 0 <= i < |a| :: a[i].id == b[i].id && a[i].addons == b[i].addons
  }

  /** No row contributes anything else at the second instant than at the first. */
  predicate ShowSame(a: seq<Subscription>, from: int, b: seq<Subscription>, to: int, customer: CustomerId) {
    |a| == |b| && forall i | 0 <= i < |a| :: PartAt(a[i], customer, from) == PartAt(b[i], customer, to)
  }

  lemma {:induction false} EntriesAreOfCountedRows(rows: seq<Subscription>, customer: CustomerId, now: int,
                                                   e: SubscriptionPayload)
    ensures e in Entries(rows, customer, now) <==>
            exists i :: 0 <= i < |rows| && PartAt(rows[i], customer, now) == Some(e)
  {
    if rows != [] {
      var front := rows[..|rows| - 1];
      var s := rows[|rows| - 1];
      EntriesAreOfCountedRows(front, customer, now, e);
      assert (exists i :: 0 <= i < |rows| && PartAt(rows[i], customer, now) == Some(e)) <==>
             (exists i :: 0 <= i < |front| && PartAt(front[i], customer, now) == Some(e))
             || PartAt(s, customer, now) == Some(e);
    }
  }

  lemma EqualEntriesEqualParts(a: seq<Subscription>, b: seq<Subscription>, customer: CustomerId, from: int, to: int,
                               i: nat)
    requires SameRows(a, b) && DistinctIds(a) && i < |a|
    requires Entries(a, customer, from) == Entries(b, customer, to)
    requires Counts(a[i], customer, from)
    ensures PartAt(b[i], customer, to) == PartAt(a[i], customer, from)
  {
    var e := SubscriptionEntry(a[i]);
    assert PartAt(a[i], customer, from) == Some(e);
    EntriesAreOfCountedRows(a, customer, from, e);
    EntriesAreOfCountedRows(b, customer, to, e);
    var j :| 0 <= j < |b| && PartAt(b[j], customer, to) == Some(e);
    assert b[j].id == a[i].id == b[i].id && a[j].id == b[j].id;
    assert i == j;
  }

  /** Two states of the same rows, add-ons unchanged, build the same payload if and only if no row contributes anything
      else. */
  lemma BuildEqualExactly(a: seq<Subscription>, b: seq<Subscription>, customer: CustomerId, from: int, to: int)
    requires SameRows(a, b) && DistinctIds(a) && Build(a, customer, from).Ok?
    ensures Build(a, customer, from) == Build(b, customer, to) <==> ShowSame(a, from, b, to, customer)
  {
    if ShowSame(a, from, b, to, customer) {
      forall i | 0 <= i < |a|
        ensures Counts(a[i], customer, from) == Counts(b[i], customer, to)
        ensures Counts(a[i], customer, from) ==> SubscriptionEntry(a[i]) == SubscriptionEntry(b[i])
      {
        assert PartAt(a[i], customer, from) == PartAt(b[i], customer, to);
      }
      BuildDependsOnCountedRows(a, b, customer, from, to);
    } else if Build(a, customer, from) == Build(b, customer, to) {
      var i :| 0 <= i < |a| && PartAt(a[i], customer, from) != PartAt(b[i], customer, to);
      if Counts(a[i], customer, from) {
        EqualEntriesEqualParts(a, b, customer, from, to, i);
      } else {
        EqualEntriesEqualParts(b, a, customer, to, from, i);
      }
    }
  }

  /** With the rows unchanged, a payload built earlier is the payload built now exactly when no trial end and no period
      end of the customer's subscriptions has been crossed in between. */
  lemma StaleExactlyWhenEndCrossed(rows: seq<Subscription>, customer: CustomerId, from: int, to: int)
    requires from <= to && DistinctIds(rows)
    requires Build(rows, customer, from).Ok?
    ensures Build(rows, customer, from) == Build(rows, customer, to) <==> !SomeEndCrossed(rows, customer, from, to)
  {
    BuildEqualExactly(rows, rows, customer, from, to);
    ShownSameUnlessEndCrossed(rows, customer, from, to);
  }

  lemma ShownSameUnlessEndCrossed(rows: seq<Subscription>, customer: CustomerId, from: int, to: int)
    requires from <= to
    ensures ShowSame(rows, from, rows, to, customer) <==> !SomeEndCrossed(rows, customer, from, to)
  {
    forall i | 0 <= i < |rows|
      ensures PartAt(rows[i], customer, from) != PartAt(rows[i], customer, to) <==>
              rows[i].customer == customer && EndCrossed(rows[i], from, to)
    {
      CountsChangesExactlyAtEnds(rows[i], customer, from, to);
    }
  }

  // ---------------------------------------------------------------- row order inside plans and add-ons

  ghost predicate UniqueKeys(rows: seq<Entitlement>) {
    forall i, j | 0 <= i < j < |rows| :: rows[i].key != rows[j].key
  }

  ghost predicate UniqueItemKeys(items: seq<AddOnItem>) {
    forall i, j | 0 <= i < j < |items| :: items[i].row.key != items[j].row.key
  }

  lemma {:induction false} LastRowOfUnique(rows: seq<Entitlement>, key: string)
    requires UniqueKeys(rows)
    ensures forall r | r in rows && r.key == key :: LastRow(rows, key) == Some(r.Value())
    ensures (forall r | r in rows :: r.key != key) ==> LastRow(rows, key) == None
  {
    if rows != [] {
      LastRowOfUnique(rows[..|rows| - 1], key);
      forall r | r in rows && r.key == key ensures LastRow(rows, key) == Some(r.Value()) {
        var i :| 0 <= i < |rows| && rows[i] == r;
        assert i < |rows| - 1 ==> rows[..|rows| - 1][i] == r;
      }
    }
  }

  lemma SameRowsSameLayer(base: Features, a: seq<Entitlement>, b: seq<Entitlement>)
    requires UniqueKeys(a) && UniqueKeys(b) && multiset(a) == multiset(b)
    ensures Layer(base, a) == Layer(base, b)
  {
    forall key ensures Get(Layer(base, a), key) == Get(Layer(base, b), key) {
      LayerPerKey(base, a, key);
      LayerPerKey(base, b, key);
      LastRowOfUnique(a, key);
      LastRowOfUnique(b, key);
      SameElements(a, b);
    }
    EqualByKeys(Layer(base, a), Layer(base, b));
  }

  lemma EqualByKeys(a: Features, b: Features)
    requires forall key :: Get(a, key) == Get(b, key)
    ensures a == b
  {
    forall key ensures key in a <==> key in b {
      assert Get(a, key) == Get(b, key);
    }
    forall key | key in a ensures a[key] == b[key] {
      assert Get(a, key) == Get(b, key);
    }
  }

  /** Within one add-on the published keys are as distinct as the stored ones, so a key has at most one item. */
  lemma {:induction false} ItemsForKey(addon: AddOn, items: seq<AddOnItem>, quantity: nat, key: string)
    requires UniqueItemKeys(items)
    ensures forall item | item in items && AddOnKey(addon, item.row.key) == key ::
              ForKey(OfItems(addon, items, quantity), key) == [Contribution(key, item, quantity)]
    ensures (forall item | item in items :: AddOnKey(addon, item.row.key) != key) ==>
              ForKey(OfItems(addon, items, quantity), key) == []
  {
    if items != [] {
      var front := items[..|items| - 1];
      var last := items[|items| - 1];
      ItemsForKey(addon, front, quantity, key);
      var c := Contribution(AddOnKey(addon, last.row.key), last, quantity);
      assert OfItems(addon, items, quantity)[..|OfItems(addon, items, quantity)| - 1] ==
             OfItems(addon, front, quantity);
      forall i | 0 <= i < |front|
        ensures front[i] == items[i] && AddOnKey(addon, front[i].row.key) != AddOnKey(addon, last.row.key)
      {
        AddOnKeyIsInjective(addon, front[i].row.key, last.row.key);
      }
      assert forall item | item in items :: item in front || item == last;
    }
  }

  lemma AddOnKeyIsInjective(addon: AddOn, k: string, l: string)
    ensures AddOnKey(addon, k) == AddOnKey(addon, l) <==> k == l
  {
    if addon.project.Some? && AddOnKey(addon, k) == AddOnKey(addon, l) {
      var p := addon.project.value + ".";
      assert p + k == addon.project.value + "." + k && p + l == addon.project.value + "." + l;
      assert (p + k)[|p|..] == k && (p + l)[|p|..] == l;
    }
  }

  /** The same attachment up to the order in which the database returns the add-on's items. */
  ghost predicate SameAttachment(a: Attachment, b: Attachment) {
    && b == a.(addon := b.addon)
    && b.addon == a.addon.(items := b.addon.items)
    && multiset(a.addon.items) == multiset(b.addon.items)
  }

  /** The same subscription up to the order in which the database returns entitlement rows. */
  ghost predicate SameUpToRowOrder(s: Subscription, t: Subscription) {
    && t == s.(plan := t.plan, overrides := t.overrides, addons := t.addons)
    && t.plan == s.plan.(entitlements := t.plan.entitlements)
    && multiset(s.plan.entitlements) == multiset(t.plan.entitlements)
    && multiset(s.overrides) == multiset(t.overrides)
    && |s.addons| == |t.addons|
    && forall i | 0 <= i < |s.addons| :: SameAttachment(s.addons[i], t.addons[i])
  }

  /** The unique constraints (plan, key), (subscription, key) and (addon, key). */
  ghost predicate RowsAreUnique(s: Subscription) {
    UniqueKeys(s.plan.entitlements) && UniqueKeys(s.overrides) && ItemsAreUnique(s.addons)
  }

  ghost predicate ItemsAreUnique(attachments: seq<Attachment>) {
    forall i | 0 <= i < |attachments| :: UniqueItemKeys(attachments[i].addon.items)
  }

  lemma SameItemsForKey(a: AddOn, b: AddOn, quantity: nat, key: string)
    requires b == a.(items := b.items) && multiset(a.items) == multiset(b.items)
    requires UniqueItemKeys(a.items) && UniqueItemKeys(b.items)
    ensures ForKey(OfItems(a, a.items, quantity), key) == ForKey(OfItems(b, b.items, quantity), key)
  {
    SameElements(a.items, b.items);
    if item :| item in a.items && AddOnKey(a, item.row.key) == key {
      OneItemForKey(a, a.items, quantity, key, item);
      OneItemForKey(b, b.items, quantity, key, item);
    } else {
      NoItemForKey(a, a.items, quantity, key);
      NoItemForKey(b, b.items, quantity, key);
    }
  }

  lemma OneItemForKey(addon: AddOn, items: seq<AddOnItem>, quantity: nat, key: string, item: AddOnItem)
    requires UniqueItemKeys(items) && item in items && AddOnKey(addon, item.row.key) == key
    ensures ForKey(OfItems(addon, items, quantity), key) == [Contribution(key, item, quantity)]
  {
    ItemsForKey(addon, items, quantity, key);
  }

  lemma NoItemForKey(addon: AddOn, items: seq<AddOnItem>, quantity: nat, key: string)
    requires UniqueItemKeys(items) && forall item | item in items :: AddOnKey(addon, item.row.key) != key
    ensures ForKey(OfItems(addon, items, quantity), key) == []
  {
    ItemsForKey(addon, items, quantity, key);
  }

  lemma AttachmentForKey(a: Attachment, b: Attachment, key: string)
    requires SameAttachment(a, b) && UniqueItemKeys(a.addon.items) && UniqueItemKeys(b.addon.items)
    ensures ForKey(OfAttachment(a), key) == ForKey(OfAttachment(b), key)
  {
    SameItemsForKey(a.addon, b.addon, a.quantity, key);
  }

  lemma SameElements<T>(a: seq<T>, b: seq<T>)
    requires multiset(a) == multiset(b)
    ensures forall x :: x in a <==> x in b
  {
    assert forall x :: x in a <==> x in multiset(b);
  }

  lemma {:induction false} AttachmentsForKey(s: seq<Attachment>, t: seq<Attachment>, key: string)
    requires |s| == |t| && ItemsAreUnique(s) && ItemsAreUnique(t)
    requires forall i | 0 <= i < |s| :: SameAttachment(s[i], t[i])
    ensures ForKey(OfAttachments(s), key) == ForKey(OfAttachments(t), key)
  {
    if s != [] {
      AttachmentsForKey(s[..|s| - 1], t[..|t| - 1], key);
      ForKeyConcat(OfAttachments(s[..|s| - 1]), OfAttachment(s[|s| - 1]), key);
      ForKeyConcat(OfAttachments(t[..|t| - 1]), OfAttachment(t[|t| - 1]), key);
      AttachmentForKey(s[|s| - 1], t[|t| - 1], key);
    }
  }

  lemma SameSubscription(s: Subscription, t: Subscription)
    requires SameUpToRowOrder(s, t) && RowsAreUnique(s) && RowsAreUnique(t)
    ensures EffectiveEntitlements(s) == EffectiveEntitlements(t)
    ensures ProjectCode(s) == ProjectCode(t) && SubscriptionEntry(s) == SubscriptionEntry(t)
    ensures forall c, now :: Counts(s, c, now) == Counts(t, c, now)
  {
    SameRowsSameLayer(map[], s.plan.entitlements, t.plan.entitlements);
    SameRowsSameLayer(Layer(map[], s.plan.entitlements), s.overrides, t.overrides);
  }

  ghost predicate SameTables(a: seq<Subscription>, b: seq<Subscription>) {
    && |a| == |b|
    && forall i | 0 <= i < |a| :: SameUpToRowOrder(a[i], b[i]) && RowsAreUnique(a[i]) && RowsAreUnique(b[i])
  }

  lemma {:induction false} SameBase(a: seq<Subscription>, b: seq<Subscription>, customer: CustomerId, now: int)
    requires SameTables(a, b)
    ensures BaseFeatures(a, customer, now) == BaseFeatures(b, customer, now)
    ensures Entries(a, customer, now) == Entries(b, customer, now)
  {
    if a != [] {
      SameBase(a[..|a| - 1], b[..|b| - 1], customer, now);
      SameSubscription(a[|a| - 1], b[|b| - 1]);
    }
  }

  lemma {:induction false} SameContributions(a: seq<Subscription>, b: seq<Subscription>, customer: CustomerId, now: int,
                                             key: string)
    requires SameTables(a, b)
    ensures ForKey(Contributions(a, customer, now), key) == ForKey(Contributions(b, customer, now), key)
  {
    if a != [] {
      var s, t := a[|a| - 1], b[|b| - 1];
      SameContributions(a[..|a| - 1], b[..|b| - 1], customer, now, key);
      SameSubscription(s, t);
      AttachmentsForKey(s.addons, t.addons, key);
      ForKeyConcat(Contributions(a[..|a| - 1], customer, now), OfAttachments(s.addons), key);
      ForKeyConcat(Contributions(b[..|b| - 1], customer, now), OfAttachments(t.addons), key);
    }
  }

  /** No query of the engine orders entitlement rows, and the payload does not depend on the order they come in. */
  lemma RowOrderIrrelevant(a: seq<Subscription>, b: seq<Subscription>, customer: CustomerId, now: int)
    requires SameTables(a, b)
    ensures Build(a, customer, now) == Build(b, customer, now)
  {
    SameBase(a, b, customer, now);
    forall key ensures ForKey(Contributions(a, customer, now), key) == ForKey(Contributions(b, customer, now), key) {
      SameContributions(a, b, customer, now, key);
    }
    SamePerKeySameMerge(BaseFeatures(a, customer, now), Contributions(a, customer, now),
                        Contributions(b, customer, now));
  }

  lemma SamePerKeySameMerge(base: Features, a: seq<Contribution>, b: seq<Contribution>)
    requires forall key :: ForKey(a, key) == ForKey(b, key)
    ensures MergeAll(base, a) == MergeAll(base, b)
  {
    MergeRefinesPerKey(base, a);
    MergeRefinesPerKey(base, b);
    if MergeAll(base, a).Ok? && MergeAll(base, b).Ok? {
      forall key ensures Get(MergeAll(base, a).value, key) == Get(MergeAll(base, b).value, key) {
        assert MergeKey(Get(base, key), ForKey(a, key)) == Ok(Get(MergeAll(base, a).value, key));
        assert MergeKey(Get(base, key), ForKey(b, key)) == Ok(Get(MergeAll(base, b).value, key));
      }
      EqualByKeys(MergeAll(base, a).value, MergeAll(base, b).value);
    }
    RaisesAlike(base, a);
    RaisesAlike(base, b);
  }

  lemma {:induction false} RaisesAlike(base: Features, cs: seq<Contribution>)
    ensures MergeAll(base, cs).Raised? ==> MergeAll(base, cs).error == NOT_A_NUMBER
  {
    if cs != [] {
      RaisesAlike(base, cs[..|cs| - 1]);
    }
  }

  // ---------------------------------------------------------------- the loops of the source

  method BuildEffectiveEntitlements(s: Subscription) returns (entitlements: Features)
    ensures entitlements == EffectiveEntitlements(s)
  {
    entitlements := map[];
    var rows := s.plan.entitlements;
    for i := 0 to |rows|
      invariant entitlements == Layer(map[], rows[..i])
    {
      assert rows[..i + 1][..i] == rows[..i];
      entitlements := entitlements[rows[i].key := rows[i].Value()];
    }
    assert rows[..|rows|] == rows;
    ghost var fromPlan := entitlements;
    var overrides := s.overrides;
    for i := 0 to |overrides|
      invariant entitlements == Layer(fromPlan, overrides[..i])
    {
      assert overrides[..i + 1][..i] == overrides[..i];
      entitlements := entitlements[overrides[i].key := overrides[i].Value()];
    }
    assert overrides[..|overrides|] == overrides;
  }

  /** The inner loop of `build_customer_entitlements`: one assignment per feature, in whatever order. */
  method PublishFeatures(result: Features, project: string, features: Features) returns (r: Features)
    ensures r == result + ScopeAll(project, features)
  {
    r := result;
    var todo := features.Keys;
    while todo != {}
      invariant todo <= features.Keys
      invariant forall scoped :: Get(r, scoped) ==
                  if HasScope(project, scoped) && Unscoped(project, scoped) in features.Keys - todo
                  then Some(features[Unscoped(project, scoped)]) else Get(result, scoped)
      decreases |todo|
    {
      var key :| key in todo;
      ScopeRoundTrip(project, key);
      forall scoped | HasScope(project, scoped) && Unscoped(project, scoped) == key
        ensures scoped == ScopedKey(project, key)
      {
      }
      r := r[ScopedKey(project, key) := features[key]];
      todo := todo - {key};
    }
    forall scoped ensures Get(r, scoped) == Get(result + ScopeAll(project, features), scoped) {
      ScopeAllPerKey(project, features, scoped);
    }
    EqualByKeys(r, result + ScopeAll(project, features));
  }

  method BuildCustomerEntitlements(rows: seq<Subscription>, customer: CustomerId, now: int) returns (r: Payload)
    ensures r == Payload(customer, Entries(rows, customer, now), BaseFeatures(rows, customer, now))
  {
    var entries, published := [], map[];
    for i := 0 to |rows|
      invariant entries == Entries(rows[..i], customer, now)
      invariant published == BaseFeatures(rows[..i], customer, now)
    {
      assert rows[..i + 1][..i] == rows[..i];
      var s := rows[i];
      // the status filter of the query
      if s.customer != customer || !(s.status == Active || s.status == Trialing || s.status == Free) {
        continue;
      }
      if !IsEntitled(s, now) {
        continue;
      }
      var features := BuildEffectiveEntitlements(s);
      var projectCode := if s.plan.project.Some? then s.plan.project.value else "global";
      entries := entries +
      [SubscriptionPayload(s.id, s.status, s.plan.code, projectCode, s.currentPeriodEnd, features)];
      published := PublishFeatures(published, projectCode, features);
    }
    assert rows[..|rows|] == rows;
    r := Payload(customer, entries, published);
  }

  /** The body of the item loop. */
  method MergeItem(base: Features, key: string, item: AddOnItem, quantity: nat) returns (r: Result<Features, string>)
    ensures r == MergeOne(base, Contribution(key, item, quantity))
  {
    var present := Get(base, key);
    if item.isIncremental && item.row.valueType == IntegerType {
      var start := 0;
      if present.Some? && Truthy(present.value) {
        var parsed := ToInt(present.value);
        if parsed.None? {
          return Raised(NOT_A_NUMBER);
        }
        start := parsed.value;
      }
      r := Ok(base[key := Int(start + item.row.intValue.GetOr(0) * quantity)]);
    } else if item.row.valueType == BooleanType {
      r := Ok(base[key := Bool((present.Some? && Truthy(present.value)) || item.row.boolValue)]);
    } else {
      r := Ok(base[key := item.row.Value()]);
    }
  }

  lemma ItemPrefix(base: Features, addon: AddOn, items: seq<AddOnItem>, j: nat, quantity: nat)
    requires j < |items|
    ensures MergeAll(base, OfItems(addon, items[..j + 1], quantity)) ==
            (match MergeAll(base, OfItems(addon, items[..j], quantity))
             case Ok(f) => MergeOne(f, Contribution(AddOnKey(addon, items[j].row.key), items[j], quantity))
             case Raised(e) => Raised(e))
  {
    assert items[..j + 1][..j] == items[..j];
    var c := OfItems(addon, items[..j + 1], quantity);
    assert c[..|c| - 1] == OfItems(addon, items[..j], quantity);
  }

  /** The loop over the items of one active add-on. */
  method MergeItems(base: Features, addon: AddOn, quantity: nat) returns (r: Result<Features, string>)
    ensures r == MergeAll(base, OfItems(addon, addon.items, quantity))
  {
    var merged := base;
    var items := addon.items;
    for j := 0 to |items|
      invariant MergeAll(base, OfItems(addon, items[..j], quantity)) == Ok(merged)
    {
      ItemPrefix(base, addon, items, j, quantity);
      var key := if addon.project.Some? && addon.project.value != ""
      then addon.project.value + "." + items[j].row.key else items[j].row.key;
      r := MergeItem(merged, key, items[j], quantity);
      if r.Raised? {
        RaisedPrefixRaises(base, addon, items, j, quantity);
        RaisesAlike(base, OfItems(addon, items, quantity));
        return;
      }
      merged := r.value;
    }
    assert items[..|items|] == items;
    r := Ok(merged);
  }

  method MergeAddonEntitlements(base: Features, s: Subscription) returns (r: Result<Features, string>)
    ensures r == MergeAll(base, OfAttachments(s.addons))
  {
    var merged := base;
    for i := 0 to |s.addons|
      invariant MergeAll(base, OfAttachments(s.addons[..i])) == Ok(merged)
    {
      AttachmentPrefix(base, s.addons, i);
      if s.addons[i].status == AttachmentActive {
        r := MergeItems(merged, s.addons[i].addon, s.addons[i].quantity);
        if r.Raised? {
          RaisedAttachmentRaises(base, s.addons, i);
          RaisesAlike(merged, OfAttachment(s.addons[i]));
          return;
        }
        merged := r.value;
      }
    }
    assert s.addons[..|s.addons|] == s.addons;
    r := Ok(merged);
  }

  lemma AttachmentPrefix(base: Features, attachments: seq<Attachment>, i: nat)
    requires i < |attachments|
    ensures MergeAll(base, OfAttachments(attachments[..i + 1])) ==
            (match MergeAll(base, OfAttachments(attachments[..i]))
             case Ok(f) => MergeAll(f, OfAttachment(attachments[i]))
             case Raised(e) => Raised(e))
  {
    assert attachments[..i + 1][..i] == attachments[..i];
    MergeConcat(base, OfAttachments(attachments[..i]), OfAttachment(attachments[i]));
  }

  /** Once an item raises, the rest of the loop is not reached. */
  lemma {:induction false} RaisedPrefixRaises(base: Features, addon: AddOn, items: seq<AddOnItem>, j: nat,
                                              quantity: nat)
    requires j < |items| && MergeAll(base, OfItems(addon, items[..j + 1], quantity)).Raised?
    ensures MergeAll(base, OfItems(addon, items, quantity)).Raised?
    decreases |items|
  {
    if j + 1 < |items| {
      var front := items[..|items| - 1];
      assert front[..j + 1] == items[..j + 1];
      RaisedPrefixRaises(base, addon, front, j, quantity);
      var cs := OfItems(addon, items, quantity);
      assert cs[..|cs| - 1] == OfItems(addon, front, quantity);
    } else {
      assert items[..j + 1] == items;
    }
  }

  lemma {:induction false} RaisedAttachmentRaises(base: Features, attachments: seq<Attachment>, i: nat)
    requires i < |attachments| && MergeAll(base, OfAttachments(attachments[..i + 1])).Raised?
    ensures MergeAll(base, OfAttachments(attachments)) == Raised(NOT_A_NUMBER)
    decreases |attachments|
  {
    RaisesAlike(base, OfAttachments(attachments));
    if i + 1 < |attachments| {
      var front := attachments[..|attachments| - 1];
      assert front[..i + 1] == attachments[..i + 1];
      RaisedAttachmentRaises(base, front, i);
      MergeConcat(base, OfAttachments(front), OfAttachment(attachments[|attachments| - 1]));
    } else {
      assert attachments[..i + 1] == attachments;
    }
  }

  method BuildCustomerEntitlementsWithAddons(rows: seq<Subscription>, customer: CustomerId, now: int)
    returns (r: Result<Payload, string>)
    ensures r == Build(rows, customer, now)
  {
    var payload := BuildCustomerEntitlements(rows, customer, now);
    var features := payload.features;
    for i := 0 to |rows|
      invariant MergeAll(payload.features, Contributions(rows[..i], customer, now)) == Ok(features)
    {
      assert rows[..i + 1][..i] == rows[..i];
      MergeConcat(payload.features, Contributions(rows[..i], customer, now), OfAttachments(rows[i].addons));
      if !Counts(rows[i], customer, now) {
        continue;
      }
      var step := MergeAddonEntitlements(features, rows[i]);
      if step.Raised? {
        RaisedRowRaises(payload.features, rows, customer, now, i);
        RaisesAlike(features, OfAttachments(rows[i].addons));
        return Raised(step.error);
      }
      features := step.value;
    }
    assert rows[..|rows|] == rows;
    r := Ok(payload.(features := features));
  }

  lemma {:induction false} RaisedRowRaises(base: Features, rows: seq<Subscription>, customer: CustomerId, now: int,
                                           i: nat)
    requires i < |rows| && MergeAll(base, Contributions(rows[..i + 1], customer, now)).Raised?
    ensures MergeAll(base, Contributions(rows, customer, now)) == Raised(NOT_A_NUMBER)
    decreases |rows|
  {
    RaisesAlike(base, Contributions(rows, customer, now));
    if i + 1 < |rows| {
      var front := rows[..|rows| - 1];
      assert front[..i + 1] == rows[..i + 1];
      RaisedRowRaises(base, front, customer, now, i);
      MergeConcat(base, Contributions(front, customer, now), OfAttachments(rows[|rows| - 1].addons));
    } else {
      assert rows[..i + 1] == rows;
    }
  }
}
