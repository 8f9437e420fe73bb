/** From the columns of plan, override and add-on rows to the features of the payload and the answer of a check. */
module RowValues {
  import opened Prelude
  import opened Text
  import opened Catalog
  import opened Subscriptions
  import opened Entitlements
  import opened Usage
  import opened ProductCatalog
  import opened ProductAccess

  /** The value is the one in the row's column: the flag of a boolean row, the number of an integer row or null without
      one, the text of a text row. */
  ghost predicate Carries(v: Value, row: Entitlement) {
    && (row.valueType == BooleanType ==> v.Bool? && (v.b <==> row.boolValue))
    && (row.valueType == IntegerType ==>
          (v == Null <==> row.intValue.None?) && forall n :: v == Int(n) <==> row.intValue == Some(n))
    && (row.valueType == StringType ==> v.Str? && v.s == row.strValue)
  }

  lemma ValueCarries(row: Entitlement)
    ensures Carries(row.Value(), row)
  {
  }

  /** The row decides the key for the subscription: an override does, and a plan row does if no override has the key. */
  ghost predicate Decides(s: Subscription, row: Entitlement) {
    row in s.overrides || (row in s.plan.entitlements && forall o | o in s.overrides :: o.key != row.key)
  }

  ghost predicate KeysAreUnique(s: Subscription) {
    UniqueKeys(s.plan.entitlements) && UniqueKeys(s.overrides)
  }

  /** The features of one subscription, column by column. */
  lemma DecidingRowShows(s: Subscription, row: Entitlement)
    requires KeysAreUnique(s) && Decides(s, row)
    ensures row.key in EffectiveEntitlements(s) && Carries(EffectiveEntitlements(s)[row.key], row)
  {
    OverridesBeatPlan(s, row.key);
    LastRowOfUnique(s.overrides, row.key);
    LastRowOfUnique(s.plan.entitlements, row.key);
    ValueCarries(row);
  }

  /** And nothing else is a feature. */
  lemma FeaturesComeFromRows(s: Subscription, key: string)
    requires KeysAreUnique(s)
    ensures key in EffectiveEntitlements(s) <==> exists row :: Decides(s, row) && row.key == key
  {
    OverridesBeatPlan(s, key);
    LastRowOfUnique(s.overrides, key);
    LastRowOfUnique(s.plan.entitlements, key);
    if row :| row in s.overrides && row.key == key {
      assert Decides(s, row);
    } else if row :| row in s.plan.entitlements && row.key == key {
      assert Decides(s, row);
    }
  }

  // ---------------------------------------------------------------- the payload

  /** Published key of a plan or override row. */
  function PublishedKey(s: Subscription, row: Entitlement): string {
    if s.plan.project.Some? && s.plan.project.value != "global" then s.plan.project.value + "." + row.key else row.key
  }

  /** Row i is of the oldest counted subscription that publishes the key, and `row` decides it there. */
  ghost predicate OldestPublisher(rows: seq<Subscription>, customer: CustomerId, now: int, key: string, i: nat,
                                  row: Entitlement) {
    && i < |rows| && Counts(rows[i], customer, now) && Decides(rows[i], row) && PublishedKey(rows[i], row) == key
    && forall j, r | i < j < |rows| && Counts(rows[j], customer, now) && (r in rows[j].overrides
                                                                           || r in rows[j].plan.entitlements) ::
      PublishedKey(rows[j], r) != key
  }

  lemma PublishedIsDecided(s: Subscription, row: Entitlement)
    requires KeysAreUnique(s) && Decides(s, row)
    ensures Published(s, PublishedKey(s, row)) == Some(row.Value())
  {
    ScopeRoundTrip(ProjectCode(s), row.key);
    LastRowOfUnique(s.overrides, row.key);
    LastRowOfUnique(s.plan.entitlements, row.key);
  }

  lemma {:induction false} LastRowIsARow(rows: seq<Entitlement>, key: string)
    ensures LastRow(rows, key).Some? ==> exists r :: r in rows && r.key == key
  {
    if rows != [] {
      if rows[|rows| - 1].key == key {
        assert rows[|rows| - 1] in rows;
      } else {
        LastRowIsARow(rows[..|rows| - 1], key);
      }
    }
  }

  lemma PublishedNeedsRow(s: Subscription, key: string)
    requires forall r | r in s.overrides || r in s.plan.entitlements :: PublishedKey(s, r) != key
    ensures Published(s, key).None?
  {
    var p := ProjectCode(s);
    if Published(s, key).Some? {
      LastRowIsARow(s.overrides, Unscoped(p, key));
      LastRowIsARow(s.plan.entitlements, Unscoped(p, key));
      var r :| (r in s.overrides || r in s.plan.entitlements) && r.key == Unscoped(p, key);
    }
  }

  lemma {:induction false} OldestPublisherDecides(rows: seq<Subscription>, customer: CustomerId, now: int, key: string,
                                                  i: nat, row: Entitlement)
    requires OldestPublisher(rows, customer, now, key, i, row) && KeysAreUnique(rows[i])
    ensures OldestPublished(rows, customer, now, key) == Some(row.Value())
  {
    var n := |rows| - 1;
    if i == n {
      PublishedIsDecided(rows[i], row);
    } else {
      if Counts(rows[n], customer, now) {
        PublishedNeedsRow(rows[n], key);
      }
      OldestPublisherDecides(rows[..n], customer, now, key, i, row);
    }
  }

  /** The feature under a key that no active add-on names is what stands in the column of the deciding row. */
  lemma BuiltFromColumns(rows: seq<Subscription>, customer: CustomerId, now: int, key: string, i: nat, row: Entitlement)
    requires Build(rows, customer, now).Ok? && ForKey(Contributions(rows, customer, now), key) == []
    requires OldestPublisher(rows, customer, now, key, i, row) && KeysAreUnique(rows[i])
    ensures var features := Build(rows, customer, now).value.features;
            key in features && Carries(features[key], row)
  {
    BuiltUntouched(rows, customer, now, key);
    OldestPublisherDecides(rows, customer, now, key, i, row);
    ValueCarries(row);
  }

  /** With incremental integer add-ons: the number in the deciding row plus, for each active item, its number times the
      attached quantity. */
  lemma QuotaFromColumns(rows: seq<Subscription>, customer: CustomerId, now: int, key: string, i: nat, row: Entitlement)
    requires Build(rows, customer, now).Ok?
    requires OldestPublisher(rows, customer, now, key, i, row) && KeysAreUnique(rows[i])
    requires row.valueType == IntegerType && ForKey(Contributions(rows, customer, now), key) != []
    requires forall c | c in ForKey(Contributions(rows, customer, now), key) ::
               c.item.isIncremental && c.item.row.valueType == IntegerType
    ensures var cs := ForKey(Contributions(rows, customer, now), key);
            var products := seq(|cs|, k requires 0 <= k < |cs| => cs[k].item.row.intValue.GetOr(0) * cs[k].quantity);
            Get(Build(rows, customer, now).value.features, key) == Some(Int(row.intValue.GetOr(0) + Sum(products)))
  {
    var cs := ForKey(Contributions(rows, customer, now), key);
    AmountsFromColumns(cs);
    OldestPublisherDecides(rows, customer, now, key, i, row);
    BuiltQuota(rows, customer, now, key);
  }

  lemma AmountsFromColumns(cs: seq<Contribution>)
    requires forall c | c in cs :: c.item.isIncremental && c.item.row.valueType == IntegerType
    ensures AllAdd(cs)
    ensures Amounts(cs) == seq(|cs|, k requires 0 <= k < |cs| => cs[k].item.row.intValue.GetOr(0) * cs[k].quantity)
  {
  }

  /** An item that neither adds nor disjoins replaces what is there: when it comes last, its column is the feature. */
  lemma ReplacedFromColumns(rows: seq<Subscription>, customer: CustomerId, now: int, key: string)
    requires Build(rows, customer, now).Ok? && ForKey(Contributions(rows, customer, now), key) != []
    requires var cs := ForKey(Contributions(rows, customer, now), key);
             var item := cs[|cs| - 1].item;
             item.row.valueType == StringType || (item.row.valueType == IntegerType && !item.isIncremental)
    ensures var cs := ForKey(Contributions(rows, customer, now), key);
            var features := Build(rows, customer, now).value.features;
            key in features && Carries(features[key], cs[|cs| - 1].item.row)
  {
    var cs := ForKey(Contributions(rows, customer, now), key);
    MergedKey(BaseFeatures(rows, customer, now), Contributions(rows, customer, now), key);
    ValueCarries(cs[|cs| - 1].item.row);
  }

  /** With boolean add-ons: the flag in the deciding row or that of some active item. */
  lemma FlagFromColumns(rows: seq<Subscription>, customer: CustomerId, now: int, key: string, i: nat, row: Entitlement)
    requires Build(rows, customer, now).Ok?
    requires OldestPublisher(rows, customer, now, key, i, row) && KeysAreUnique(rows[i])
    requires row.valueType == BooleanType && ForKey(Contributions(rows, customer, now), key) != []
    requires forall c | c in ForKey(Contributions(rows, customer, now), key) :: c.item.row.valueType == BooleanType
    ensures Get(Build(rows, customer, now).value.features, key) ==
            Some(Bool(row.boolValue ||
                      exists c :: c in ForKey(Contributions(rows, customer, now), key) && c.item.row.boolValue))
  {
    BuiltFlag(rows, customer, now, key);
    OldestPublisherDecides(rows, customer, now, key, i, row);
  }

  // ---------------------------------------------------------------- which add-on items reach the merge

  /** Published key of an add-on item. */
  function ItemKey(addon: AddOn, item: AddOnItem): string {
    if addon.project.Some? && addon.project.value != "" then addon.project.value + "." + item.row.key else item.row.key
  }

  lemma {:induction false} ItemsReachMerge(addon: AddOn, items: seq<AddOnItem>, quantity: nat, c: Contribution)
    ensures c in OfItems(addon, items, quantity) <==>
            c.item in items && c == Contribution(ItemKey(addon, c.item), c.item, quantity)
  {
    if items != [] {
      var front, last := items[..|items| - 1], items[|items| - 1];
      ItemsReachMerge(addon, front, quantity, c);
      assert items == front + [last];
      assert c in OfItems(addon, items, quantity) <==>
             c in OfItems(addon, front, quantity) || c == Contribution(ItemKey(addon, last), last, quantity);
    }
  }

  ghost predicate IsOfAttachment(a: Attachment, c: Contribution) {
    && a.status == AttachmentActive
    && c.item in a.addon.items && c == Contribution(ItemKey(a.addon, c.item), c.item, a.quantity)
  }

  lemma {:induction false} AttachmentsReachMerge(attachments: seq<Attachment>, c: Contribution)
    ensures c in OfAttachments(attachments) <==> exists a :: a in attachments && IsOfAttachment(a, c)
  {
    if attachments != [] {
      var front, last := attachments[..|attachments| - 1], attachments[|attachments| - 1];
      AttachmentsReachMerge(front, c);
      ItemsReachMerge(last.addon, last.addon.items, last.quantity, c);
      assert attachments == front + [last];
      assert c in OfAttachments(attachments) <==> c in OfAttachments(front) || IsOfAttachment(last, c);
      if a :| a in attachments && IsOfAttachment(a, c) {
        assert a in front || a == last;
      }
      if a :| a in front && IsOfAttachment(a, c) {
        assert a in attachments;
      }
      if IsOfAttachment(last, c) {
        assert last in attachments;
      }
    }
  }

  /** Exactly the items of the active add-ons of the counted subscriptions reach the merge, with the quantity of their
      attachment. */
  lemma {:induction false} ContributionsAreExactly(rows: seq<Subscription>, customer: CustomerId, now: int,
                                                   c: Contribution)
    ensures c in Contributions(rows, customer, now) <==>
            exists i, a :: 0 <= i < |rows| && Counts(rows[i], customer, now) && a in rows[i].addons
                           && IsOfAttachment(a, c)
  {
    if rows != [] {
      var front, s := rows[..|rows| - 1], rows[|rows| - 1];
      ContributionsAreExactly(front, customer, now, c);
      AttachmentsReachMerge(s.addons, c);
      if i, a :| 0 <= i < |rows| && Counts(rows[i], customer, now) && a in rows[i].addons && IsOfAttachment(a, c) {
        assert i < |front| ==> front[i] == rows[i];
      }
      if i, a :| 0 <= i < |front| && Counts(front[i], customer, now) && a in front[i].addons && IsOfAttachment(a, c) {
        assert rows[i] == front[i];
      }
      if a :| Counts(s, customer, now) && a in s.addons && IsOfAttachment(a, c) {
        assert rows[|rows| - 1] == s;
      }
    }
  }

  // ---------------------------------------------------------------- the access check

  /** A flag action without ALLOW and DENY is granted if and only if the flag stands in the deciding row of the oldest
      publisher, unless a direct key hides it. */
  lemma FlagActionFromColumns(subject: Subject, product: string, action: string, quantity: nat,
                              overrides: seq<Override>, rows: seq<Subscription>, events: seq<UsageEvent>,
                              now: Moment, clock: int, i: nat, row: Entitlement)
    requires ActionRule(product, action).Some? && ActionRule(product, action).value.limit.None?
    requires subject.customer.Some? && Build(rows, subject.customer.value, clock).Ok?
    requires !AnyOverride(overrides, OwnerOf(subject), product, action, AllowEffect, now)
    requires !AnyOverride(overrides, OwnerOf(subject), product, action, DenyEffect, now)
    requires var required := ActionRule(product, action).value.required;
             && GetOrNull(Build(rows, subject.customer.value, clock).value.features, required) == Null
             && ForKey(Contributions(rows, subject.customer.value, clock), product + "." + required) == []
             && OldestPublisher(rows, subject.customer.value, clock, product + "." + required, i, row)
    requires KeysAreUnique(rows[i]) && row.valueType == BooleanType
    ensures var features := Build(rows, subject.customer.value, clock).value.features;
            IsAllowed(Decide(subject, product, action, quantity, overrides, features, events, now)) <==> row.boolValue
  {
    var customer := subject.customer.value;
    var required := ActionRule(product, action).value.required;
    var features := Build(rows, customer, clock).value.features;
    RulesUseNaturalKeys(product, action);
    var feature := required[|product| + 1..];
    assert required == product + "." + feature;
    BeforeDotOfNaturalKey(product, feature);
    BuiltFromColumns(rows, customer, clock, product + "." + required, i, row);
    assert FeatureValue(features, required) == features[product + "." + required];
    DecisionClosedForm(subject, product, action, quantity, overrides, features, events, now);
  }

  /** What the answer calls remaining is what can still be asked for: a further request is granted if and only if it
      fits into it, when there is no ALLOW. */
  lemma RemainingIsWhatIsLeft(subject: Subject, product: string, action: string, asked: nat, more: nat,
                              overrides: seq<Override>, features: Features, events: seq<UsageEvent>, now: Moment)
    requires !AnyOverride(overrides, OwnerOf(subject), product, action, AllowEffect, now) && more >= 1
    requires var r := Decide(subject, product, action, asked, overrides, features, events, now);
             r.Ok? && r.value.remaining.Some?
    ensures var r := Decide(subject, product, action, asked, overrides, features, events, now);
            IsAllowed(Decide(subject, product, action, more, overrides, features, events, now)) <==>
            more <= r.value.remaining.value
  {
    FirstExistsIffAny(overrides, OwnerOf(subject), product, action, AllowEffect, now);
  }
}
