/** The entitlement snapshot agrees with the slow computation. */
module CacheCoherence {
  import opened Prelude
  import opened Catalog
  import opened Subscriptions
  import opened Entitlements
  import opened BillingState
  import opened Webhooks
  import opened BillingRuns

  /** The customer has a snapshot that reads are served from. */
  predicate IsLive(snapshots: map<CustomerId, Snapshot>, c: CustomerId) {
    c in snapshots && snapshots[c].invalidatedAt.None?
  }

  /** A live snapshot holds what the computation gives for the current rows at the instant the snapshot was
      calculated. */
  predicate Agrees(rows: seq<Subscription>, snapshots: map<CustomerId, Snapshot>, c: CustomerId) {
    IsLive(snapshots, c) ==> Build(rows, c, snapshots[c].calculatedAt) == Ok(snapshots[c].payload)
  }

  predicate CoherentFor(db: Db, c: CustomerId) {
    Agrees(db.subscriptions, db.snapshots, c)
  }

  ghost predicate Coherent(db: Db) {
    forall c :: CoherentFor(db, c)
  }

  /** The row takes part in the live snapshot of the customer. */
  predicate InSnapshot(s: Subscription, snapshots: map<CustomerId, Snapshot>, c: CustomerId) {
    IsLive(snapshots, c) && Counts(s, c, snapshots[c].calculatedAt)
  }

  // ---------------------------------------------------------------- one row is written

  /** What a step does to the subscription table: one row is put in front, or one row is written over. */
  datatype RowWrite = Untouched | Inserted(row: Subscription) | Replaced(index: nat, row: Subscription)

  /** The add-ons of a row that is written over stay. */
  predicate Fits(rows: seq<Subscription>, w: RowWrite) {
    w.Replaced? ==> w.index < |rows| && w.row.addons == rows[w.index].addons
  }

  function Written(rows: seq<Subscription>, w: RowWrite): seq<Subscription>
    requires Fits(rows, w)
  {
    match w
    case Untouched => rows
    case Inserted(row) => [row] + rows
    case Replaced(i, row) => rows[i := row]
  }

  /** What the row contributes to the customer's live snapshot. */
  function Part(s: Subscription, snapshots: map<CustomerId, Snapshot>, c: CustomerId): Option<SubscriptionPayload> {
    if IsLive(snapshots, c) then PartAt(s, c, snapshots[c].calculatedAt) else None
  }

  /** The write changes nothing that the customer's live snapshot shows. */
  predicate KeepsPart(rows: seq<Subscription>, w: RowWrite, snapshots: map<CustomerId, Snapshot>, c: CustomerId)
    requires Fits(rows, w)
  {
    match w
    case Untouched => true
    case Inserted(row) => !InSnapshot(row, snapshots, c)
    case Replaced(i, row) => Part(rows[i], snapshots, c) == Part(row, snapshots, c)
  }

  lemma {:induction false} EntriesWithNewRow(row: Subscription, rows: seq<Subscription>, c: CustomerId, at: int)
    requires Counts(row, c, at)
    ensures |Entries([row] + rows, c, at)| == 1 + |Entries(rows, c, at)|
  {
    var all := [row] + rows;
    if rows != [] {
      assert all[..|all| - 1] == [row] + rows[..|rows| - 1];
      EntriesWithNewRow(row, rows[..|rows| - 1], c, at);
    } else {
      assert all[..0] == [];
    }
  }

  lemma {:induction false} EntriesWithoutRow(rows: seq<Subscription>, i: nat, row: Subscription, c: CustomerId, at: int)
    requires i < |rows| && Counts(rows[i], c, at) && !Counts(row, c, at)
    ensures |Entries(rows[i := row], c, at)| + 1 == |Entries(rows, c, at)|
  {
    var n := |rows| - 1;
    var changed := rows[i := row];
    if i < n {
      assert changed[..n] == rows[..n][i := row];
      EntriesWithoutRow(rows[..n], i, row, c, at);
    } else {
      assert changed[..n] == rows[..n];
    }
  }

  lemma {:induction false} EntriesWithOtherRow(rows: seq<Subscription>, i: nat, row: Subscription, c: CustomerId,
                                               at: int)
    requires i < |rows| && Counts(rows[i], c, at) && Counts(row, c, at)
    ensures |Entries(rows[i := row], c, at)| == |Entries(rows, c, at)|
    ensures Entries(rows[i := row], c, at) == Entries(rows, c, at) ==>
              SubscriptionEntry(row) == SubscriptionEntry(rows[i])
  {
    var n := |rows| - 1;
    var changed := rows[i := row];
    if i < n {
      assert changed[..n] == rows[..n][i := row];
      EntriesWithOtherRow(rows[..n], i, row, c, at);
      if Entries(changed, c, at) == Entries(rows, c, at) {
        var before, after := Entries(rows[..n], c, at), Entries(changed[..n], c, at);
        assert before == Entries(rows, c, at)[..|before|] && after == Entries(changed, c, at)[..|after|];
      }
    } else {
      assert changed[..n] == rows[..n];
      var before := Entries(rows[..n], c, at);
      assert Entries(changed, c, at)[|before|] == SubscriptionEntry(row);
      assert Entries(rows, c, at)[|before|] == SubscriptionEntry(rows[i]);
    }
  }

  /** Different contributions make different payloads. */
  lemma ReplacedEntriesDiffer(rows: seq<Subscription>, i: nat, row: Subscription, c: CustomerId, at: int)
    requires i < |rows|
    requires Counts(rows[i], c, at) != Counts(row, c, at) ||
             (Counts(row, c, at) && SubscriptionEntry(rows[i]) != SubscriptionEntry(row))
    ensures Entries(rows[i := row], c, at) != Entries(rows, c, at)
  {
    if !Counts(row, c, at) {
      EntriesWithoutRow(rows, i, row, c, at);
    } else if Counts(rows[i], c, at) {
      EntriesWithOtherRow(rows, i, row, c, at);
    } else {
      assert rows[i := row][i := rows[i]] == rows;
      EntriesWithoutRow(rows[i := row], i, rows[i], c, at);
    }
  }

  /** Writing one row keeps a live snapshot right if and only if it changes nothing that the snapshot shows. */
  lemma WriteKeepsSnapshotExactly(rows: seq<Subscription>, w: RowWrite, snapshots: map<CustomerId, Snapshot>,
                                  c: CustomerId)
    requires Fits(rows, w) && Agrees(rows, snapshots, c)
    ensures Agrees(Written(rows, w), snapshots, c) <==> KeepsPart(rows, w, snapshots, c)
  {
    if IsLive(snapshots, c) {
      var at := snapshots[c].calculatedAt;
      match w
      case Untouched =>
      case Inserted(row) =>
        if Counts(row, c, at) {
          EntriesWithNewRow(row, rows, c, at);
        } else {
          BuildIgnoresNewRow(row, rows, c, at);
        }
      case Replaced(i, row) =>
        if KeepsPart(rows, w, snapshots, c) {
          BuildDependsOnCountedRows(rows, rows[i := row], c, at, at);
        } else {
          ReplacedEntriesDiffer(rows, i, row, c, at);
        }
    }
  }

  // ---------------------------------------------------------------- recalculation

  lemma RecalculationAgrees(db: Db, customer: CustomerId, reason: string, now: int, c: CustomerId)
    requires Recalculated(db, customer, reason, now).Ok?
    requires c != customer ==> CoherentFor(db, c)
    ensures CoherentFor(Recalculated(db, customer, reason, now).value, c)
  {
  }

  lemma LoggedRecalculationAgrees(db: Db, customer: CustomerId, reason: string, now: int, c: CustomerId)
    requires RecalculatedWithLog(db, customer, reason, now).Ok?
    requires c != customer ==> CoherentFor(db, c)
    ensures CoherentFor(RecalculatedWithLog(db, customer, reason, now).value, c)
  {
    RecalculationAgrees(db, customer, reason, now, c);
  }

  /** The try block rebuilds the touched customer's snapshot unless it breaks before. */
  predicate Rebuilds(db: Db, touched: CustomerId, fault: Fault, now: int) {
    !fault.BeforeWrites? && !fault.BetweenWrites? && !fault.AfterHandler? && StoredPayload(db, touched, now).Ok?
  }

  lemma PublishAgrees(db: Db, touched: Option<CustomerId>, event: StripeEvent, fault: Fault, now: int, c: CustomerId)
    requires CoherentFor(db, c) || (touched == Some(c) && StoredPayload(db, c, now).Ok?)
    ensures CoherentFor(Publish(db, touched, event, fault, now).db, c)
  {
    if touched.Some? && RecalculatedWithLog(db, touched.value, Reason(event), now).Ok? {
      LoggedRecalculationAgrees(db, touched.value, Reason(event), now, c);
    }
  }

  // ---------------------------------------------------------------- webhook handlers

  /** The row that a subscription event is about to overwrite. */
  function TargetRow(db: Db, event: StripeEvent): Option<Subscription> {
    FindStripeFinds(db.subscriptions, event.data.id);
    var i := FindStripe(db.subscriptions, event.data.id);
    if i.Some? then Some(db.subscriptions[i.value]) else None
  }

  /** The event takes a subscription that is in the live snapshot of one customer and gives it to another. */
  predicate MovesSnapshottedRow(db: Db, event: StripeEvent, touched: CustomerId) {
    var row := TargetRow(db, event);
    row.Some? && row.value.customer != touched && InSnapshot(row.value, db.snapshots, row.value.customer)
  }

  /** What the handler writes to the subscription table. */
  function WriteOf(db: Db, event: StripeEvent, now: int): RowWrite {
    var rows, obj := db.subscriptions, event.data;
    var customer := CustomerOf(db, obj.customer);
    FindStripeFinds(rows, obj.id);
    var i := FindStripe(rows, obj.id);
    if event.kind.SubscriptionDeleted? then
      if i.Some? then Replaced(i.value, CancelledRow(rows[i.value], obj, now)) else Untouched
    else if !ChangesSubscriptions(event) || customer.None? || obj.price !in db.providerPrices ||
      IsAmbiguous(rows, obj.id)
    then Untouched
    else
      var price := db.providerPrices[obj.price];
      if i.Some? then Replaced(i.value, Upserted(rows[i.value], customer.value, price, obj))
      else Inserted(Upserted(BlankRow(|rows|, customer.value, price.plan, obj.id), customer.value, price, obj))
  }

  lemma CancelWritesRow(db: Db, event: StripeEvent, now: int)
    requires event.kind.SubscriptionDeleted?
    ensures Fits(db.subscriptions, WriteOf(db, event, now))
    ensures var h := HandleCancel(db, event.data, now);
            h.first == h.db == db.(subscriptions := Written(db.subscriptions, WriteOf(db, event, now)))
  {
    FindStripeFinds(db.subscriptions, event.data.id);
  }

  lemma UpsertWritesRow(db: Db, event: StripeEvent, now: int)
    requires event.kind.SubscriptionCreated? || event.kind.SubscriptionUpdated?
    ensures Fits(db.subscriptions, WriteOf(db, event, now))
    ensures var h := HandleUpsert(db, event.data);
            h.Handled? ==>
              h.first == h.db == db.(subscriptions := Written(db.subscriptions, WriteOf(db, event, now)))
  {
    FindStripeFinds(db.subscriptions, event.data.id);
  }

  lemma OtherEventsWriteNoRow(db: Db, event: StripeEvent, now: int)
    requires !ChangesSubscriptions(event)
    ensures WriteOf(db, event, now) == Untouched
    ensures var h := Handle(db, event, now);
            h.Handled? ==>
              && h.first.subscriptions == h.db.subscriptions == db.subscriptions
              && h.first.snapshots == h.db.snapshots == db.snapshots
              && h.db.encodesDates == db.encodesDates
  {
    HandlerFrame(db, event, now);
  }

  lemma HandlerOfSubscriptionEvent(db: Db, event: StripeEvent, now: int)
    requires ChangesSubscriptions(event)
    ensures Handle(db, event, now) ==
            if event.kind.SubscriptionDeleted? then HandleCancel(db, event.data, now) else HandleUpsert(db, event.data)
  {
  }

  lemma HandlerWritesRow(db: Db, event: StripeEvent, now: int)
    ensures Fits(db.subscriptions, WriteOf(db, event, now))
    ensures var h := Handle(db, event, now);
            h.Handled? ==>
              && h.first.subscriptions == h.db.subscriptions == Written(db.subscriptions, WriteOf(db, event, now))
              && h.first.snapshots == h.db.snapshots == db.snapshots
              && h.db.encodesDates == db.encodesDates
  {
    if !ChangesSubscriptions(event) {
      OtherEventsWriteNoRow(db, event, now);
    } else {
      HandlerOfSubscriptionEvent(db, event, now);
      if event.kind.SubscriptionDeleted? {
        CancelWritesRow(db, event, now);
      } else {
        UpsertWritesRow(db, event, now);
      }
    }
  }

  /** The condition, checkable before the call, under which a call of the processor keeps the customer's snapshot right:
      nothing is written, or the snapshot is rebuilt, or what it shows does not change. */
  predicate KeepsCache(db: Db, event: StripeEvent, fault: Fault, now: int, c: CustomerId) {
    HandlerWritesRow(db, event, now);
    var h := Handle(db, event, now);
    || fault.Escapes? || IsProcessed(db, event.id) || fault.BeforeWrites? || h.Raises?
    || (h.touched == Some(c) && Rebuilds(h.db, c, fault, now))
    || KeepsPart(db.subscriptions, WriteOf(db, event, now), db.snapshots, c)
  }

  /** An attempt that writes but does not rebuild the customer's snapshot leaves the new rows beside the old
      snapshot. */
  lemma UnrebuiltSnapshotStays(db: Db, h: Handled, event: StripeEvent, fault: Fault, now: int, c: CustomerId)
    requires h.Handled? && Framed(db, h, event) && !fault.BeforeWrites?
    requires h.first.subscriptions == h.db.subscriptions && h.first.snapshots == h.db.snapshots == db.snapshots
    requires !(h.touched == Some(c) && Rebuilds(h.db, c, fault, now))
    ensures var after := TryWith(db, h, event, fault, now).db;
            && after.subscriptions == h.db.subscriptions
            && (c in after.snapshots <==> c in db.snapshots)
            && (c in db.snapshots ==> after.snapshots[c] == db.snapshots[c])
  {
    PublishFrame(h.db, h.touched, event, fault, now);
    if h.touched.Some? && h.touched != Some(c) {
      PublishOnlyFor(h.db, h.touched.value, event, fault, now, c);
    }
  }

  lemma PublishOnlyFor(db: Db, touched: CustomerId, event: StripeEvent, fault: Fault, now: int, c: CustomerId)
    requires touched != c
    ensures var after := Publish(db, Some(touched), event, fault, now).db;
            && (c in after.snapshots <==> c in db.snapshots)
            && (c in db.snapshots ==> after.snapshots[c] == db.snapshots[c])
  {
    LoggedOnlyFor(db, touched, Reason(event), now, c);
  }

  lemma LoggedOnlyFor(db: Db, touched: CustomerId, reason: string, now: int, c: CustomerId)
    requires touched != c
    ensures var r := RecalculatedWithLog(db, touched, reason, now);
            r.Ok? ==>
              && (c in r.value.snapshots <==> c in db.snapshots)
              && (c in db.snapshots ==> r.value.snapshots[c] == db.snapshots[c])
  {
  }

  lemma TryKeepsCacheExactly(db: Db, h: Handled, event: StripeEvent, fault: Fault, now: int, c: CustomerId)
    requires CoherentFor(db, c) && Framed(db, h, event) && h.Handled? && !fault.BeforeWrites?
    requires Fits(db.subscriptions, WriteOf(db, event, now))
    requires h.first.subscriptions == h.db.subscriptions == Written(db.subscriptions, WriteOf(db, event, now))
    requires h.first.snapshots == h.db.snapshots == db.snapshots
    ensures CoherentFor(TryWith(db, h, event, fault, now).db, c) <==>
            || (h.touched == Some(c) && Rebuilds(h.db, c, fault, now))
            || KeepsPart(db.subscriptions, WriteOf(db, event, now), db.snapshots, c)
  {
    if h.touched == Some(c) && Rebuilds(h.db, c, fault, now) {
      PublishAgrees(h.db, h.touched, event, fault, now, c);
    } else {
      UnrebuiltSnapshotStays(db, h, event, fault, now, c);
      WriteKeepsSnapshotExactly(db.subscriptions, WriteOf(db, event, now), db.snapshots, c);
    }
  }

  /** For every event, every ending of the attempt and every customer: the cache stays right exactly under that
      condition. */
  lemma ProcessKeepsCacheExactly(db: Db, event: StripeEvent, valid: bool, fault: Fault, now: int, c: CustomerId)
    requires CoherentFor(db, c)
    ensures CoherentFor(ProcessEvent(db, event, valid, fault, now), c) <==> KeepsCache(db, event, fault, now, c)
  {
    if !fault.Escapes? && !IsProcessed(db, event.id) && !fault.BeforeWrites? && Handle(db, event, now).Handled? {
      HandlerFrame(db, event, now);
      HandlerWritesRow(db, event, now);
      ConcludeFrame(Try(db, event, fault, now), event, valid, now);
      TryKeepsCacheExactly(db, Handle(db, event, now), event, fault, now, c);
    }
  }

  // ---------------------------------------------------------------- attempts that write and do not rebuild

  /** The attempt gets as far as its first write and ends without a new snapshot, by a fault or because the payload
      cannot be computed or stored. */
  predicate WritesOnly(db: Db, event: StripeEvent, fault: Fault, now: int) {
    var h := Handle(db, event, now);
    && !fault.Escapes? && !IsProcessed(db, event.id) && !fault.BeforeWrites? && h.Handled?
    && (h.touched.Some? ==> !Rebuilds(h.db, h.touched.value, fault, now))
  }

  /** Then the whole cache stays right if and only if no live snapshot shows the row differently. */
  lemma UnrebuiltAttemptKeepsCacheExactly(db: Db, event: StripeEvent, valid: bool, fault: Fault, now: int)
    requires Coherent(db) && WritesOnly(db, event, fault, now)
    ensures Fits(db.subscriptions, WriteOf(db, event, now))
    ensures Coherent(ProcessEvent(db, event, valid, fault, now)) <==>
            forall c :: KeepsPart(db.subscriptions, WriteOf(db, event, now), db.snapshots, c)
  {
    HandlerWritesRow(db, event, now);
    forall c
      ensures CoherentFor(ProcessEvent(db, event, valid, fault, now), c) <==>
              KeepsPart(db.subscriptions, WriteOf(db, event, now), db.snapshots, c)
    {
      assert CoherentFor(db, c);
      ProcessKeepsCacheExactly(db, event, valid, fault, now, c);
    }
  }

  /** For a deletion: if and only if the cancelled row was not in its customer's live snapshot. */
  lemma UnrebuiltCancellationKeepsCacheExactly(db: Db, event: StripeEvent, valid: bool, fault: Fault, now: int)
    requires Coherent(db) && WritesOnly(db, event, fault, now) && event.kind.SubscriptionDeleted?
    ensures var row := TargetRow(db, event);
            Coherent(ProcessEvent(db, event, valid, fault, now)) <==>
            !(row.Some? && InSnapshot(row.value, db.snapshots, row.value.customer))
  {
    UnrebuiltAttemptKeepsCacheExactly(db, event, valid, fault, now);
    var w := WriteOf(db, event, now);
    if w.Replaced? {
      var row := db.subscriptions[w.index];
      assert KeepsPart(db.subscriptions, w, db.snapshots, row.customer) <==>
             !InSnapshot(row, db.snapshots, row.customer);
      assert forall c | c != row.customer :: KeepsPart(db.subscriptions, w, db.snapshots, c);
    }
  }

  /** For a known price: a known row must show the same in both customers' live snapshots, a new row must not show. */
  lemma UnrebuiltUpsertKeepsCacheExactly(db: Db, event: StripeEvent, valid: bool, fault: Fault, now: int)
    requires Coherent(db) && WritesOnly(db, event, fault, now)
    requires event.kind.SubscriptionCreated? || event.kind.SubscriptionUpdated?
    requires CustomerOf(db, event.data.customer).Some? && event.data.price in db.providerPrices
    ensures var customer := CustomerOf(db, event.data.customer).value;
            var price := db.providerPrices[event.data.price];
            var blank := BlankRow(|db.subscriptions|, customer, price.plan, event.data.id);
            Coherent(ProcessEvent(db, event, valid, fault, now)) <==>
            match TargetRow(db, event)
            case None => !InSnapshot(Upserted(blank, customer, price, event.data), db.snapshots, customer)
            case Some(row) =>
              && Part(row, db.snapshots, customer) ==
                 Part(Upserted(row, customer, price, event.data), db.snapshots, customer)
              && (row.customer != customer ==> !InSnapshot(row, db.snapshots, row.customer))
  {
    UnrebuiltAttemptKeepsCacheExactly(db, event, valid, fault, now);
    var customer, price := CustomerOf(db, event.data.customer).value, db.providerPrices[event.data.price];
    UpsertWritesKnownPrice(db, event, now);
    match TargetRow(db, event)
    case None =>
      var blank := BlankRow(|db.subscriptions|, customer, price.plan, event.data.id);
      InsertedKeepsPartsExactly(db.subscriptions, Upserted(blank, customer, price, event.data), db.snapshots);
    case Some(row) =>
      ReplacedKeepsPartsExactly(db.subscriptions, WriteOf(db, event, now).index,
                                Upserted(row, customer, price, event.data), db.snapshots);
  }

  lemma UpsertWritesKnownPrice(db: Db, event: StripeEvent, now: int)
    requires event.kind.SubscriptionCreated? || event.kind.SubscriptionUpdated?
    requires Handle(db, event, now).Handled?
    requires CustomerOf(db, event.data.customer).Some? && event.data.price in db.providerPrices
    ensures var customer := CustomerOf(db, event.data.customer).value;
            var price := db.providerPrices[event.data.price];
            match TargetRow(db, event)
            case None =>
              var blank := BlankRow(|db.subscriptions|, customer, price.plan, event.data.id);
              WriteOf(db, event, now) == Inserted(Upserted(blank, customer, price, event.data))
            case Some(row) =>
              var w := WriteOf(db, event, now);
              && w.Replaced? && w.index < |db.subscriptions| && db.subscriptions[w.index] == row
              && w.row == Upserted(row, customer, price, event.data)
  {
    HandlerOfSubscriptionEvent(db, event, now);
    FindStripeFinds(db.subscriptions, event.data.id);
  }

  /** Only the customer of a new row can miss it. */
  lemma InsertedKeepsPartsExactly(rows: seq<Subscription>, row: Subscription, snapshots: map<CustomerId, Snapshot>)
    ensures (forall c :: KeepsPart(rows, Inserted(row), snapshots, c)) <==> !InSnapshot(row, snapshots, row.customer)
  {
    assert forall c | c != row.customer :: KeepsPart(rows, Inserted(row), snapshots, c);
    assert KeepsPart(rows, Inserted(row), snapshots, row.customer) <==> !InSnapshot(row, snapshots, row.customer);
  }

  /** Only the old and the new customer of a row can see it change. */
  lemma ReplacedKeepsPartsExactly(rows: seq<Subscription>, i: nat, row: Subscription,
                                  snapshots: map<CustomerId, Snapshot>)
    requires Fits(rows, Replaced(i, row))
    ensures (forall c :: KeepsPart(rows, Replaced(i, row), snapshots, c)) <==>
            && Part(rows[i], snapshots, row.customer) == Part(row, snapshots, row.customer)
            && (rows[i].customer != row.customer ==> !InSnapshot(rows[i], snapshots, rows[i].customer))
  {
    var w := Replaced(i, row);
    assert forall c | c != row.customer && c != rows[i].customer :: KeepsPart(rows, w, snapshots, c);
    assert KeepsPart(rows, w, snapshots, row.customer) <==>
           Part(rows[i], snapshots, row.customer) == Part(row, snapshots, row.customer);
    assert rows[i].customer != row.customer ==>
        (KeepsPart(rows, w, snapshots, rows[i].customer) <==> !InSnapshot(rows[i], snapshots, rows[i].customer));
  }

  /** No injected fault is needed to fail: an ordinary new subscription with a period end, for a customer with a live
      snapshot, is written, cannot be put into a snapshot, and stays outside the live one. */
  lemma OrdinaryCreationLeavesStaleSnapshot(db: Db, event: StripeEvent, valid: bool, now: int, c: CustomerId)
    requires !db.encodesDates && CoherentFor(db, c) && IsLive(db.snapshots, c) && db.snapshots[c].calculatedAt <= now
    requires IsOrdinaryCreation(db, event, now) && CustomerOf(db, event.data.customer) == Some(c)
    requires !IsProcessed(db, event.id)
    ensures var after := ProcessEvent(db, event, valid, NoFault, now);
            after.webhooks[("stripe", event.id)].status == WebhookFailed && !CoherentFor(after, c)
  {
    OrdinaryCreationFails(db, event, valid, now);
    var row := ProcessEvent(db, event, valid, NoFault, now).subscriptions[0];
    assert InSnapshot(row, db.snapshots, c);
    EntriesWithNewRow(row, db.subscriptions, c, db.snapshots[c].calculatedAt);
  }

  // ---------------------------------------------------------------- local steps

  lemma ChangeAgrees(db: Db, id: nat, change: Change, now: int, c: CustomerId)
    requires CoherentFor(db, c) && ChangeApplied(db, id, change, now).Ok?
    ensures CoherentFor(ChangeApplied(db, id, change, now).value, c)
  {
    var i := RowIndex(db, id).value;
    var row := ChangedRow(db.subscriptions[i], change, now).value;
    if row.customer != c {
      WriteKeepsSnapshotExactly(db.subscriptions, Replaced(i, row), db.snapshots, c);
    }
  }

  lemma AttachAgrees(db: Db, id: nat, addon: AddOn, quantity: nat, now: int, c: CustomerId)
    requires CoherentFor(db, c) && AddOnAttached(db, id, addon, quantity, now).Ok?
    ensures CoherentFor(AddOnAttached(db, id, addon, quantity, now).value, c)
  {
    var i := RowIndex(db, id).value;
    var row := db.subscriptions[i];
    if row.customer != c && IsLive(db.snapshots, c) {
      var at := db.snapshots[c].calculatedAt;
      var attached := row.(addons := Attached(row.addons, addon, quantity));
      BuildDependsOnCountedRows(db.subscriptions, db.subscriptions[i := attached], c, at, at);
    }
  }

  function GrantedRow(db: Db, customer: CustomerId, plan: Plan, price: Option<string>, status: Status,
                      periodEnd: Option<int>, now: int): Subscription
  {
    ManuallyGranted(db, customer, plan, price, status, periodEnd, now).subscriptions[0]
  }

  lemma GrantKeepsSnapshotExactly(db: Db, customer: CustomerId, plan: Plan, price: Option<string>, status: Status,
                                  periodEnd: Option<int>, now: int, c: CustomerId)
    requires CoherentFor(db, c)
    ensures CoherentFor(ManuallyGranted(db, customer, plan, price, status, periodEnd, now), c) <==>
            !InSnapshot(GrantedRow(db, customer, plan, price, status, periodEnd, now), db.snapshots, c)
  {
    var row := GrantedRow(db, customer, plan, price, status, periodEnd, now);
    WriteKeepsSnapshotExactly(db.subscriptions, Inserted(row), db.snapshots, c);
  }

  /** `grant_manual_subscription` does not invalidate: it keeps the cache right if and only if the new row would not
      have counted when the customer's live snapshot was calculated. */
  lemma GrantKeepsCacheExactly(db: Db, customer: CustomerId, plan: Plan, price: Option<string>, status: Status,
                               periodEnd: Option<int>, now: int)
    requires Coherent(db)
    ensures Coherent(ManuallyGranted(db, customer, plan, price, status, periodEnd, now)) <==>
            !InSnapshot(GrantedRow(db, customer, plan, price, status, periodEnd, now), db.snapshots, customer)
  {
    forall c
      ensures CoherentFor(ManuallyGranted(db, customer, plan, price, status, periodEnd, now), c) <==>
              !InSnapshot(GrantedRow(db, customer, plan, price, status, periodEnd, now), db.snapshots, c)
    {
      assert CoherentFor(db, c);
      GrantKeepsSnapshotExactly(db, customer, plan, price, status, periodEnd, now, c);
    }
  }

  /** The override says what the row grants without it. */
  predicate IsVacuous(s: Subscription, row: Entitlement) {
    Get(EffectiveEntitlements(s), row.key) == Some(row.Value())
  }

  /** Adding an override does not invalidate either: it keeps the cache right if and only if the subscription is not in
      its customer's live snapshot, or the override says what the subscription grants already. */
  lemma OverrideKeepsCacheExactly(db: Db, id: nat, row: Entitlement, c: CustomerId)
    requires CoherentFor(db, c) && OverrideAdded(db, id, row).Ok?
    ensures var s := db.subscriptions[RowIndex(db, id).value];
            CoherentFor(OverrideAdded(db, id, row).value, c) <==> !InSnapshot(s, db.snapshots, c) || IsVacuous(s, row)
  {
    var i := RowIndex(db, id).value;
    var s := db.subscriptions[i];
    var w := Replaced(i, Overridden(s, row));
    WriteKeepsSnapshotExactly(db.subscriptions, w, db.snapshots, c);
    OverriddenEntitlements(s, row);
    var before := EffectiveEntitlements(s);
    assert before[row.key := row.Value()] == before <==> IsVacuous(s, row) by {
      if before[row.key := row.Value()] == before {
        assert row.key in before && before[row.key] == row.Value();
      }
    }
  }

  /** A Stripe subscription that changes customer: with the event otherwise processed without a fault, the cache stays
      right if and only if the row was not in the previous owner's live snapshot. */
  lemma MoveKeepsCacheExactly(db: Db, event: StripeEvent, valid: bool, now: int)
    requires Coherent(db) && !IsProcessed(db, event.id)
    requires event.kind.SubscriptionCreated? || event.kind.SubscriptionUpdated?
    requires var h := Handle(db, event, now);
             && h.Handled? && h.touched.Some? && event.data.price in db.providerPrices
             && StoredPayload(h.db, h.touched.value, now).Ok?
    ensures Coherent(ProcessEvent(db, event, valid, NoFault, now)) <==>
            !MovesSnapshottedRow(db, event, Handle(db, event, now).touched.value)
  {
    var touched := Handle(db, event, now).touched.value;
    var after := ProcessEvent(db, event, valid, NoFault, now);
    forall c
      ensures CoherentFor(after, c) <==>
              !(MovesSnapshottedRow(db, event, touched) && TargetRow(db, event).value.customer == c)
    {
      assert CoherentFor(db, c);
      MoveKeepsSnapshotExactly(db, event, valid, now, touched, c);
    }
    if MovesSnapshottedRow(db, event, touched) {
      assert !CoherentFor(after, TargetRow(db, event).value.customer);
    }
  }

  /** What a move does to the snapshot of one customer. */
  lemma MoveKeepsSnapshotExactly(db: Db, event: StripeEvent, valid: bool, now: int, touched: CustomerId, c: CustomerId)
    requires event.kind.SubscriptionCreated? || event.kind.SubscriptionUpdated?
    requires var h := Handle(db, event, now);
             && h.Handled? && h.touched == Some(touched) && event.data.price in db.providerPrices
             && StoredPayload(h.db, touched, now).Ok?
    requires !IsProcessed(db, event.id) && CoherentFor(db, c)
    ensures CoherentFor(ProcessEvent(db, event, valid, NoFault, now), c) <==>
            !(MovesSnapshottedRow(db, event, touched) && TargetRow(db, event).value.customer == c)
  {
    ProcessKeepsCacheExactly(db, event, valid, NoFault, now, c);
    MoveKeepsPartExactly(db, event, now, touched, c);
  }

  lemma MoveKeepsPartExactly(db: Db, event: StripeEvent, now: int, touched: CustomerId, c: CustomerId)
    requires event.kind.SubscriptionCreated? || event.kind.SubscriptionUpdated?
    requires var h := Handle(db, event, now);
             && h.Handled? && h.touched == Some(touched) && event.data.price in db.providerPrices
             && StoredPayload(h.db, touched, now).Ok?
    requires !IsProcessed(db, event.id)
    ensures KeepsCache(db, event, NoFault, now, c) <==>
            !(MovesSnapshottedRow(db, event, touched) && TargetRow(db, event).value.customer == c)
  {
    HandlerOfSubscriptionEvent(db, event, now);
    UpsertWritesRow(db, event, now);
    var w := WriteOf(db, event, now);
    assert !w.Untouched? && w.row.customer == touched;
    if w.Replaced? {
      assert TargetRow(db, event) == Some(db.subscriptions[w.index]);
    }
  }

  // ---------------------------------------------------------------- whole runs

  /** The condition, checkable before the step, under which it keeps the customer's snapshot right. */
  predicate StepKeepsCache(db: Db, t: Timed, c: CustomerId) {
    var call := Attempting(db, t.step);
    if call.Some? then KeepsCache(db, call.value.0, call.value.2, t.now, c)
    else if t.step.GrantManual? then
      !InSnapshot(GrantedRow(db, t.step.grantee, t.step.plan, t.step.price, t.step.status, t.step.periodEnd, t.now),
                  db.snapshots, c)
    else if t.step.AddOverride? && OverrideAdded(db, t.step.overridden, t.step.override).Ok? then
      var s := db.subscriptions[RowIndex(db, t.step.overridden).value];
      !InSnapshot(s, db.snapshots, c) || IsVacuous(s, t.step.override)
    else true
  }

  ghost predicate AllKeepCache(db: Db, steps: seq<Timed>, c: CustomerId) {
    steps != [] ==>
      && AllKeepCache(db, steps[..|steps| - 1], c)
      && StepKeepsCache(Run(db, steps[..|steps| - 1]), steps[|steps| - 1], c)
  }

  lemma LoggedStepAgrees(db: Db, t: Timed, c: CustomerId)
    requires CoherentFor(db, c) && t.step.RecalculateWithLog?
    ensures CoherentFor(Exec(db, t), c)
  {
    if RecalculatedWithLog(db, t.step.loggedCustomer, t.step.loggedReason, t.now).Ok? {
      LoggedRecalculationAgrees(db, t.step.loggedCustomer, t.step.loggedReason, t.now, c);
    }
  }

  lemma UnloggedStepAgrees(db: Db, t: Timed, c: CustomerId)
    requires CoherentFor(db, c) && (t.step.Recalculate? || t.step.ReadSnapshot?)
    ensures CoherentFor(Exec(db, t), c)
  {
    var customer := if t.step.Recalculate? then t.step.customer else t.step.reader;
    var reason := if t.step.Recalculate? then t.step.reason else "api_read";
    if Recalculated(db, customer, reason, t.now).Ok? {
      RecalculationAgrees(db, customer, reason, t.now, c);
    }
  }

  lemma LocalStepKeepsCacheExactly(db: Db, t: Timed, c: CustomerId)
    requires CoherentFor(db, c) && Attempting(db, t.step).None?
    ensures CoherentFor(Exec(db, t), c) <==> StepKeepsCache(db, t, c)
  {
    if t.step.ApplyChange? {
      if ChangeApplied(db, t.step.subscription, t.step.change, t.now).Ok? {
        ChangeAgrees(db, t.step.subscription, t.step.change, t.now, c);
      }
    } else if t.step.AttachAddOn? {
      if AddOnAttached(db, t.step.attachTo, t.step.addon, t.step.quantity, t.now).Ok? {
        AttachAgrees(db, t.step.attachTo, t.step.addon, t.step.quantity, t.now, c);
      }
    } else if t.step.GrantManual? {
      GrantKeepsSnapshotExactly(db, t.step.grantee, t.step.plan, t.step.price, t.step.status, t.step.periodEnd, t.now,
                                c);
    } else if t.step.AddOverride? {
      if OverrideAdded(db, t.step.overridden, t.step.override).Ok? {
        OverrideKeepsCacheExactly(db, t.step.overridden, t.step.override, c);
      }
    } else if t.step.RecalculateWithLog? {
      LoggedStepAgrees(db, t, c);
    } else if t.step.Recalculate? || t.step.ReadSnapshot? {
      UnloggedStepAgrees(db, t, c);
    } else {
      LocalStepsFramed(db, t);
    }
  }

  /** Every step, exactly. */
  lemma StepKeepsCacheExactly(db: Db, t: Timed, c: CustomerId)
    requires CoherentFor(db, c)
    ensures CoherentFor(Exec(db, t), c) <==> StepKeepsCache(db, t, c)
  {
    var call := Attempting(db, t.step);
    if call.Some? {
      AttemptingIsProcessEvent(db, t);
      ProcessKeepsCacheExactly(db, call.value.0, call.value.1, call.value.2, t.now, c);
    } else {
      LocalStepKeepsCacheExactly(db, t, c);
    }
  }

  lemma {:induction false} CacheStaysCoherent(db: Db, steps: seq<Timed>, c: CustomerId)
    requires CoherentFor(db, c) && AllKeepCache(db, steps, c)
    ensures CoherentFor(Run(db, steps), c)
  {
    if steps != [] {
      CacheStaysCoherent(db, steps[..|steps| - 1], c);
      StepKeepsCacheExactly(Run(db, steps[..|steps| - 1]), steps[|steps| - 1], c);
    }
  }

  ghost predicate CoherentThroughout(db: Db, steps: seq<Timed>, c: CustomerId) {
    forall k | 0 <= k <= |steps| :: CoherentFor(Run(db, steps[..k]), c)
  }

  lemma ThroughoutSoFar(db: Db, steps: seq<Timed>, c: CustomerId)
    requires steps != []
    ensures CoherentThroughout(db, steps, c) <==>
            CoherentThroughout(db, steps[..|steps| - 1], c) && CoherentFor(Run(db, steps), c)
  {
    var front := steps[..|steps| - 1];
    assert steps[..|steps|] == steps;
    assert forall k | 0 <= k <= |front| :: front[..k] == steps[..k];
    if CoherentThroughout(db, steps, c) {
      forall k | 0 <= k <= |front| ensures CoherentFor(Run(db, front[..k]), c) {
        assert CoherentFor(Run(db, steps[..k]), c);
      }
      assert CoherentFor(Run(db, steps[..|steps|]), c);
    }
    if CoherentThroughout(db, front, c) && CoherentFor(Run(db, steps), c) {
      forall k | 0 <= k <= |steps| ensures CoherentFor(Run(db, steps[..k]), c) {
        if k < |steps| {
          assert CoherentFor(Run(db, front[..k]), c);
        }
      }
    }
  }

  /** The customer's live snapshot is right at every point of a run if and only if every step meets its condition. */
  lemma {:induction false} RunKeepsCacheExactly(db: Db, steps: seq<Timed>, c: CustomerId)
    requires CoherentFor(db, c)
    ensures CoherentThroughout(db, steps, c) <==> AllKeepCache(db, steps, c)
  {
    assert steps[..|steps|] == steps;
    if steps == [] {
      assert CoherentThroughout(db, steps, c);
    } else {
      var front := steps[..|steps| - 1];
      RunKeepsCacheExactly(db, front, c);
      ThroughoutSoFar(db, steps, c);
      if CoherentThroughout(db, front, c) {
        assert front[..|front|] == front;
        StepKeepsCacheExactly(Run(db, front), steps[|steps| - 1], c);
      }
    }
  }

  /** What a read serves: after any run of cache-keeping steps, the payload served at t is the freshly computed one
      if and only if no trial end (inclusive) and no period end (exclusive) of the customer's subscriptions lies between
      the instant the snapshot was calculated and t. */
  lemma ReadsAreFreshExactlyUntilNextEnd(db: Db, steps: seq<Timed>, c: CustomerId, t: int)
    requires CoherentFor(db, c) && RowsInOrder(db.subscriptions) && AllKeepCache(db, steps, c)
    requires ReadThrough(Run(db, steps), c, t).Ok?
    requires ReadThrough(Run(db, steps), c, t).value.1.calculatedAt <= t
    ensures var now := Run(db, steps);
            var served := ReadThrough(now, c, t).value.1;
            Build(now.subscriptions, c, t) == Ok(served.payload) <==>
            !SomeEndCrossed(now.subscriptions, c, served.calculatedAt, t)
  {
    CacheStaysCoherent(db, steps, c);
    SeatsAlwaysMatchQuantity(db, steps);
    ServedIsFreshExactly(Run(db, steps), c, t);
  }

  lemma ServedIsFreshExactly(db: Db, c: CustomerId, t: int)
    requires CoherentFor(db, c) && RowsInOrder(db.subscriptions)
    requires ReadThrough(db, c, t).Ok? && ReadThrough(db, c, t).value.1.calculatedAt <= t
    ensures var served := ReadThrough(db, c, t).value.1;
            Build(db.subscriptions, c, t) == Ok(served.payload) <==>
            !SomeEndCrossed(db.subscriptions, c, served.calculatedAt, t)
  {
    var served := ReadThrough(db, c, t).value.1;
    RowsInOrderDistinct(db.subscriptions);
    assert Build(db.subscriptions, c, served.calculatedAt) == Ok(served.payload);
    StaleExactlyWhenEndCrossed(db.subscriptions, c, served.calculatedAt, t);
  }
}
