/** Local changes and recalculations as they interleave: `apply_subscription_change` commits the row and the
    invalidation separately, and `recalculate_entitlement_snapshot` reads the rows before it writes the snapshot. */
module SnapshotRaces {
  import opened Prelude
  import opened Catalog
  import opened Subscriptions
  import opened Entitlements
  import opened BillingState
  import opened CacheCoherence

  /** A recalculation that has computed its payload and not yet written it, with the rows and the instant it read. */
  datatype Read = Read(customer: CustomerId, payload: Payload, rows: seq<Subscription>, readAt: int)

  /** The rows and the instant that a stored payload was computed from. */
  datatype Source = Source(rows: seq<Subscription>, readAt: int)

  /** The committed tables, the recalculations between their read and their write, and the customers for which a changed
      row has been saved and the invalidation is still to come. `sources` observes where each snapshot comes from. */
  datatype Race = Race(rows: seq<Subscription>, snapshots: map<CustomerId, Snapshot>, pending: seq<Read>,
                       owed: seq<CustomerId>, sources: map<CustomerId, Source>)

  datatype Move =
    | Save(i: nat, change: Change, savedAt: int)
    | Invalidate(k: nat, invalidatedAt: int)
    | Die(k: nat)
    | Begin(customer: CustomerId, readAt: int)
    | Write(k: nat, writtenAt: int, reason: string)
    | Abandon(k: nat)

  function Without<T>(s: seq<T>, k: nat): seq<T>
    requires k < |s|
  {
    s[..k] + s[k + 1..]
  }

  function Store(m: Race, r: Read, now: int, reason: string): map<CustomerId, Snapshot> {
    var version := if r.customer in m.snapshots then m.snapshots[r.customer].version + 1 else 1;
    m.snapshots[r.customer := Snapshot(r.payload, version, now, None, reason)]
  }

  /** One move; a move that finds nothing to act on changes nothing. `Die` is a process that ends between the commit of
      the row and the invalidation. */
  function Next(m: Race, move: Move): Race {
    match move
    case Save(i, change, now) =>
      if i >= |m.rows| || ChangedRow(m.rows[i], change, now).Raised? then m
      else
        m.(rows := m.rows[i := ChangedRow(m.rows[i], change, now).value], owed := m.owed + [m.rows[i].customer])
    case Invalidate(k, now) =>
      if k >= |m.owed| then m
      else
        m.(snapshots := Invalidated(m.snapshots, m.owed[k], "subscription_changed", now), owed := Without(m.owed, k))
    case Die(k) => if k >= |m.owed| then m else m.(owed := Without(m.owed, k))
    case Begin(customer, now) =>
      var payload := Build(m.rows, customer, now);
      if payload.Raised? then m else m.(pending := m.pending + [Read(customer, payload.value, m.rows, now)])
    case Write(k, now, reason) =>
      if k >= |m.pending| then m
      else
        var r := m.pending[k];
        m.(snapshots := Store(m, r, now, reason), pending := Without(m.pending, k),
           sources := m.sources[r.customer := Source(r.rows, r.readAt)])
    case Abandon(k) => if k >= |m.pending| then m else m.(pending := Without(m.pending, k))
  }

  function Run(m: Race, moves: seq<Move>): Race {
    if moves == [] then m else Next(Run(m, moves[..|moves| - 1]), moves[|moves| - 1])
  }

  predicate IsRight(m: Race, c: CustomerId) {
    Agrees(m.rows, m.snapshots, c)
  }

  /** The customer's live snapshot is right, or an invalidation is on its way. */
  predicate Guarded(m: Race, c: CustomerId) {
    IsRight(m, c) || c in m.owed
  }

  /** No call is under way. */
  predicate Settled(m: Race) {
    m.pending == [] && m.owed == []
  }

  /** What every run keeps: a read and a live snapshot hold what the rows they come from gave at that instant, and those
      rows are the ones of the table in an earlier state. */
  ghost predicate Traced(m: Race) {
    && DistinctIds(m.rows)
    && (forall k | 0 <= k < |m.pending| ::
          var r := m.pending[k]; SameRows(r.rows, m.rows) && Build(r.rows, r.customer, r.readAt) == Ok(r.payload))
    && (forall c | IsLive(m.snapshots, c) ::
          && c in m.sources && SameRows(m.sources[c].rows, m.rows)
          && Build(m.sources[c].rows, c, m.sources[c].readAt) == Ok(m.snapshots[c].payload))
  }

  /** No row of the customer shows anything else in the table than in the customer's live snapshot. */
  predicate ShownAsStored(m: Race, c: CustomerId) {
    IsLive(m.snapshots, c) && c in m.sources ==>
      ShowSame(m.sources[c].rows, m.sources[c].readAt, m.rows, m.snapshots[c].calculatedAt, c)
  }

  /** The condition on the rows under which a move leaves the customer guarded. A write: since the read no row has
      come to show anything else, through a save or through the end of a period, or an invalidation is still to come. A
      death: the saves it leaves behind show nothing else than the snapshot does, or another invalidation is still to
      come. */
  predicate Harmless(m: Race, move: Move, c: CustomerId) {
    match move
    case Write(k, now, _) =>
      k < |m.pending| && m.pending[k].customer == c ==>
        ShowSame(m.pending[k].rows, m.pending[k].readAt, m.rows, now, c) || c in m.owed
    case Die(k) => k < |m.owed| && m.owed[k] == c ==> ShownAsStored(m, c) || c in Without(m.owed, k)
    case _ => true
  }

  lemma SaveKeepsTraced(m: Race, i: nat, change: Change, now: int)
    requires Traced(m)
    ensures Traced(Next(m, Save(i, change, now)))
  {
    var next := Next(m, Save(i, change, now));
    forall rows | SameRows(rows, m.rows) ensures SameRows(rows, next.rows) {
    }
  }

  lemma WriteKeepsTraced(m: Race, k: nat, now: int, reason: string)
    requires Traced(m)
    ensures Traced(Next(m, Write(k, now, reason)))
  {
    var next := Next(m, Write(k, now, reason));
    if k < |m.pending| {
      forall j | 0 <= j < |next.pending| ensures next.pending[j] == m.pending[if j < k then j else j + 1] {
      }
    }
  }

  lemma BeginKeepsTraced(m: Race, customer: CustomerId, now: int)
    requires Traced(m)
    ensures Traced(Next(m, Begin(customer, now)))
  {
  }

  lemma InvalidateKeepsTraced(m: Race, k: nat, now: int)
    requires Traced(m)
    ensures Traced(Next(m, Invalidate(k, now)))
  {
  }

  lemma MoveKeepsTraced(m: Race, move: Move)
    requires Traced(m)
    ensures Traced(Next(m, move))
  {
    match move
    case Save(i, change, now) => SaveKeepsTraced(m, i, change, now);
    case Invalidate(k, now) => InvalidateKeepsTraced(m, k, now);
    case Die(_) =>
    case Begin(customer, now) => BeginKeepsTraced(m, customer, now);
    case Write(k, now, reason) => WriteKeepsTraced(m, k, now, reason);
    case Abandon(k) =>
      if k < |m.pending| {
        assert forall j | 0 <= j < |m.pending| - 1 ::
            Without(m.pending, k)[j] == m.pending[if j < k then j else j + 1];
      }
  }

  lemma {:induction false} RunKeepsTraced(m: Race, moves: seq<Move>)
    requires Traced(m)
    ensures Traced(Run(m, moves))
  {
    if moves != [] {
      RunKeepsTraced(m, moves[..|moves| - 1]);
      MoveKeepsTraced(Run(m, moves[..|moves| - 1]), moves[|moves| - 1]);
    }
  }

  /** A live snapshot is right if and only if no row has come to show anything else. */
  lemma RightExactlyWhenShownAsStored(m: Race, c: CustomerId)
    requires Traced(m)
    ensures IsRight(m, c) <==> ShownAsStored(m, c)
  {
    if IsLive(m.snapshots, c) {
      var source := m.sources[c];
      SameRowsDistinct(m.rows, source.rows);
      BuildEqualExactly(source.rows, m.rows, c, source.readAt, m.snapshots[c].calculatedAt);
    }
  }

  lemma SameRowsDistinct(rows: seq<Subscription>, earlier: seq<Subscription>)
    requires DistinctIds(rows) && SameRows(earlier, rows)
    ensures DistinctIds(earlier)
  {
  }

  lemma RemainsOwed(owed: seq<CustomerId>, k: nat, c: CustomerId)
    requires k < |owed|
    ensures c in Without(owed, k) ==> c in owed
    ensures c in owed && owed[k] != c ==> c in Without(owed, k)
  {
    assert owed == owed[..k] + [owed[k]] + owed[k + 1..];
  }

  lemma SaveKeepsGuard(m: Race, i: nat, change: Change, now: int, c: CustomerId)
    requires Guarded(m, c)
    ensures Guarded(Next(m, Save(i, change, now)), c)
  {
    if i < |m.rows| && ChangedRow(m.rows[i], change, now).Ok? {
      var row := ChangedRow(m.rows[i], change, now).value;
      if m.rows[i].customer != c && IsRight(m, c) {
        assert row.customer == m.rows[i].customer && row.addons == m.rows[i].addons;
        WriteKeepsSnapshotExactly(m.rows, Replaced(i, row), m.snapshots, c);
      }
    }
  }

  lemma WriteKeepsGuardExactly(m: Race, k: nat, now: int, reason: string, c: CustomerId)
    requires Traced(m) && Guarded(m, c)
    ensures Guarded(Next(m, Write(k, now, reason)), c) <==> Harmless(m, Write(k, now, reason), c)
  {
    if k < |m.pending| && m.pending[k].customer == c {
      var r := m.pending[k];
      SameRowsDistinct(m.rows, r.rows);
      BuildEqualExactly(r.rows, m.rows, c, r.readAt, now);
    }
  }

  /** Every move, exactly. */
  lemma MoveKeepsGuardExactly(m: Race, move: Move, c: CustomerId)
    requires Traced(m) && Guarded(m, c)
    ensures Guarded(Next(m, move), c) <==> Harmless(m, move, c)
  {
    match move
    case Save(i, change, now) => SaveKeepsGuard(m, i, change, now, c);
    case Invalidate(k, now) =>
      if k < |m.owed| {
        RemainsOwed(m.owed, k, c);
      }
    case Die(k) =>
      RightExactlyWhenShownAsStored(m, c);
      if k < |m.owed| {
        RemainsOwed(m.owed, k, c);
      }
    case Begin(_, _) =>
    case Write(k, now, reason) => WriteKeepsGuardExactly(m, k, now, reason, c);
    case Abandon(_) =>
  }

  ghost predicate AllHarmless(m: Race, moves: seq<Move>, c: CustomerId) {
    moves != [] ==>
      && AllHarmless(m, moves[..|moves| - 1], c)
      && Harmless(Run(m, moves[..|moves| - 1]), moves[|moves| - 1], c)
  }

  ghost predicate GuardedThroughout(m: Race, moves: seq<Move>, c: CustomerId) {
    forall k | 0 <= k <= |moves| :: Guarded(Run(m, moves[..k]), c)
  }

  lemma GuardedSoFar(m: Race, moves: seq<Move>, c: CustomerId)
    requires moves != []
    ensures GuardedThroughout(m, moves, c) <==>
            GuardedThroughout(m, moves[..|moves| - 1], c) && Guarded(Run(m, moves), c)
  {
    var front := moves[..|moves| - 1];
    assert moves[..|moves|] == moves;
    assert forall k | 0 <= k <= |front| :: front[..k] == moves[..k];
    if GuardedThroughout(m, moves, c) {
      forall k | 0 <= k <= |front| ensures Guarded(Run(m, front[..k]), c) {
        assert Guarded(Run(m, moves[..k]), c);
      }
      assert Guarded(Run(m, moves[..|moves|]), c);
    }
    if GuardedThroughout(m, front, c) && Guarded(Run(m, moves), c) {
      forall k | 0 <= k <= |moves| ensures Guarded(Run(m, moves[..k]), c) {
        if k < |moves| {
          assert Guarded(Run(m, front[..k]), c);
        }
      }
    }
  }

  /** Over every interleaving: a stale live snapshot is always about to be invalidated, if and only if every write and
      every death of a process is harmless. */
  lemma {:induction false} RunKeepsGuardExactly(m: Race, moves: seq<Move>, c: CustomerId)
    requires Traced(m) && Guarded(m, c)
    ensures GuardedThroughout(m, moves, c) <==> AllHarmless(m, moves, c)
  {
    if moves == [] {
      assert moves[..0] == moves;
    } else {
      var front := moves[..|moves| - 1];
      RunKeepsGuardExactly(m, front, c);
      GuardedSoFar(m, moves, c);
      if GuardedThroughout(m, front, c) {
        assert front[..|front|] == front;
        RunKeepsTraced(m, front);
        MoveKeepsGuardExactly(Run(m, front), moves[|moves| - 1], c);
      }
    }
  }

  /** So a run of harmless moves that has settled leaves every live snapshot right. */
  lemma SettledIsRight(m: Race, moves: seq<Move>, c: CustomerId)
    requires Traced(m) && Guarded(m, c) && AllHarmless(m, moves, c) && Settled(Run(m, moves))
    ensures IsRight(Run(m, moves), c)
  {
    RunKeepsGuardExactly(m, moves, c);
    assert moves[..|moves|] == moves;
    assert Guarded(Run(m, moves[..|moves|]), c);
  }

  /** For every run of moves between the read and the write of a recalculation: the snapshot is right after the write if
      and only if no row shows anything else at the write than it did at the read. */
  lemma OvertakenWriteIsRightExactly(m: Race, c: CustomerId, readAt: int, between: seq<Move>, k: nat, writtenAt: int,
                                     reason: string)
    requires Traced(m) && Build(m.rows, c, readAt).Ok?
    requires var r := Run(Next(m, Begin(c, readAt)), between);
             k < |r.pending| && r.pending[k] == Read(c, Build(m.rows, c, readAt).value, m.rows, readAt)
    ensures var r := Run(Next(m, Begin(c, readAt)), between);
            IsRight(Next(r, Write(k, writtenAt, reason)), c) <==> ShowSame(m.rows, readAt, r.rows, writtenAt, c)
  {
    MoveKeepsTraced(m, Begin(c, readAt));
    RunKeepsTraced(Next(m, Begin(c, readAt)), between);
    BuildEqualExactly(m.rows, Run(Next(m, Begin(c, readAt)), between).rows, c, readAt, writtenAt);
  }

  /** When nothing comes between, that is: if and only if no trial or period end is crossed. */
  lemma UndisturbedWriteIsHarmless(m: Race, c: CustomerId, readAt: int, writtenAt: int, reason: string)
    requires readAt <= writtenAt && Build(m.rows, c, readAt).Ok?
    ensures var read := Next(m, Begin(c, readAt));
            Harmless(read, Write(|m.pending|, writtenAt, reason), c) <==>
            !SomeEndCrossed(m.rows, c, readAt, writtenAt) || c in m.owed
  {
    ShownSameUnlessEndCrossed(m.rows, c, readAt, writtenAt);
  }

  /** A process that saves a change and dies leaves the snapshot right if and only if the saved row shows in it as
      the old one did. */
  lemma DeathAfterSaveIsRightExactly(m: Race, i: nat, change: Change, now: int)
    requires i < |m.rows| && ChangedRow(m.rows[i], change, now).Ok? && IsRight(m, m.rows[i].customer)
    ensures var c := m.rows[i].customer;
            var row := ChangedRow(m.rows[i], change, now).value;
            IsRight(Next(Next(m, Save(i, change, now)), Die(|m.owed|)), c) <==>
            Part(m.rows[i], m.snapshots, c) == Part(row, m.snapshots, c)
  {
    var row := ChangedRow(m.rows[i], change, now).value;
    WriteKeepsSnapshotExactly(m.rows, Replaced(i, row), m.snapshots, m.rows[i].customer);
  }

  /** The failing interleaving: a recalculation reads, an immediate cancellation is saved and invalidates, and the
      recalculation writes what it read. All calls have ended, and the live snapshot still grants the subscription. */
  lemma OvertakenWriteLeavesStaleSnapshot(m: Race, i: nat, now: int, reason: string) returns (moves: seq<Move>)
    requires Settled(m) && i < |m.rows| && Counts(m.rows[i], m.rows[i].customer, now)
    requires Build(m.rows, m.rows[i].customer, now).Ok?
    ensures Settled(Run(m, moves)) && !IsRight(Run(m, moves), m.rows[i].customer)
  {
    var c := m.rows[i].customer;
    var read := Read(c, Build(m.rows, c, now).value, m.rows, now);
    moves := [Begin(c, now), Save(i, CancelNow, now), Invalidate(0, now), Write(0, now, reason)];
    RunOfFour(m, moves);
    CancelBehindRead(m.(pending := [read]), i, now);
    LateWriteIsWrong(Next(Next(m.(pending := [read]), moves[1]), moves[2]), read, i, now, reason);
  }

  lemma CancelBehindRead(m: Race, i: nat, now: int)
    requires m.owed == [] && i < |m.rows|
    ensures var row := ChangedRow(m.rows[i], CancelNow, now).value;
            var after := Next(Next(m, Save(i, CancelNow, now)), Invalidate(0, now));
            after.rows == m.rows[i := row] && after.pending == m.pending && after.owed == []
  {
  }

  /** The read still counts a row that has been cancelled since. */
  lemma LateWriteIsWrong(m: Race, r: Read, i: nat, now: int, reason: string)
    requires m.pending == [r] && m.owed == [] && i < |r.rows| && Counts(r.rows[i], r.customer, now)
    requires m.rows == r.rows[i := ChangedRow(r.rows[i], CancelNow, now).value]
    requires Build(r.rows, r.customer, now) == Ok(r.payload)
    ensures Settled(Next(m, Write(0, now, reason))) && !IsRight(Next(m, Write(0, now, reason)), r.customer)
  {
    EntriesWithoutRow(r.rows, i, ChangedRow(r.rows[i], CancelNow, now).value, r.customer, now);
  }

  lemma RunOfFour(m: Race, moves: seq<Move>)
    requires |moves| == 4
    ensures Run(m, moves) == Next(Next(Next(Next(m, moves[0]), moves[1]), moves[2]), moves[3])
  {
    assert moves[..3][..2] == moves[..2] && moves[..2][..1] == moves[..1] && moves[..1][..0] == [];
    assert Run(m, moves[..1]) == Next(m, moves[0]);
    assert Run(m, moves[..2]) == Next(Run(m, moves[..1]), moves[1]);
    assert Run(m, moves[..3]) == Next(Run(m, moves[..2]), moves[2]);
  }
}
