/** Logged recalculations that overlap: each reads the previous version and payload before it writes, without a
    lock, and the row lock of the write lets them finish one after the other. */
module VersionRaces {
  import opened Prelude
  import opened Catalog
  import opened Entitlements
  import opened Outbox
  import opened BillingState
  import opened ChangeHistory

  /** A recalculation between its reads and its writes. */
  datatype Draft = Draft(customer: CustomerId, previous: Payload, payload: Payload, version: nat, reason: string)

  datatype Books = Books(snapshots: map<CustomerId, Snapshot>, changeLog: seq<ChangeLog>, outbox: seq<OutboxEvent>,
                         pending: seq<Draft>)

  datatype Move =
    | Begin(customer: CustomerId, payload: Payload, reason: string)
    | Finish(k: nat, now: int)
    | Abandon(k: nat)

  function NextOf(snapshots: map<CustomerId, Snapshot>, c: CustomerId): nat {
    if c in snapshots then snapshots[c].version + 1 else 1
  }

  function Reading(b: Books, c: CustomerId, payload: Payload, reason: string): Draft {
    var previous := if c in b.snapshots then b.snapshots[c].payload else EmptyPayload;
    Draft(c, previous, payload, NextOf(b.snapshots, c), reason)
  }

  function Finished(b: Books, p: Draft, now: int): Books {
    b.(snapshots := b.snapshots[p.customer := Snapshot(p.payload, p.version, now, None, p.reason)],
       changeLog := b.changeLog + [ChangeLog(p.customer, p.previous, p.payload, p.reason)],
       outbox := Enqueue(b.outbox, ChangedMessage(p.customer, p.version, p.reason), now))
  }

  function Next(b: Books, move: Move): Books {
    match move
    case Begin(c, payload, reason) => b.(pending := b.pending + [Reading(b, c, payload, reason)])
    case Finish(k, now) =>
      if k >= |b.pending| then b
      else Finished(b, b.pending[k], now).(pending := b.pending[..k] + b.pending[k + 1..])
    case Abandon(k) => if k >= |b.pending| then b else b.(pending := b.pending[..k] + b.pending[k + 1..])
  }

  function Run(b: Books, moves: seq<Move>): Books {
    if moves == [] then b else Next(Run(b, moves[..|moves| - 1]), moves[|moves| - 1])
  }

  function BooksOf(db: Db): Books {
    Books(db.snapshots, db.changeLog, db.outbox, [])
  }

  /** A recalculation that nothing overlaps is the logged recalculation of the sequential runs. */
  lemma LoneRecalculation(db: Db, c: CustomerId, reason: string, now: int)
    requires StoredPayload(db, c, now).Ok?
    ensures RecalculatedWithLog(db, c, reason, now).Ok?
    ensures Next(Next(BooksOf(db), Begin(c, StoredPayload(db, c, now).value, reason)), Finish(0, now)) ==
            BooksOf(RecalculatedWithLog(db, c, reason, now).value)
  {
  }

  // ---------------------------------------------------------------- what every interleaving keeps

  predicate IsAnnounced(rows: seq<OutboxEvent>, c: CustomerId, version: nat) {
    HasKey(rows, ENTITLEMENTS_CHANGED, EntitlementsKey(c, version))
  }

  /** Log rows and change events correspond one to one, in order. */
  ghost predicate Corresponds(b: Books) {
    ChangeRefs(b.outbox) == LogRefs(b.changeLog)
  }

  lemma FinishedRefs(b: Books, p: Draft, now: int)
    ensures LogRefs(Finished(b, p, now).changeLog) == LogRefs(b.changeLog) + [(p.customer, p.reason)]
    ensures ChangeRefs(Finished(b, p, now).outbox) ==
            ChangeRefs(b.outbox) + if IsAnnounced(b.outbox, p.customer, p.version) then [] else [(p.customer, p.reason)]
  {
    var after := Finished(b, p, now);
    assert after.changeLog[..|after.changeLog| - 1] == b.changeLog;
    if !IsAnnounced(b.outbox, p.customer, p.version) {
      assert after.outbox[..|after.outbox| - 1] == b.outbox;
    }
  }

  /** In any state: a recalculation that finishes is announced if and only if its version has not been announced for its
      customer before; otherwise its log row stays without an event. */
  lemma FinishCorrespondsExactly(b: Books, k: nat, now: int)
    requires Corresponds(b) && k < |b.pending|
    ensures Corresponds(Next(b, Finish(k, now))) <==>
            !IsAnnounced(b.outbox, b.pending[k].customer, b.pending[k].version)
  {
    FinishedRefs(b, b.pending[k], now);
  }

  /** Over every interleaving there are at most as many change events as log rows. */
  lemma {:induction false} EventsNeverOutnumberLogRows(b: Books, moves: seq<Move>)
    requires |ChangeRefs(b.outbox)| <= |LogRefs(b.changeLog)|
    ensures |ChangeRefs(Run(b, moves).outbox)| <= |LogRefs(Run(b, moves).changeLog)|
  {
    if moves != [] {
      var before := Run(b, moves[..|moves| - 1]);
      EventsNeverOutnumberLogRows(b, moves[..|moves| - 1]);
      var move := moves[|moves| - 1];
      if move.Finish? && move.k < |before.pending| {
        FinishedRefs(before, before.pending[move.k], move.now);
      }
    }
  }

  // ---------------------------------------------------------------- exactly when the correspondence breaks

  /** Another recalculation of the customer has finished since this one read. */
  predicate IsOvertaken(b: Books, move: Move) {
    move.Finish? && move.k < |b.pending| &&
    b.pending[move.k].version != NextOf(b.snapshots, b.pending[move.k].customer)
  }

  ghost predicate AllAnnounced(snapshots: map<CustomerId, Snapshot>, rows: seq<OutboxEvent>) {
    forall c, v: nat | c in snapshots && 1 <= v <= snapshots[c].version :: IsAnnounced(rows, c, v)
  }

  /** No recalculation under way is about to skip a version. */
  ghost predicate InBounds(snapshots: map<CustomerId, Snapshot>, pending: seq<Draft>) {
    forall k | 0 <= k < |pending| :: 1 <= pending[k].version <= NextOf(snapshots, pending[k].customer)
  }

  /** Tables in which every version up to the current one has been announced, once and in order. */
  ghost predicate Clean(b: Books) {
    && OneStory(b.snapshots, b.changeLog, b.outbox)
    && AllAnnounced(b.snapshots, b.outbox)
    && InBounds(b.snapshots, b.pending)
  }

  lemma NextIsNotAnnounced(b: Books, c: CustomerId)
    requires AllPublished(b.snapshots, b.outbox)
    ensures !IsAnnounced(b.outbox, c, NextOf(b.snapshots, c))
  {
    forall i | 0 <= i < |b.outbox| && IsChange(b.outbox[i].message)
      ensures b.outbox[i].message.key != EntitlementsKey(c, NextOf(b.snapshots, c))
    {
      var m := b.outbox[i].message;
      KeysAreInjective(m.customer, m.version, c, NextOf(b.snapshots, c));
    }
  }

  lemma EnqueueKeepsAnnounced(rows: seq<OutboxEvent>, m: Message, now: int, c: CustomerId, v: nat)
    requires IsAnnounced(rows, c, v)
    ensures IsAnnounced(Enqueue(rows, m, now), c, v)
  {
    var i :| 0 <= i < |rows| && rows[i].message.eventType == ENTITLEMENTS_CHANGED
      && rows[i].message.key == EntitlementsKey(c, v);
    assert Enqueue(rows, m, now)[i] == rows[i];
  }

  lemma InTurnKeepsStory(b: Books, p: Draft, now: int)
    requires Clean(b) && p.version == NextOf(b.snapshots, p.customer)
    ensures var after := Finished(b, p, now); OneStory(after.snapshots, after.changeLog, after.outbox)
  {
    var after := Finished(b, p, now);
    NextIsNotAnnounced(b, p.customer);
    GrowthKeepsStory(b.snapshots, after.snapshots, b.changeLog, b.outbox);
    forall i | 0 <= i < |b.outbox| && IsChange(b.outbox[i].message) && b.outbox[i].message.customer == p.customer
      ensures b.outbox[i].message.version < p.version
    {
      assert ChangeHistory.Published(b.snapshots, b.outbox[i].message);
    }
    AppendChange(after.snapshots, b.changeLog, b.outbox, ChangeLog(p.customer, p.previous, p.payload, p.reason),
                 p.version, now);
  }

  lemma InTurnKeepsAnnounced(b: Books, p: Draft, now: int)
    requires Clean(b) && p.version == NextOf(b.snapshots, p.customer)
    ensures AllAnnounced(Finished(b, p, now).snapshots, Finished(b, p, now).outbox)
  {
    var after := Finished(b, p, now);
    var m := ChangedMessage(p.customer, p.version, p.reason);
    NextIsNotAnnounced(b, p.customer);
    assert after.outbox == b.outbox + [Fresh(m, now)];
    assert after.outbox[|b.outbox|].message == m;
    forall c, v: nat | c in after.snapshots && 1 <= v <= after.snapshots[c].version
      ensures IsAnnounced(after.outbox, c, v)
    {
      if !(c == p.customer && v == p.version) {
        EnqueueKeepsAnnounced(b.outbox, m, now, c, v);
      }
    }
  }

  lemma InTurnKeepsBounds(b: Books, k: nat, now: int)
    requires InBounds(b.snapshots, b.pending) && k < |b.pending| && !IsOvertaken(b, Finish(k, now))
    ensures InBounds(Next(b, Finish(k, now)).snapshots, Next(b, Finish(k, now)).pending)
  {
    var next := Next(b, Finish(k, now));
    forall j | 0 <= j < |next.pending|
      ensures 1 <= next.pending[j].version <= NextOf(next.snapshots, next.pending[j].customer)
    {
      assert next.pending[j] == b.pending[if j < k then j else j + 1];
    }
  }

  /** A recalculation that finishes in turn keeps everything in order. */
  lemma InTurnKeepsClean(b: Books, k: nat, now: int)
    requires Clean(b) && k < |b.pending| && !IsOvertaken(b, Finish(k, now))
    ensures Clean(Next(b, Finish(k, now)))
  {
    InTurnKeepsStory(b, b.pending[k], now);
    InTurnKeepsAnnounced(b, b.pending[k], now);
    InTurnKeepsBounds(b, k, now);
  }

  lemma MoveKeepsClean(b: Books, move: Move)
    requires Clean(b) && !IsOvertaken(b, move)
    ensures Clean(Next(b, move))
  {
    match move
    case Begin(_, _, _) =>
    case Finish(k, now) =>
      if k < |b.pending| {
        InTurnKeepsClean(b, k, now);
      }
    case Abandon(k) =>
      if k < |b.pending| {
        assert forall j | 0 <= j < |b.pending| - 1 ::
            Next(b, move).pending[j] == b.pending[if j < k then j else j + 1];
      }
  }

  /** An overtaken recalculation is not announced, and sets the version back to one that has been used. */
  lemma OvertakenIsSuppressed(b: Books, k: nat, now: int)
    requires Clean(b) && IsOvertaken(b, Finish(k, now))
    ensures !Corresponds(Next(b, Finish(k, now))) && Next(b, Finish(k, now)).outbox == b.outbox
    ensures var p := b.pending[k]; p.customer in b.snapshots && p.version <= b.snapshots[p.customer].version
  {
    FinishCorrespondsExactly(b, k, now);
  }

  ghost predicate NoneOvertaken(b: Books, moves: seq<Move>) {
    moves != [] ==>
      && NoneOvertaken(b, moves[..|moves| - 1])
      && !IsOvertaken(Run(b, moves[..|moves| - 1]), moves[|moves| - 1])
  }

  ghost predicate CorrespondsThroughout(b: Books, moves: seq<Move>) {
    forall k | 0 <= k <= |moves| :: Corresponds(Run(b, moves[..k]))
  }

  lemma {:induction false} InTurnRunStaysClean(b: Books, moves: seq<Move>)
    requires Clean(b) && NoneOvertaken(b, moves)
    ensures Clean(Run(b, moves))
  {
    if moves != [] {
      InTurnRunStaysClean(b, moves[..|moves| - 1]);
      MoveKeepsClean(Run(b, moves[..|moves| - 1]), moves[|moves| - 1]);
    }
  }

  lemma CorrespondsSoFar(b: Books, moves: seq<Move>)
    requires moves != []
    ensures CorrespondsThroughout(b, moves) <==>
            CorrespondsThroughout(b, moves[..|moves| - 1]) && Corresponds(Run(b, moves))
  {
    var front := moves[..|moves| - 1];
    assert moves[..|moves|] == moves;
    assert forall k | 0 <= k <= |front| :: front[..k] == moves[..k];
    if CorrespondsThroughout(b, moves) {
      forall k | 0 <= k <= |front| ensures Corresponds(Run(b, front[..k])) {
        assert Corresponds(Run(b, moves[..k]));
      }
      assert Corresponds(Run(b, moves[..|moves|]));
    }
    if CorrespondsThroughout(b, front) && Corresponds(Run(b, moves)) {
      forall k | 0 <= k <= |moves| ensures Corresponds(Run(b, moves[..k])) {
        if k < |moves| {
          assert Corresponds(Run(b, front[..k]));
        }
      }
    }
  }

  /** Over every interleaving: log rows and change events correspond throughout if and only if no recalculation is
      overtaken by another one of its customer. */
  lemma {:induction false} RunCorrespondsExactly(b: Books, moves: seq<Move>)
    requires Clean(b)
    ensures CorrespondsThroughout(b, moves) <==> NoneOvertaken(b, moves)
  {
    if moves == [] {
      assert moves[..0] == moves;
    } else {
      var front := moves[..|moves| - 1];
      var move := moves[|moves| - 1];
      RunCorrespondsExactly(b, front);
      CorrespondsSoFar(b, moves);
      if NoneOvertaken(b, front) {
        InTurnRunStaysClean(b, front);
        if IsOvertaken(Run(b, front), move) {
          OvertakenIsSuppressed(Run(b, front), move.k, move.now);
        } else {
          MoveKeepsClean(Run(b, front), move);
        }
      }
    }
  }

  /** The failing interleaving: two recalculations of one customer read before either writes. The log has two rows more,
      the outbox one event more, and the version has moved by one. */
  lemma OverlapLosesAnEvent(b: Books, c: CustomerId, p: Payload, q: Payload, reason: string, now: int, later: int)
    requires Clean(b) && b.pending == []
    ensures var moves := [Begin(c, p, reason), Begin(c, q, reason), Finish(0, now), Finish(0, later)];
            var after := Run(b, moves);
            && |after.changeLog| == |b.changeLog| + 2 && |after.outbox| == |b.outbox| + 1
            && c in after.snapshots && after.snapshots[c].version == NextOf(b.snapshots, c)
  {
    var moves := [Begin(c, p, reason), Begin(c, q, reason), Finish(0, now), Finish(0, later)];
    var one := Next(b, moves[0]);
    var two := Next(one, moves[1]);
    var first, second := Reading(b, c, p, reason), Reading(b, c, q, reason);
    RunOfFour(b, moves);
    assert two == b.(pending := [first, second]);
    MoveKeepsClean(b, moves[0]);
    MoveKeepsClean(one, moves[1]);
    FirstThenSecond(two, first, second, now, later);
  }

  lemma FirstThenSecond(b: Books, first: Draft, second: Draft, now: int, later: int)
    requires Clean(b) && b.pending == [first, second] && first.customer == second.customer
    requires first.version == second.version == NextOf(b.snapshots, first.customer)
    ensures var after := Next(Next(b, Finish(0, now)), Finish(0, later));
            && |after.changeLog| == |b.changeLog| + 2 && |after.outbox| == |b.outbox| + 1
            && first.customer in after.snapshots && after.snapshots[first.customer].version == first.version
  {
    NextIsNotAnnounced(b, first.customer);
    MoveKeepsClean(b, Finish(0, now));
    OvertakenIsSuppressed(Next(b, Finish(0, now)), 0, later);
  }

  lemma RunOfFour(b: Books, moves: seq<Move>)
    requires |moves| == 4
    ensures Run(b, moves) == Next(Next(Next(Next(b, moves[0]), moves[1]), moves[2]), moves[3])
  {
    assert moves[..3][..2] == moves[..2] && moves[..2][..1] == moves[..1] && moves[..1][..0] == [];
    assert Run(b, moves[..1]) == Next(b, moves[0]);
    assert Run(b, moves[..2]) == Next(Run(b, moves[..1]), moves[1]);
    assert Run(b, moves[..3]) == Next(Run(b, moves[..2]), moves[2]);
  }
}
