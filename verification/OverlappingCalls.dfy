/** Calls of the webhook processor that overlap: the guard reads the status of an existing webhook row without
    locking it, so a retry may pass the guard while another retry of the same event is still at work. The first delivery
    of an event inserts the row and holds its unique key until it commits, so it overlaps with nothing. */
module OverlappingCalls {
  import opened Prelude
  import opened Outbox
  import opened BillingState
  import opened Webhooks
  import opened BillingRuns
  import opened ExactlyOnce

  /** A call that has passed the guard. */
  datatype Call = Call(event: StripeEvent, signatureValid: bool)

  datatype System = System(db: Db, inFlight: seq<Call>)

  datatype Move =
    | Alone(t: Timed)
    | Enter(event: StripeEvent, signatureValid: bool)
    | Finish(k: nat, fault: Fault, now: int)

  /** What a call does after its guard. */
  function Worked(db: Db, call: Call, fault: Fault, now: int): Db {
    if fault.Escapes? then db
    else Conclude(Try(db, call.event, fault, now), call.event, call.signatureValid, now)
  }

  predicate PassesGuard(db: Db, event: StripeEvent) {
    ("stripe", event.id) in db.webhooks && !IsProcessed(db, event.id)
  }

  function Next(s: System, move: Move): System {
    match move
    case Alone(t) => s.(db := Exec(s.db, t))
    case Enter(event, valid) =>
      if PassesGuard(s.db, event) then s.(inFlight := s.inFlight + [Call(event, valid)]) else s
    case Finish(k, fault, now) =>
      if k >= |s.inFlight| then s
      else System(Worked(s.db, s.inFlight[k], fault, now), s.inFlight[..k] + s.inFlight[k + 1..])
  }

  function Run(s: System, moves: seq<Move>): System {
    if moves == [] then s else Next(Run(s, moves[..|moves| - 1]), moves[|moves| - 1])
  }

  /** A call that nothing overlaps is the atomic call of the sequential runs. */
  lemma LoneCallIsProcessEvent(s: System, event: StripeEvent, valid: bool, fault: Fault, now: int)
    requires s.inFlight == [] && PassesGuard(s.db, event)
    ensures Next(Next(s, Enter(event, valid)), Finish(0, fault, now)) ==
            System(ProcessEvent(s.db, event, valid, fault, now), [])
  {
  }

  // ---------------------------------------------------------------- what overlapping calls still guarantee

  lemma WorkKeepsUnique(db: Db, call: Call, fault: Fault, now: int)
    requires KeysUnique(db.outbox)
    ensures KeysUnique(Worked(db, call, fault, now).outbox)
  {
    HandlerFrame(db, call.event, now);
    TryKeepsUnique(db, Handle(db, call.event, now), call.event, fault, now);
  }

  lemma {:induction false} OverlappingRunKeepsUnique(s: System, moves: seq<Move>)
    requires KeysUnique(s.db.outbox)
    ensures KeysUnique(Run(s, moves).db.outbox)
  {
    if moves != [] {
      var before := Run(s, moves[..|moves| - 1]);
      OverlappingRunKeepsUnique(s, moves[..|moves| - 1]);
      match moves[|moves| - 1]
      case Alone(t) => StepKeepsUnique(before.db, t);
      case Enter(_, _) =>
      case Finish(k, fault, now) =>
        if k < |before.inFlight| {
          WorkKeepsUnique(before.db, before.inFlight[k], fault, now);
        }
    }
  }

  /** However many calls overlap, an event id has at most one `billing.provider_event.processed` row. */
  lemma AtMostOneAnnouncementOverlapping(s: System, moves: seq<Move>, id: string, i: nat, j: nat)
    requires KeysUnique(s.db.outbox)
    requires var rows := Run(s, moves).db.outbox;
             && i < |rows| && j < |rows|
             && rows[i].message.eventType == rows[j].message.eventType == PROVIDER_EVENT_PROCESSED
             && rows[i].message.key == rows[j].message.key == ProcessedKey(id)
    ensures i == j
  {
    OverlappingRunKeepsUnique(s, moves);
    ProcessedKeysAreInjective(id, id);
  }

  // ---------------------------------------------------------------- what they lose

  lemma WorkStatus(db: Db, call: Call, fault: Fault, now: int, id: string)
    requires !fault.Escapes?
    ensures var after := Worked(db, call, fault, now);
            && (call.event.id != id ==> (IsProcessed(after, id) <==> IsProcessed(db, id)))
            && (IsProcessed(after, call.event.id) <==> Try(db, call.event, fault, now).Done?)
  {
    HandlerFrame(db, call.event, now);
    TryFrame(db, Handle(db, call.event, now), call.event, fault, now);
    ConcludeStatus(db, Try(db, call.event, fault, now), call.event, call.signatureValid, now, id);
  }

  /** PROCESSED is left exactly when a call of the same event, let in before, breaks after the success. */
  lemma ProcessedIsLeftExactlyByLateFailure(s: System, move: Move, id: string)
    requires IsProcessed(s.db, id)
    ensures !IsProcessed(Next(s, move).db, id) <==>
            && move.Finish? && move.k < |s.inFlight| && s.inFlight[move.k].event.id == id && !move.fault.Escapes?
            && Try(s.db, s.inFlight[move.k].event, move.fault, move.now).Broken?
  {
    match move
    case Alone(t) => StatusChanges(s.db, t, id);
    case Enter(_, _) =>
    case Finish(k, fault, now) =>
      if k < |s.inFlight| && !fault.Escapes? {
        WorkStatus(s.db, s.inFlight[k], fault, now, id);
      }
  }

  function CallsOf(inFlight: seq<Call>, id: string): nat {
    if inFlight == [] then 0
    else CallsOf(inFlight[..|inFlight| - 1], id) + if inFlight[|inFlight| - 1].event.id == id then 1 else 0
  }

  lemma {:induction false} CallsOfConcat(a: seq<Call>, b: seq<Call>, id: string)
    ensures CallsOf(a + b, id) == CallsOf(a, id) + CallsOf(b, id)
  {
    if b == [] {
      assert a + b == a;
    } else {
      assert (a + b)[..|a + b| - 1] == a + b[..|b| - 1];
      CallsOfConcat(a, b[..|b| - 1], id);
    }
  }

  lemma CallsOfWithout(inFlight: seq<Call>, k: nat, id: string)
    requires k < |inFlight|
    ensures CallsOf(inFlight, id) ==
            CallsOf(inFlight[..k] + inFlight[k + 1..], id) + if inFlight[k].event.id == id then 1 else 0
  {
    assert inFlight == inFlight[..k] + [inFlight[k]] + inFlight[k + 1..];
    assert [inFlight[k]][..0] == [];
    CallsOfConcat(inFlight[..k] + [inFlight[k]], inFlight[k + 1..], id);
    CallsOfConcat(inFlight[..k], [inFlight[k]], id);
    CallsOfConcat(inFlight[..k], inFlight[k + 1..], id);
  }

  /** The move applies the event in full and marks it PROCESSED. */
  predicate Applies(s: System, move: Move, id: string) {
    match move
    case Alone(t) => Succeeds(s.db, t, id)
    case Enter(_, _) => false
    case Finish(k, fault, now) =>
      && k < |s.inFlight| && s.inFlight[k].event.id == id && !fault.Escapes?
      && Try(s.db, s.inFlight[k].event, fault, now).Done?
  }

  function Applications(s: System, moves: seq<Move>, id: string): nat {
    if moves == [] then 0
    else
      var front := moves[..|moves| - 1];
      Applications(s, front, id) + if Applies(Run(s, front), moves[|moves| - 1], id) then 1 else 0
  }

  /** The hypothesis on one move: at most k calls of the event are at work at a time, and none breaks after a
      success. */
  predicate Tame(s: System, move: Move, id: string, k: nat) {
    && (move.Enter? && move.event.id == id ==> CallsOf(s.inFlight, id) < k)
    && (move.Alone? && Targets(s.db, move.t.step, id) ==> CallsOf(s.inFlight, id) < k)
    && (IsProcessed(s.db, id) ==> IsProcessed(Next(s, move).db, id))
  }

  ghost predicate AllTame(s: System, moves: seq<Move>, id: string, k: nat) {
    moves != [] ==>
      && AllTame(s, moves[..|moves| - 1], id, k)
      && Tame(Run(s, moves[..|moves| - 1]), moves[|moves| - 1], id, k)
  }

  /** Once a call has succeeded, only the calls let in before can still apply the event. */
  ghost predicate Bounded(s: System, applied: nat, id: string, k: nat) {
    && CallsOf(s.inFlight, id) <= k
    && (!IsProcessed(s.db, id) ==> applied == 0)
    && (IsProcessed(s.db, id) ==> applied + CallsOf(s.inFlight, id) <= k)
  }

  lemma FinishKeepsBound(s: System, n: nat, fault: Fault, now: int, id: string, k: nat, applied: nat)
    requires n < |s.inFlight| && Bounded(s, applied, id, k) && Tame(s, Finish(n, fault, now), id, k)
    ensures Bounded(Next(s, Finish(n, fault, now)),
                    applied + if Applies(s, Finish(n, fault, now), id) then 1 else 0, id, k)
  {
    CallsOfWithout(s.inFlight, n, id);
    if !fault.Escapes? {
      WorkStatus(s.db, s.inFlight[n], fault, now, id);
    }
  }

  lemma MoveKeepsBound(s: System, move: Move, id: string, k: nat, applied: nat)
    requires Bounded(s, applied, id, k) && Tame(s, move, id, k)
    ensures Bounded(Next(s, move), applied + if Applies(s, move, id) then 1 else 0, id, k)
  {
    match move
    case Alone(t) => StatusChanges(s.db, t, id);
    case Enter(event, valid) =>
      CallsOfConcat(s.inFlight, [Call(event, valid)], id);
      assert [Call(event, valid)][..0] == [];
    case Finish(n, fault, now) =>
      if n < |s.inFlight| {
        FinishKeepsBound(s, n, fault, now, id, k, applied);
      }
  }

  lemma {:induction false} RunKeepsBound(s: System, moves: seq<Move>, id: string, k: nat)
    requires s.inFlight == [] && !IsProcessed(s.db, id) && AllTame(s, moves, id, k)
    ensures Bounded(Run(s, moves), Applications(s, moves, id), id, k)
  {
    if moves != [] {
      var front := moves[..|moves| - 1];
      RunKeepsBound(s, front, id, k);
      MoveKeepsBound(Run(s, front), moves[|moves| - 1], id, k, Applications(s, front, id));
    }
  }

  /** What exactly-once becomes: with at most k calls of an event at work at a time, and none breaking after a
      success, the event is applied at most k times; with k = 1 at most once. */
  lemma AppliedAtMostKTimes(s: System, moves: seq<Move>, id: string, k: nat)
    requires 1 <= k && s.inFlight == [] && !IsProcessed(s.db, id) && AllTame(s, moves, id, k)
    ensures Applications(s, moves, id) <= k
  {
    RunKeepsBound(s, moves, id, k);
  }

  /** Two overlapping retries really do apply the event twice: a paid invoice of a known customer leaves two rows in the
      change log. */
  lemma OverlapAppliesTwice(db: Db, event: StripeEvent, valid: bool, now: int, later: int)
    requires PassesGuard(db, event) && event.kind.InvoicePaidEvent? && CustomerOf(db, event.data.customer).Some?
    requires StoredPayload(db, CustomerOf(db, event.data.customer).value, now).Ok?
    requires StoredPayload(db, CustomerOf(db, event.data.customer).value, later).Ok?
    ensures var moves := [Enter(event, valid), Enter(event, valid), Finish(0, NoFault, now), Finish(0, NoFault, later)];
            && Applications(System(db, []), moves, event.id) == 2
            && |Run(System(db, []), moves).db.changeLog| == |db.changeLog| + 2
  {
    var call := Call(event, valid);
    var once := Worked(db, call, NoFault, now);
    InvoiceIsApplied(db, call, now);
    InvoiceIsApplied(once, call, later);
    TwoRetries(db, event, valid, now, later);
  }

  /** What two overlapping retries do, move by move. */
  lemma TwoRetries(db: Db, event: StripeEvent, valid: bool, now: int, later: int)
    requires PassesGuard(db, event)
    ensures var moves := [Enter(event, valid), Enter(event, valid), Finish(0, NoFault, now), Finish(0, NoFault, later)];
            var call := Call(event, valid);
            var once := Worked(db, call, NoFault, now);
            && Run(System(db, []), moves).db == Worked(once, call, NoFault, later)
            && Applications(System(db, []), moves, event.id) ==
               (if Try(db, event, NoFault, now).Done? then 1 else 0) +
               (if Try(once, event, NoFault, later).Done? then 1 else 0)
  {
    var call := Call(event, valid);
    var moves := [Enter(event, valid), Enter(event, valid), Finish(0, NoFault, now), Finish(0, NoFault, later)];
    var s0 := System(db, []);
    FourMoves(s0, moves, event.id);
    assert [call, call][..0] + [call, call][1..] == [call];
    assert [] + [call] == [call] && [call] + [call] == [call, call];
  }

  lemma FourMoves(s: System, moves: seq<Move>, id: string)
    requires |moves| == 4
    ensures var a := Next(s, moves[0]);
            var b := Next(a, moves[1]);
            var c := Next(b, moves[2]);
            && Run(s, moves) == Next(c, moves[3])
            && Applications(s, moves, id) ==
               (if Applies(s, moves[0], id) then 1 else 0) + (if Applies(a, moves[1], id) then 1 else 0) +
               (if Applies(b, moves[2], id) then 1 else 0) + (if Applies(c, moves[3], id) then 1 else 0)
  {
    assert moves[..3][..2] == moves[..2] && moves[..2][..1] == moves[..1] && moves[..1][..0] == [];
    assert Run(s, moves[..1]) == Next(s, moves[0]);
    assert Run(s, moves[..2]) == Next(Run(s, moves[..1]), moves[1]);
    assert Run(s, moves[..3]) == Next(Run(s, moves[..2]), moves[2]);
    assert Applications(s, moves[..1], id) == if Applies(s, moves[0], id) then 1 else 0;
    assert Applications(s, moves[..2], id) ==
           Applications(s, moves[..1], id) + if Applies(Run(s, moves[..1]), moves[1], id) then 1 else 0;
    assert Applications(s, moves[..3], id) ==
           Applications(s, moves[..2], id) + if Applies(Run(s, moves[..2]), moves[2], id) then 1 else 0;
  }

  lemma InvoiceIsApplied(db: Db, call: Call, now: int)
    requires call.event.kind.InvoicePaidEvent? && CustomerOf(db, call.event.data.customer).Some?
    requires StoredPayload(db, CustomerOf(db, call.event.data.customer).value, now).Ok?
    ensures Try(db, call.event, NoFault, now).Done?
    ensures var after := Worked(db, call, NoFault, now);
            && |after.changeLog| == |db.changeLog| + 1
            && after.subscriptions == db.subscriptions && after.providerCustomers == db.providerCustomers
            && after.encodesDates == db.encodesDates
  {
    var c := CustomerOf(db, call.event.data.customer).value;
    var h := Handle(db, call.event, now);
    HandlerFrame(db, call.event, now);
    assert StoredPayload(h.db, c, now) == StoredPayload(db, c, now);
    PublishFrame(h.db, h.touched, call.event, NoFault, now);
  }
}
