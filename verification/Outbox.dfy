/** The transactional outbox: `enqueue_billing_outbox_event` and `dispatch_due_outbox_events`. */
module Outbox {
  import opened Prelude
  import opened Backoff
  import DueOrder

  datatype DispatchStatus = Pending | Processing | Dispatched | Failed | Cancelled

  /** What the producer wrote; dispatching never touches it. */
  datatype Message = Message(eventType: string, customer: nat, key: string, version: nat, reason: string)

  datatype OutboxEvent = OutboxEvent(
    message: Message, status: DispatchStatus, attempts: nat, maxAttempts: nat, nextAttemptAt: int,
    lockedAt: Option<int>, dispatchedAt: Option<int>, lastError: string
  )

  const DEFAULT_MAX_ATTEMPTS := 8

  function Fresh(message: Message, now: int): OutboxEvent {
    OutboxEvent(message, Pending, 0, DEFAULT_MAX_ATTEMPTS, now, None, None, "")
  }

  predicate HasKey(rows: seq<OutboxEvent>, eventType: string, key: string) {
    exists i | 0 <= i < |rows| :: rows[i].message.eventType == eventType && rows[i].message.key == key
  }

  /** A non-blank key enqueues once per event type. */
  function Enqueue(rows: seq<OutboxEvent>, message: Message, now: int): seq<OutboxEvent> {
    if message.key != "" && HasKey(rows, message.eventType, message.key) then rows else rows + [Fresh(message, now)]
  }

  // ---------------------------------------------------------------- selecting due rows

  predicate IsDue(e: OutboxEvent, now: int, eventType: string) {
    && (e.status == Pending || e.status == Failed)
    && e.nextAttemptAt <= now && e.attempts < e.maxAttempts
    && (eventType == "" || e.message.eventType == eventType)
  }

  /** The ordering (next_attempt_at, created_at); rows are stored in creation order. */
  predicate Earlier(rows: seq<OutboxEvent>, i: nat, j: nat)
    requires i < |rows| && j < |rows|
  {
    rows[i].nextAttemptAt < rows[j].nextAttemptAt || (rows[i].nextAttemptAt == rows[j].nextAttemptAt && i < j)
  }

  ghost predicate InOrder(rows: seq<OutboxEvent>, selected: seq<nat>)
    requires DueOrder.InRange(selected, |rows|)
  {
    forall j, k | 0 <= j < k < |selected| :: Earlier(rows, selected[j], selected[k])
  }

  function NextAttempts(rows: seq<OutboxEvent>): seq<int> {
    seq(|rows|, i requires 0 <= i < |rows| => rows[i].nextAttemptAt)
  }

  /** Which rows are due and held by no other transaction. */
  function Free(rows: seq<OutboxEvent>, held: set<nat>, now: int, eventType: string): seq<bool> {
    seq(|rows|, i requires 0 <= i < |rows| => IsDue(rows[i], now, eventType) && i !in held)
  }

  function Selected(rows: seq<OutboxEvent>, held: set<nat>, now: int, eventType: string, limit: nat): (r: seq<nat>)
    ensures DueOrder.InRange(r, |rows|)
  {
    DueOrder.Picked(NextAttempts(rows), Free(rows, held, now, eventType), limit)
  }

  /** The claim is oldest first: distinct due rows that nobody holds, and a row that was passed over comes after every
      row taken, with the limit used up. */
  lemma SelectionIsOldestFirst(rows: seq<OutboxEvent>, held: set<nat>, now: int, eventType: string, limit: nat)
    ensures var s := Selected(rows, held, now, eventType, limit);
            && |s| <= limit && InOrder(rows, s)
            && (forall k | 0 <= k < |s| :: IsDue(rows[s[k]], now, eventType) && s[k] !in held)
            && (forall j, k | 0 <= j < k < |s| :: s[j] != s[k])
            && (forall i: nat | i < |rows| && IsDue(rows[i], now, eventType) && i !in held && i !in s ::
                  |s| == limit && forall k | 0 <= k < |s| :: Earlier(rows, s[k], i))
  {
    DueOrder.PickedIsEarliestFirst(NextAttempts(rows), Free(rows, held, now, eventType), limit);
    var s := Selected(rows, held, now, eventType, limit);
    forall i: nat, j: nat | i < |rows| && j < |rows|
      ensures Earlier(rows, i, j) <==> DueOrder.Earlier(NextAttempts(rows), i, j)
    {
    }
    forall i: nat | i < |rows| && IsDue(rows[i], now, eventType) && i !in held && i !in s
      ensures |s| == limit && forall k | 0 <= k < |s| :: Earlier(rows, s[k], i)
    {
      assert Free(rows, held, now, eventType)[i];
    }
  }

  // ---------------------------------------------------------------- one attempt

  /** What the delivery hook did, and when it returned. */
  datatype Outcome = Delivered(at: int) | Refused(at: int, error: string)

  /** The first save of the loop body. */
  function Started(e: OutboxEvent, now: int): OutboxEvent {
    e.(status := Processing, lockedAt := Some(now), attempts := e.attempts + 1)
  }

  /** The second save. */
  function Finished(e: OutboxEvent, outcome: Outcome): OutboxEvent {
    match outcome
    case Delivered(at) => e.(status := Dispatched, dispatchedAt := Some(at), lastError := "", lockedAt := None)
    case Refused(at, error) =>
      e.(status := Failed, lastError := error, nextAttemptAt := at + Delay(e.attempts), lockedAt := None)
  }

  function Attempted(e: OutboxEvent, now: int, outcome: Outcome): OutboxEvent {
    Finished(Started(e, now), outcome)
  }

  /** The whole loop: the k-th claimed row meets the k-th outcome. */
  function DispatchRows(rows: seq<OutboxEvent>, claims: seq<nat>, now: int,
                        outcomes: seq<Outcome>): (r: seq<OutboxEvent>)
    requires |outcomes| == |claims| && DueOrder.InRange(claims, |rows|)
    ensures |r| == |rows|
  {
    if claims == [] then rows
    else
      var n := |claims| - 1;
      var before := DispatchRows(rows, claims[..n], now, outcomes[..n]);
      before[claims[n] := Attempted(before[claims[n]], now, outcomes[n])]
  }

  ghost predicate Distinct(claims: seq<nat>) {
    forall j, k | 0 <= j < k < |claims| :: claims[j] != claims[k]
  }

  /** Row by row: a claimed row is attempted once, every other row stays, and messages are never touched. */
  lemma {:induction false} DispatchRowByRow(rows: seq<OutboxEvent>, claims: seq<nat>, now: int, outcomes: seq<Outcome>)
    requires |outcomes| == |claims| && DueOrder.InRange(claims, |rows|) && Distinct(claims)
    ensures var r := DispatchRows(rows, claims, now, outcomes);
            && (forall k | 0 <= k < |claims| :: r[claims[k]] == Attempted(rows[claims[k]], now, outcomes[k]))
            && (forall i: nat | i < |rows| && i !in claims :: r[i] == rows[i])
            && (forall i: nat | i < |rows| :: r[i].message == rows[i].message)
  {
    if claims != [] {
      var n := |claims| - 1;
      DispatchRowByRow(rows, claims[..n], now, outcomes[..n]);
      var before := DispatchRows(rows, claims[..n], now, outcomes[..n]);
      assert claims[n] !in claims[..n];
      var r := before[claims[n] := Attempted(before[claims[n]], now, outcomes[n])];
      assert r == DispatchRows(rows, claims, now, outcomes);
      forall k | 0 <= k < |claims| ensures r[claims[k]] == Attempted(rows[claims[k]], now, outcomes[k]) {
        if k < n {
          assert claims[..n][k] == claims[k] && outcomes[..n][k] == outcomes[k];
        }
      }
      forall i: nat | i < |rows| && i !in claims ensures r[i] == rows[i] {
        assert i !in claims[..n] && i != claims[n];
      }
    }
  }

  /** An attempt counts itself. A delivered row is dated and never due again; a refused row keeps its error and is due
      again exactly after its wait, if attempts are left. */
  lemma AttemptedIsDueAgainExactly(e: OutboxEvent, now: int, outcome: Outcome, later: int)
    ensures var after := Attempted(e, now, outcome);
            && after.attempts == e.attempts + 1 && after.lockedAt.None? && after.message == e.message
            && match outcome
               case Delivered(at) => !IsDue(after, later, "") && after.dispatchedAt == Some(at) && after.lastError == ""
               case Refused(at, error) =>
                 && after.lastError == error && after.dispatchedAt == e.dispatchedAt
                 && (IsDue(after, later, "") <==>
                     e.attempts + 1 < e.maxAttempts && later >= at + Delay(e.attempts + 1))
  {
  }

  /** How many deliveries have succeeded. */
  function DeliveredCount(outcomes: seq<Outcome>): nat {
    if outcomes == [] then 0
    else DeliveredCount(outcomes[..|outcomes| - 1]) + if outcomes[|outcomes| - 1].Delivered? then 1 else 0
  }

  // ---------------------------------------------------------------- the loop in place

  class BillingOutbox {
    var rows: seq<OutboxEvent>

    constructor ()
      ensures rows == []
    {
      rows := [];
    }

    /** Returns the row that stands for the message: the one already there, or the new one at the end. */
    method EnqueueEvent(message: Message, now: int) returns (event: OutboxEvent)
      modifies this
      ensures rows == Enqueue(old(rows), message, now)
      ensures event in rows && event.message.eventType == message.eventType && event.message.key == message.key
      ensures rows != old(rows) ==> event == Fresh(message, now) == rows[|rows| - 1]
    {
      if message.key != "" {
        for i := 0 to |rows|
          invariant rows == old(rows)
          invariant !HasKey(rows[..i], message.eventType, message.key)
        {
          if rows[i].message.eventType == message.eventType && rows[i].message.key == message.key {
            return rows[i];
          }
          assert rows[..i + 1] == rows[..i] + [rows[i]];
        }
        assert rows[..|rows|] == rows;
      }
      event := Fresh(message, now);
      rows := rows + [event];
    }

    /** `hook(k)` is what delivering the k-th claimed event does. */
    method DispatchDue(now: int, eventType: string, limit: nat, hook: nat -> Outcome)
      returns (selected: nat, dispatched: nat, failed: nat)
      modifies this
      ensures var claims := Selected(old(rows), {}, now, eventType, limit);
              && rows == DispatchRows(old(rows), claims, now, seq(|claims|, k requires 0 <= k < |claims| => hook(k)))
              && selected == |claims|
      ensures dispatched == DeliveredCount(seq(selected, k requires 0 <= k < selected => hook(k)))
      ensures selected == dispatched + failed
    {
      var claims := Selected(rows, {}, now, eventType, limit);
      ghost var outcomes := seq(|claims|, k requires 0 <= k < |claims| => hook(k));
      dispatched, failed := 0, 0;
      for k := 0 to |claims|
        invariant |rows| == |old(rows)|
        invariant rows == DispatchRows(old(rows), claims[..k], now, outcomes[..k])
        invariant dispatched == DeliveredCount(outcomes[..k]) && dispatched + failed == k
      {
        assert claims[..k + 1][..k] == claims[..k] && outcomes[..k + 1][..k] == outcomes[..k];
        var i := claims[k];
        var event := rows[i];
        event := event.(status := Processing, lockedAt := Some(now), attempts := event.attempts + 1);
        rows := rows[i := event];
        match hook(k) {
          case Delivered(at) =>
            event := event.(status := Dispatched, dispatchedAt := Some(at), lastError := "");
            dispatched := dispatched + 1;
          case Refused(at, error) =>
            event := event.(status := Failed, lastError := error, nextAttemptAt := at + Delay(event.attempts));
            failed := failed + 1;
        }
        rows := rows[i := event.(lockedAt := None)];
      }
      assert claims[..|claims|] == claims && outcomes[..|claims|] == outcomes;
      selected := |claims|;
    }
  }
}
