/** The notification retry queue: `mark_delivery_attempt`, `dispatch_delivery`, `dispatch_due_notifications`. */
module Notifications {
  import opened Prelude
  import opened Backoff
  import DueOrder

  datatype Status = Pending | Sent | Skipped | Failed | Dead

  datatype DeliveryRow = DeliveryRow(
    status: Status, attemptCount: nat, maxAttempts: nat, nextAttemptAt: int, lastAttemptAt: Option<int>,
    sentAt: Option<int>, providerMessageId: string, errorMessage: string
  )

  const DEFAULT_MAX_ATTEMPTS := 5

  function NewDelivery(now: int): DeliveryRow {
    DeliveryRow(Pending, 0, DEFAULT_MAX_ATTEMPTS, now, None, None, "", "")
  }

  /** What the provider adapter does with one delivery. */
  datatype Outcome = Accepted(messageId: string) | Rejected(error: string) | Disabled

  /** `mark_delivery_attempt` for an adapter that answered, `dispatch_delivery` for a disabled one. */
  function Attempted(d: DeliveryRow, outcome: Outcome, now: int): DeliveryRow {
    var counted := d.(attemptCount := d.attemptCount + 1, lastAttemptAt := Some(now));
    match outcome
    case Accepted(id) => counted.(status := Sent, sentAt := Some(now), providerMessageId := id, errorMessage := "")
    case Rejected(error) =>
      if counted.attemptCount >= d.maxAttempts then counted.(status := Dead, errorMessage := error)
      else counted.(status := Failed, errorMessage := error, nextAttemptAt := now + Delay(counted.attemptCount))
    case Disabled => d.(status := Skipped, errorMessage := "Notification delivery disabled by configuration.")
  }

  /** The filter of `dispatch_due_notifications`. */
  predicate IsDue(d: DeliveryRow, now: int) {
    (d.status == Pending || d.status == Failed) && d.nextAttemptAt <= now
  }

  predicate IsFinal(d: DeliveryRow) {
    d.status == Sent || d.status == Dead || d.status == Skipped
  }

  // ---------------------------------------------------------------- the life of one delivery

  /** A dispatcher comes by at an instant; it attempts the row only if the row is due. */
  datatype Visit = Visit(now: int, outcome: Outcome)

  function AfterVisits(d: DeliveryRow, visits: seq<Visit>): DeliveryRow {
    if visits == [] then d
    else
      var before := AfterVisits(d, visits[..|visits| - 1]);
      var v := visits[|visits| - 1];
      if IsDue(before, v.now) then Attempted(before, v.outcome, v.now) else before
  }

  /** Instants of the counted attempts. */
  function AttemptTimes(d: DeliveryRow, visits: seq<Visit>): seq<int> {
    if visits == [] then []
    else
      var before := AfterVisits(d, visits[..|visits| - 1]);
      var v := visits[|visits| - 1];
      AttemptTimes(d, visits[..|visits| - 1]) + if IsDue(before, v.now) && !v.outcome.Disabled? then [v.now] else []
  }

  ghost predicate Healthy(d: DeliveryRow, times: seq<int>) {
    && d.attemptCount == |times| <= d.maxAttempts && 1 <= d.maxAttempts
    && Spaced(times)
    && (d.status == Pending ==> times == [])
    && (d.status == Failed ==>
          && 1 <= d.attemptCount < d.maxAttempts
          && d.nextAttemptAt == times[|times| - 1] + Delay(|times|))
    && (d.status == Dead ==> d.attemptCount == d.maxAttempts)
    && (d.status == Sent ==> times != [] && d.sentAt == Some(times[|times| - 1]))
  }

  /** A delivery that was accepted or skipped is never due again; a rejected one is due again exactly after its wait, if
      attempts are left. A skip counts no attempt. */
  lemma AttemptedIsDueAgainExactly(d: DeliveryRow, outcome: Outcome, now: int, later: int)
    ensures var after := Attempted(d, outcome, now);
            match outcome
            case Accepted(id) =>
              && !IsDue(after, later) && after.attemptCount == d.attemptCount + 1 && after.providerMessageId == id
              && after.sentAt == after.lastAttemptAt == Some(now) && after.errorMessage == ""
            case Rejected(error) =>
              && after.attemptCount == d.attemptCount + 1 && after.lastAttemptAt == Some(now)
              && after.errorMessage == error && after.sentAt == d.sentAt
              && (IsDue(after, later) <==>
                  d.attemptCount + 1 < d.maxAttempts && later >= now + Delay(d.attemptCount + 1))
            case Disabled =>
              !IsDue(after, later) && after.attemptCount == d.attemptCount && after.lastAttemptAt == d.lastAttemptAt
  {
  }

  lemma AttemptHealthy(d: DeliveryRow, times: seq<int>, v: Visit)
    requires Healthy(d, times) && IsDue(d, v.now)
    ensures Healthy(Attempted(d, v.outcome, v.now), times + if v.outcome.Disabled? then [] else [v.now])
  {
    if v.outcome.Disabled? {
      assert times + [] == times;
    }
  }

  /** Over every history of a delivery: FAILED means attempts are left, DEAD means none is, SENT and DEAD are
      reached by an attempt, and the attempts keep the capped exponential distance. */
  lemma {:induction false} DeliveryHistory(d: DeliveryRow, visits: seq<Visit>)
    requires Healthy(d, []) && d.status == Pending
    ensures Healthy(AfterVisits(d, visits), AttemptTimes(d, visits))
    ensures AfterVisits(d, visits).maxAttempts == d.maxAttempts
  {
    if visits != [] {
      var front := visits[..|visits| - 1];
      var v := visits[|visits| - 1];
      DeliveryHistory(d, front);
      if IsDue(AfterVisits(d, front), v.now) {
        AttemptHealthy(AfterVisits(d, front), AttemptTimes(d, front), v);
      }
    }
  }

  lemma DeliveryAttemptsSpaced(d: DeliveryRow, visits: seq<Visit>, n: nat)
    requires Healthy(d, []) && d.status == Pending
    requires 1 <= n <= |AttemptTimes(d, visits)|
    ensures var times := AttemptTimes(d, visits); times[n - 1] - times[0] >= TotalDelay(n)
  {
    DeliveryHistory(d, visits);
    SpacedAddsUp(AttemptTimes(d, visits), n);
  }

  /** Final states are absorbing. */
  lemma {:induction false} FinalIsAbsorbing(d: DeliveryRow, visits: seq<Visit>)
    requires IsFinal(d)
    ensures AfterVisits(d, visits) == d
  {
    if visits != [] {
      FinalIsAbsorbing(d, visits[..|visits| - 1]);
    }
  }

  /** Visits that find the row due. */
  function Effective(d: DeliveryRow, visits: seq<Visit>): nat {
    if visits == [] then 0
    else
      Effective(d, visits[..|visits| - 1]) +
      if IsDue(AfterVisits(d, visits[..|visits| - 1]), visits[|visits| - 1].now) then 1 else 0
  }

  /** At most max_attempts visits find the row due, and after that many it is SENT, DEAD or SKIPPED. */
  lemma {:induction false} DeliveryTerminates(d: DeliveryRow, visits: seq<Visit>)
    requires Healthy(d, []) && d.status == Pending
    ensures Effective(d, visits) <= d.maxAttempts
    ensures Effective(d, visits) == d.maxAttempts ==> IsFinal(AfterVisits(d, visits))
    ensures !IsFinal(AfterVisits(d, visits)) ==> Effective(d, visits) == AfterVisits(d, visits).attemptCount
  {
    DeliveryHistory(d, visits);
    if visits != [] {
      DeliveryHistory(d, visits[..|visits| - 1]);
      DeliveryTerminates(d, visits[..|visits| - 1]);
    }
  }

  // ---------------------------------------------------------------- a round over the table

  function Budget(rows: seq<DeliveryRow>): int {
    if rows == [] then 0
    else
      var d := rows[|rows| - 1];
      Budget(rows[..|rows| - 1]) + if d.status == Pending || d.status == Failed then d.maxAttempts - d.attemptCount
        else 0
  }

  function Round(rows: seq<DeliveryRow>, taken: set<nat>, outcome: nat -> Outcome, now: int): seq<DeliveryRow> {
    seq(|rows|, i requires 0 <= i < |rows| => if i in taken then Attempted(rows[i], outcome(i), now) else rows[i])
  }

  /** A round that attempts at least one due row strictly lowers the attempts left in the table. */
  lemma {:induction false} RoundLowersBudget(rows: seq<DeliveryRow>, taken: set<nat>, outcome: nat -> Outcome, now: int)
    requires forall i | 0 <= i < |rows| :: rows[i].status == Pending || rows[i].status == Failed ==>
                                             rows[i].attemptCount < rows[i].maxAttempts
    requires forall i | i in taken && i < |rows| :: IsDue(rows[i], now)
    ensures Budget(Round(rows, taken, outcome, now)) <= Budget(rows)
    ensures (exists i :: i in taken && i < |rows|) ==> Budget(Round(rows, taken, outcome, now)) < Budget(rows)
  {
    if rows != [] {
      var n := |rows| - 1;
      RoundLowersBudget(rows[..n], taken, outcome, now);
      assert Round(rows, taken, outcome, now)[..n] == Round(rows[..n], taken, outcome, now);
      assert (exists i :: i in taken && i < |rows|) ==> n in taken || exists i :: i in taken && i < |rows[..n]|;
    }
  }

  // ---------------------------------------------------------------- the objects, in place

  class Provider {
    var lastSuccessAt: Option<int>
    var lastFailureAt: Option<int>

    constructor ()
      ensures lastSuccessAt == None && lastFailureAt == None
    {
      lastSuccessAt, lastFailureAt := None, None;
    }
  }

  class NotificationDelivery {
    const provider: Provider?
    const maxAttempts: nat
    var status: Status
    var attemptCount: nat
    var nextAttemptAt: int
    var lastAttemptAt: Option<int>
    var sentAt: Option<int>
    var providerMessageId: string
    var errorMessage: string

    function Row(): DeliveryRow
      reads this
    {
      DeliveryRow(status, attemptCount, maxAttempts, nextAttemptAt, lastAttemptAt, sentAt, providerMessageId,
                  errorMessage)
    }

    constructor (provider: Provider?, now: int)
      ensures Row() == NewDelivery(now) && this.provider == provider
    {
      this.provider := provider;
      maxAttempts := DEFAULT_MAX_ATTEMPTS;
      status, attemptCount, nextAttemptAt := Pending, 0, now;
      lastAttemptAt, sentAt, providerMessageId, errorMessage := None, None, "", "";
    }

    method MarkDeliveryAttempt(success: bool, messageId: string, error: string, now: int)
      modifies this, provider
      ensures Row() == Attempted(old(Row()), if success then Accepted(messageId) else Rejected(error), now)
      ensures provider != null ==>
                && provider.lastSuccessAt == (if success then Some(now) else old(provider.lastSuccessAt))
                && provider.lastFailureAt == (if success then old(provider.lastFailureAt) else Some(now))
    {
      attemptCount := attemptCount + 1;
      lastAttemptAt := Some(now);
      if success {
        status := Sent;
        sentAt := Some(now);
        providerMessageId := messageId;
        errorMessage := "";
        if provider != null {
          provider.lastSuccessAt := Some(now);
        }
      } else {
        errorMessage := error;
        if attemptCount >= maxAttempts {
          status := Dead;
        } else {
          status := Failed;
          nextAttemptAt := now + MINUTE * Min(60, Pow2(attemptCount));
        }
        if provider != null {
          provider.lastFailureAt := Some(now);
        }
      }
    }

    method DispatchDelivery(outcome: Outcome, now: int)
      modifies this, provider
      ensures Row() == Attempted(old(Row()), outcome, now)
    {
      match outcome {
        case Disabled =>
          status := Skipped;
          errorMessage := "Notification delivery disabled by configuration.";
        case Accepted(id) => MarkDeliveryAttempt(true, id, "", now);
        case Rejected(error) => MarkDeliveryAttempt(false, "", error, now);
      }
    }
  }

  function Providers(due: seq<NotificationDelivery>): set<Provider> {
    set d | d in due && d.provider != null :: d.provider
  }

  // ---------------------------------------------------------------- the query

  /** What the query of `dispatch_due_notifications` may return: distinct due rows in order of their next attempt,
      where a due row is passed over only if the limit is used up by rows no later than it. Rows with one next attempt
      come in any order. */
  ghost predicate IsDueBatch(rows: seq<DeliveryRow>, batch: seq<nat>, limit: nat, now: int) {
    && |batch| <= limit
    && (forall k | 0 <= k < |batch| :: batch[k] < |rows| && IsDue(rows[batch[k]], now))
    && (forall j, k | 0 <= j < k < |batch| ::
          batch[j] != batch[k] && rows[batch[j]].nextAttemptAt <= rows[batch[k]].nextAttemptAt)
    && (forall i: nat | i < |rows| && IsDue(rows[i], now) && i !in batch ::
          |batch| == limit && forall k | 0 <= k < |batch| :: rows[batch[k]].nextAttemptAt <= rows[i].nextAttemptAt)
  }

  function NextAttempts(rows: seq<DeliveryRow>): seq<int> {
    seq(|rows|, i requires 0 <= i < |rows| => rows[i].nextAttemptAt)
  }

  function Due(rows: seq<DeliveryRow>, now: int): seq<bool> {
    seq(|rows|, i requires 0 <= i < |rows| => IsDue(rows[i], now))
  }

  /** One answer of the query: rows with one next attempt in creation order. */
  function DueBatch(rows: seq<DeliveryRow>, limit: nat, now: int): seq<nat> {
    DueOrder.Picked(NextAttempts(rows), Due(rows, now), limit)
  }

  lemma DueBatchIsDue(rows: seq<DeliveryRow>, limit: nat, now: int)
    ensures IsDueBatch(rows, DueBatch(rows, limit, now), limit, now)
  {
    DueOrder.PickedIsEarliestFirst(NextAttempts(rows), Due(rows, now), limit);
    var batch := DueBatch(rows, limit, now);
    forall i: nat | i < |rows| && IsDue(rows[i], now) && i !in batch
      ensures |batch| == limit && forall k | 0 <= k < |batch| :: rows[batch[k]].nextAttemptAt <= rows[i].nextAttemptAt
    {
      assert Due(rows, now)[i];
    }
  }

  /** The loop of `dispatch_due_notifications` over the rows its query returned. */
  method DispatchAll(due: seq<NotificationDelivery>, outcome: nat -> Outcome, now: int) returns (count: nat)
    requires forall j, k | 0 <= j < k < |due| :: due[j] != due[k]
    modifies due, Providers(due)
    ensures count == |due|
    ensures forall k | 0 <= k < |due| :: due[k].Row() == Attempted(old(due[k].Row()), outcome(k), now)
  {
    count := 0;
    for i := 0 to |due|
      invariant count == i
      invariant forall k | 0 <= k < i :: due[k].Row() == Attempted(old(due[k].Row()), outcome(k), now)
      invariant forall k | i <= k < |due| :: due[k].Row() == old(due[k].Row())
    {
      assert due[i].provider != null ==> due[i].provider in Providers(due);
      due[i].DispatchDelivery(outcome(i), now);
      count := count + 1;
    }
  }

  function RowsOf(table: seq<NotificationDelivery>): seq<DeliveryRow>
    reads table
  {
    seq(|table|, i requires 0 <= i < |table| reads table => table[i].Row())
  }

  /** `dispatch_due_notifications`: the k-th delivery of the batch meets the k-th outcome, and no other is touched. */
  method DispatchDueNotifications(table: seq<NotificationDelivery>, limit: nat, outcome: nat -> Outcome, now: int)
    returns (count: nat, ghost batch: seq<nat>)
    requires forall i, j | 0 <= i < j < |table| :: table[i] != table[j]
    modifies table, Providers(table)
    ensures IsDueBatch(old(RowsOf(table)), batch, limit, now) && count == |batch|
    ensures forall k | 0 <= k < |batch| ::
              table[batch[k]].Row() == Attempted(old(RowsOf(table))[batch[k]], outcome(k), now)
    ensures forall i: nat | i < |table| && i !in batch :: table[i].Row() == old(RowsOf(table))[i]
  {
    var picked := SelectDue(table, limit, now);
    batch := picked;
    var due := seq(|picked|, k requires 0 <= k < |picked| => table[picked[k]]);
    forall j, k | 0 <= j < k < |due| ensures due[j] != due[k] {
      assert picked[j] != picked[k];
    }
    forall i: nat | i < |table| && i !in picked ensures table[i] !in due {
    }
    count := DispatchAll(due, outcome, now);
  }

  /** The query. */
  method SelectDue(table: seq<NotificationDelivery>, limit: nat, now: int) returns (batch: seq<nat>)
    ensures IsDueBatch(RowsOf(table), batch, limit, now)
  {
    var rows := [];
    for i := 0 to |table|
      invariant |rows| == i && forall k | 0 <= k < i :: rows[k] == table[k].Row()
    {
      rows := rows + [table[i].Row()];
    }
    assert rows == RowsOf(table);
    batch := DueBatch(rows, limit, now);
    DueBatchIsDue(rows, limit, now);
  }
}
