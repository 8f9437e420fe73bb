/** Several workers inside `dispatch_due_outbox_events` at once. Each claims rows with SELECT ... FOR UPDATE SKIP
    LOCKED, saves into its own uncommitted transaction, and commits or rolls back. */
module OutboxWorkers {
  import opened Prelude
  import opened Backoff
  import opened Outbox
  import DueOrder

  /** An open transaction: its claim, the outcomes so far, whether the row in hand is saved as PROCESSING, and its
      uncommitted row versions. */
  datatype Txn = Txn(now: int, claims: seq<nat>, outcomes: seq<Outcome>, inHand: bool, buffer: map<nat, OutboxEvent>)

  /** Committed rows and open transactions, with two observations per row: the instants of its committed attempts
      and how many commits have marked it DISPATCHED. */
  datatype Machine = Machine(
    rows: seq<OutboxEvent>, txns: map<nat, Txn>, clock: int, attempts: seq<seq<int>>, dispatches: seq<nat>
  )

  datatype Action =
    | Begin(worker: nat, at: int, eventType: string, limit: nat)
    | StartNext(worker: nat)
    | FinishCurrent(worker: nat, outcome: Outcome)
    | Commit(worker: nat)
    | Abort(worker: nat)
    | Produce(message: Message, at: int)

  function Held(m: Machine): set<nat> {
    set w, i | w in m.txns && i in m.txns[w].claims :: i
  }

  /** Rows after a commit: the transaction's versions replace the committed ones. */
  function Overlay(rows: seq<OutboxEvent>, buffer: map<nat, OutboxEvent>): seq<OutboxEvent> {
    seq(|rows|, i requires 0 <= i < |rows| => if i in buffer then buffer[i] else rows[i])
  }

  function Committed(m: Machine, w: nat): Machine
    requires w in m.txns && |m.attempts| == |m.dispatches| == |m.rows|
  {
    var t := m.txns[w];
    Machine(Overlay(m.rows, t.buffer), m.txns - {w}, m.clock,
            seq(|m.rows|, i requires 0 <= i < |m.rows| => if i in t.buffer then m.attempts[i] + [t.now]
                else m.attempts[i]),
            seq(|m.rows|, i requires 0 <= i < |m.rows| =>
                m.dispatches[i] + if i in t.buffer && t.buffer[i].status == Dispatched then 1 else 0))
  }

  /** An action whose guard fails does nothing. */
  function Next(m: Machine, a: Action): Machine
    requires |m.attempts| == |m.dispatches| == |m.rows|
  {
    match a
    case Begin(w, at, eventType, limit) =>
      if w in m.txns || at < m.clock then m
      else m.(txns := m.txns[w := Txn(at, Selected(m.rows, Held(m), at, eventType, limit), [], false, map[])],
              clock := at)
    case StartNext(w) =>
      if w !in m.txns || m.txns[w].inHand || |m.txns[w].outcomes| >= |m.txns[w].claims| then m
      else
        var t := m.txns[w];
        var i := t.claims[|t.outcomes|];
        if i >= |m.rows| then m
        else m.(txns := m.txns[w := t.(inHand := true, buffer := t.buffer[i := Started(m.rows[i], t.now)])])
    case FinishCurrent(w, outcome) =>
      if w !in m.txns || !m.txns[w].inHand || outcome.at < m.clock || |m.txns[w].outcomes| >= |m.txns[w].claims| then m
      else
        var t := m.txns[w];
        var i := t.claims[|t.outcomes|];
        if i !in t.buffer then m
        else m.(txns := m.txns[w := t.(inHand := false, outcomes := t.outcomes + [outcome],
                buffer := t.buffer[i := Finished(t.buffer[i], outcome)])], clock := outcome.at)
    case Commit(w) =>
      if w !in m.txns || m.txns[w].inHand || |m.txns[w].outcomes| != |m.txns[w].claims| then m else Committed(m, w)
    case Abort(w) => if w !in m.txns then m else m.(txns := m.txns - {w})
    case Produce(message, at) =>
      var more := Enqueue(m.rows, message, at);
      if at < m.clock then m
      else if more == m.rows then m.(clock := at)
      else m.(rows := m.rows + [Fresh(message, at)], clock := at, attempts := m.attempts + [[]],
              dispatches := m.dispatches + [0])
  }

  // ---------------------------------------------------------------- safety

  /** A committed row and what has been observed of it. */
  ghost predicate RowSafe(e: OutboxEvent, times: seq<int>, dispatches: nat) {
    && e.status != Processing && e.lockedAt == None
    && e.attempts == |times| <= e.maxAttempts
    && Spaced(times)
    && (e.status == Pending ==> times == [])
    && (e.status == Failed ==> times != [] && e.nextAttemptAt >= times[|times| - 1] + Delay(|times|))
    && dispatches == (if e.status == Dispatched then 1 else 0)
  }

  ghost predicate RowsSafe(m: Machine) {
    && |m.attempts| == |m.dispatches| == |m.rows|
    && forall i | 0 <= i < |m.rows| :: RowSafe(m.rows[i], m.attempts[i], m.dispatches[i])
  }

  /** A transaction holds distinct rows that are due, and its versions are exactly the attempts made so far. */
  ghost predicate TxnSafe(rows: seq<OutboxEvent>, clock: int, t: Txn) {
    && DueOrder.InRange(t.claims, |rows|) && Distinct(t.claims)
    && t.now <= clock
    && |t.outcomes| <= |t.claims| && (t.inHand ==> |t.outcomes| < |t.claims|)
    && (forall k | 0 <= k < |t.claims| :: IsDue(rows[t.claims[k]], t.now, ""))
    && (forall k | 0 <= k < |t.outcomes| ::
          && t.now <= t.outcomes[k].at
          && t.claims[k] in t.buffer && t.buffer[t.claims[k]] == Attempted(rows[t.claims[k]], t.now, t.outcomes[k]))
    && (t.inHand ==> var i := t.claims[|t.outcomes|]; i in t.buffer && t.buffer[i] == Started(rows[i], t.now))
    && (forall i | i in t.buffer :: i in t.claims[..|t.outcomes| + if t.inHand then 1 else 0])
  }

  ghost predicate TxnsSafe(m: Machine) {
    && (forall w | w in m.txns :: TxnSafe(m.rows, m.clock, m.txns[w]))
    && (forall v, w | v in m.txns && w in m.txns && v != w :: Apart(m.txns[v].claims, m.txns[w].claims))
  }

  ghost predicate Apart(a: seq<nat>, b: seq<nat>) {
    forall i | i in a :: i !in b
  }

  ghost predicate Safe(m: Machine) {
    RowsSafe(m) && TxnsSafe(m)
  }

  /** A new claim takes nothing that another transaction holds. */
  lemma ClaimsAreApart(m: Machine, at: int, eventType: string, limit: nat)
    ensures var claims := Selected(m.rows, Held(m), at, eventType, limit);
            forall v | v in m.txns :: Apart(m.txns[v].claims, claims) && Apart(claims, m.txns[v].claims)
  {
    SelectionIsOldestFirst(m.rows, Held(m), at, eventType, limit);
    var claims := Selected(m.rows, Held(m), at, eventType, limit);
    forall v, i | v in m.txns && i in m.txns[v].claims ensures i !in claims {
      assert i in Held(m);
    }
  }

  lemma BeginSafe(m: Machine, w: nat, at: int, eventType: string, limit: nat)
    requires Safe(m) && w !in m.txns && m.clock <= at
    ensures Safe(Next(m, Begin(w, at, eventType, limit)))
  {
    var next := Next(m, Begin(w, at, eventType, limit));
    ClaimsAreApart(m, at, eventType, limit);
    NewTxnSafe(m.rows, Held(m), at, eventType, limit);
    forall v | v in next.txns ensures TxnSafe(next.rows, next.clock, next.txns[v]) {
      if v != w {
        LaterClockKeepsTxn(m.rows, m.clock, at, m.txns[v]);
      }
    }
  }

  lemma NewTxnSafe(rows: seq<OutboxEvent>, held: set<nat>, at: int, eventType: string, limit: nat)
    ensures TxnSafe(rows, at, Txn(at, Selected(rows, held, at, eventType, limit), [], false, map[]))
  {
    SelectionIsOldestFirst(rows, held, at, eventType, limit);
  }

  lemma LaterClockKeepsTxn(rows: seq<OutboxEvent>, clock: int, later: int, t: Txn)
    requires TxnSafe(rows, clock, t) && clock <= later
    ensures TxnSafe(rows, later, t)
  {
  }

  lemma ReplaceTxn(m: Machine, w: nat, t: Txn, clock: int)
    requires Safe(m) && w in m.txns && t.claims == m.txns[w].claims && m.clock <= clock && TxnSafe(m.rows, clock, t)
    ensures Safe(m.(txns := m.txns[w := t], clock := clock))
  {
    var next := m.(txns := m.txns[w := t], clock := clock);
    forall v | v in next.txns ensures TxnSafe(next.rows, next.clock, next.txns[v]) {
      if v != w {
        assert TxnSafe(m.rows, m.clock, m.txns[v]);
      }
    }
    forall u, v | u in next.txns && v in next.txns && u != v ensures Apart(next.txns[u].claims, next.txns[v].claims) {
      assert Apart(m.txns[u].claims, m.txns[v].claims);
    }
  }

  lemma StartSafe(m: Machine, w: nat)
    requires Safe(m)
    ensures Safe(Next(m, StartNext(w)))
  {
    if Next(m, StartNext(w)) != m {
      var t := m.txns[w];
      assert TxnSafe(m.rows, m.clock, t);
      var n := |t.outcomes|;
      var next := Next(m, StartNext(w)).txns[w];
      assert t.claims[..n + 1] == t.claims[..n] + [t.claims[n]];
      assert TxnSafe(m.rows, m.clock, next);
      ReplaceTxn(m, w, next, m.clock);
    }
  }

  lemma FinishSafe(m: Machine, w: nat, outcome: Outcome)
    requires Safe(m)
    ensures Safe(Next(m, FinishCurrent(w, outcome)))
  {
    if Next(m, FinishCurrent(w, outcome)) != m {
      var t := m.txns[w];
      assert TxnSafe(m.rows, m.clock, t);
      var next := Next(m, FinishCurrent(w, outcome)).txns[w];
      assert TxnSafe(m.rows, outcome.at, next);
      ReplaceTxn(m, w, next, outcome.at);
    }
  }

  /** One attempt on a due row keeps everything that is promised of committed rows. */
  lemma AttemptSafe(e: OutboxEvent, times: seq<int>, dispatches: nat, now: int, outcome: Outcome)
    requires RowSafe(e, times, dispatches) && IsDue(e, now, "") && now <= outcome.at
    ensures var after := Attempted(e, now, outcome);
            RowSafe(after, times + [now], dispatches + if after.status == Dispatched then 1 else 0)
  {
  }

  /** What a finished transaction holds for row i: one attempt if it claimed the row, nothing otherwise. */
  lemma VersionOfRow(rows: seq<OutboxEvent>, clock: int, t: Txn, i: nat) returns (k: nat)
    requires TxnSafe(rows, clock, t) && !t.inHand && |t.outcomes| == |t.claims| && i < |rows|
    ensures i in t.claims <==> i in t.buffer
    ensures i in t.claims ==>
              && k < |t.claims| && t.claims[k] == i && IsDue(rows[i], t.now, "") && t.now <= t.outcomes[k].at
              && t.buffer[i] == Attempted(rows[i], t.now, t.outcomes[k])
  {
    k := 0;
    assert t.claims[..|t.claims|] == t.claims;
    if i in t.claims {
      k :| 0 <= k < |t.claims| && t.claims[k] == i;
    }
  }

  lemma CommitRow(m: Machine, w: nat, i: nat)
    requires Safe(m) && w in m.txns && !m.txns[w].inHand && |m.txns[w].outcomes| == |m.txns[w].claims|
    requires i < |m.rows|
    ensures RowSafe(Committed(m, w).rows[i], Committed(m, w).attempts[i], Committed(m, w).dispatches[i])
    ensures DueOrder.InRange(m.txns[w].claims, |m.rows|)
    ensures Committed(m, w).rows[i] == DispatchRows(m.rows, m.txns[w].claims, m.txns[w].now, m.txns[w].outcomes)[i]
  {
    var t := m.txns[w];
    var k := VersionOfRow(m.rows, m.clock, t, i);
    DispatchRowByRow(m.rows, t.claims, t.now, t.outcomes);
    assert RowSafe(m.rows[i], m.attempts[i], m.dispatches[i]);
    if i in t.claims {
      AttemptSafe(m.rows[i], m.attempts[i], m.dispatches[i], t.now, t.outcomes[k]);
    }
  }

  lemma CommitKeepsRows(m: Machine, w: nat)
    requires Safe(m) && w in m.txns && !m.txns[w].inHand && |m.txns[w].outcomes| == |m.txns[w].claims|
    ensures RowsSafe(Committed(m, w))
    ensures DueOrder.InRange(m.txns[w].claims, |m.rows|)
    ensures Committed(m, w).rows == DispatchRows(m.rows, m.txns[w].claims, m.txns[w].now, m.txns[w].outcomes)
  {
    var next := Committed(m, w);
    assert TxnSafe(m.rows, m.clock, m.txns[w]);
    forall i | 0 <= i < |m.rows|
      ensures RowSafe(next.rows[i], next.attempts[i], next.dispatches[i])
      ensures next.rows[i] == DispatchRows(m.rows, m.txns[w].claims, m.txns[w].now, m.txns[w].outcomes)[i]
    {
      CommitRow(m, w, i);
    }
  }

  lemma CommitSafe(m: Machine, w: nat)
    requires Safe(m)
    ensures Safe(Next(m, Commit(w)))
  {
    if Next(m, Commit(w)) != m {
      CommitKeepsRows(m, w);
      var t := m.txns[w];
      assert TxnSafe(m.rows, m.clock, t);
      assert t.claims[..|t.claims|] == t.claims;
      var next := Committed(m, w);
      forall v | v in next.txns ensures TxnSafe(next.rows, next.clock, next.txns[v]) {
        assert TxnSafe(m.rows, m.clock, m.txns[v]);
        assert Apart(m.txns[v].claims, t.claims);
        forall k | 0 <= k < |m.txns[v].claims| ensures next.rows[m.txns[v].claims[k]] == m.rows[m.txns[v].claims[k]] {
          assert m.txns[v].claims[k] in m.txns[v].claims;
        }
      }
    }
  }

  lemma AbortSafe(m: Machine, w: nat)
    requires Safe(m)
    ensures Safe(Next(m, Abort(w)))
  {
  }

  lemma LongerTableKeepsTxn(rows: seq<OutboxEvent>, e: OutboxEvent, clock: int, later: int, t: Txn)
    requires TxnSafe(rows, clock, t) && clock <= later
    ensures TxnSafe(rows, later, t) && TxnSafe(rows + [e], later, t)
  {
  }

  lemma ProduceSafe(m: Machine, message: Message, at: int)
    requires Safe(m)
    ensures Safe(Next(m, Produce(message, at)))
  {
    var next := Next(m, Produce(message, at));
    if m.clock <= at {
      forall w | w in next.txns ensures TxnSafe(next.rows, next.clock, next.txns[w]) {
        LongerTableKeepsTxn(m.rows, Fresh(message, at), m.clock, at, m.txns[w]);
      }
    }
  }

  lemma StepSafe(m: Machine, a: Action)
    requires Safe(m)
    ensures Safe(Next(m, a))
  {
    match a
    case Begin(w, at, eventType, limit) =>
      if w !in m.txns && m.clock <= at {
        BeginSafe(m, w, at, eventType, limit);
      }
    case StartNext(w) => StartSafe(m, w);
    case FinishCurrent(w, outcome) => FinishSafe(m, w, outcome);
    case Commit(w) => CommitSafe(m, w);
    case Abort(w) => AbortSafe(m, w);
    case Produce(message, at) => ProduceSafe(m, message, at);
  }

  // ---------------------------------------------------------------- whole runs

  ghost function Run(m: Machine, actions: seq<Action>): (r: Machine)
    requires Safe(m)
    ensures Safe(r)
  {
    if actions == [] then m
    else
      var before := Run(m, actions[..|actions| - 1]);
      StepSafe(before, actions[|actions| - 1]);
      Next(before, actions[|actions| - 1])
  }

  /** Over every interleaving: no row is held by two workers, no committed row is PROCESSING or locked, committed
      attempts stay within max_attempts, and DISPATCHED is entered by at most one commit per row. */
  lemma OutboxIsSafe(m: Machine, actions: seq<Action>, v: nat, w: nat, i: nat)
    requires Safe(m) && i < |Run(m, actions).rows|
    ensures var r := Run(m, actions);
            && (v != w && v in r.txns && w in r.txns ==> !(i in r.txns[v].claims && i in r.txns[w].claims))
            && r.rows[i].status != Processing && r.rows[i].lockedAt == None
            && r.rows[i].attempts <= r.rows[i].maxAttempts
            && r.dispatches[i] <= 1 && (r.rows[i].status == Dispatched <==> r.dispatches[i] == 1)
  {
    var r := Run(m, actions);
    assert RowSafe(r.rows[i], r.attempts[i], r.dispatches[i]);
    if v != w && v in r.txns && w in r.txns {
      assert Apart(r.txns[v].claims, r.txns[w].claims);
    }
  }

  /** Once DISPATCHED, a row never changes again. */
  lemma {:induction false} DispatchedIsAbsorbing(m: Machine, actions: seq<Action>, i: nat)
    requires Safe(m) && i < |m.rows| && m.rows[i].status == Dispatched
    ensures i < |Run(m, actions).rows| && Run(m, actions).rows[i] == m.rows[i]
  {
    if actions != [] {
      DispatchedIsAbsorbing(m, actions[..|actions| - 1], i);
      var before := Run(m, actions[..|actions| - 1]);
      var a := actions[|actions| - 1];
      if a.Commit? && a.worker in before.txns {
        assert TxnSafe(before.rows, before.clock, before.txns[a.worker]);
        var t := before.txns[a.worker];
        assert i !in t.claims;
        assert i in t.buffer ==> i in t.claims;
      }
    }
  }

  /** Isolation: whatever ran in between, a commit does to the committed table what the sequential loop would do at that
      instant on the rows the worker claimed. */
  lemma CommitIsSequentialDispatch(m: Machine, actions: seq<Action>, w: nat)
    requires Safe(m) && w in Run(m, actions).txns
    requires var t := Run(m, actions).txns[w]; !t.inHand && |t.outcomes| == |t.claims|
    ensures var r := Run(m, actions);
            && DueOrder.InRange(r.txns[w].claims, |r.rows|)
            && Next(r, Commit(w)).rows == DispatchRows(r.rows, r.txns[w].claims, r.txns[w].now, r.txns[w].outcomes)
  {
    SafeCommitIsSequential(Run(m, actions), w);
  }

  lemma SafeCommitIsSequential(m: Machine, w: nat)
    requires Safe(m) && w in m.txns && !m.txns[w].inHand && |m.txns[w].outcomes| == |m.txns[w].claims|
    ensures DueOrder.InRange(m.txns[w].claims, |m.rows|)
    ensures Next(m, Commit(w)).rows == DispatchRows(m.rows, m.txns[w].claims, m.txns[w].now, m.txns[w].outcomes)
  {
    CommitKeepsRows(m, w);
  }

  /** Attempt n of a row is made at least the first n - 1 capped exponential waits after its first attempt. */
  lemma AttemptsAreSpaced(m: Machine, actions: seq<Action>, i: nat, n: nat)
    requires Safe(m) && i < |Run(m, actions).rows| && 1 <= n <= |Run(m, actions).attempts[i]|
    ensures var times := Run(m, actions).attempts[i];
            times[n - 1] - times[0] >= TotalDelay(n) && |times| == Run(m, actions).rows[i].attempts
  {
    var r := Run(m, actions);
    assert RowSafe(r.rows[i], r.attempts[i], r.dispatches[i]);
    SpacedAddsUp(r.attempts[i], n);
  }

  // ---------------------------------------------------------------- termination

  /** Attempts still available to rows that are not finished. */
  function Budget(rows: seq<OutboxEvent>): nat {
    if rows == [] then 0
    else
      var e := rows[|rows| - 1];
      Budget(rows[..|rows| - 1]) +
      if (e.status == Pending || e.status == Failed) && e.attempts < e.maxAttempts then e.maxAttempts - e.attempts
        else 0
  }

  lemma {:induction false} BudgetUpdate(rows: seq<OutboxEvent>, i: nat, e: OutboxEvent)
    requires i < |rows|
    ensures Budget(rows[i := e]) - Budget(rows) == Budget([e]) - Budget([rows[i]])
  {
    assert [e][..0] == [] && [rows[i]][..0] == [];
    var n := |rows| - 1;
    if i < n {
      BudgetUpdate(rows[..n], i, e);
      assert rows[i := e][..n] == rows[..n][i := e];
    } else {
      assert rows[i := e][..n] == rows[..n];
    }
  }

  /** Every row a round attempts uses up at least one unit of the budget. */
  lemma {:induction false} RoundSpendsBudget(rows: seq<OutboxEvent>, claims: seq<nat>, now: int, outcomes: seq<Outcome>)
    requires |outcomes| == |claims| && DueOrder.InRange(claims, |rows|) && Distinct(claims)
    requires forall k | 0 <= k < |claims| :: IsDue(rows[claims[k]], now, "")
    ensures Budget(DispatchRows(rows, claims, now, outcomes)) + |claims| <= Budget(rows)
  {
    if claims != [] {
      var n := |claims| - 1;
      RoundSpendsBudget(rows, claims[..n], now, outcomes[..n]);
      DispatchRowByRow(rows, claims[..n], now, outcomes[..n]);
      var before := DispatchRows(rows, claims[..n], now, outcomes[..n]);
      var e := Attempted(before[claims[n]], now, outcomes[n]);
      assert before[claims[n]] == rows[claims[n]];
      BudgetUpdate(before, claims[n], e);
      assert [e][..0] == [] && [rows[claims[n]]][..0] == [];
    }
  }

  /** How many rows a step attempts in the committed table. */
  ghost function AttemptedBy(m: Machine, a: Action): nat {
    if a.Commit? && a.worker in m.txns && !m.txns[a.worker].inHand
       && |m.txns[a.worker].outcomes| == |m.txns[a.worker].claims|
    then |m.txns[a.worker].claims| else 0
  }

  lemma StepSpendsBudget(m: Machine, a: Action)
    requires Safe(m) && !a.Produce?
    ensures Budget(Next(m, a).rows) + AttemptedBy(m, a) <= Budget(m.rows)
  {
    if a.Commit? && Next(m, a) != m {
      var t := m.txns[a.worker];
      assert TxnSafe(m.rows, m.clock, t);
      CommitKeepsRows(m, a.worker);
      RoundSpendsBudget(m.rows, t.claims, t.now, t.outcomes);
    }
  }

  /** Attempts that the committed transactions of a run have made. */
  ghost function CommittedAttempts(m: Machine, actions: seq<Action>): nat
    requires Safe(m)
  {
    if actions == [] then 0
    else
      CommittedAttempts(m, actions[..|actions| - 1]) +
      AttemptedBy(Run(m, actions[..|actions| - 1]), actions[|actions| - 1])
  }

  /** Without new rows, all workers together commit no more attempts than the budget they started with, so only finitely
      many rounds do any work. */
  lemma {:induction false} WorkersTerminate(m: Machine, actions: seq<Action>)
    requires Safe(m) && forall a | a in actions :: !a.Produce?
    ensures Budget(Run(m, actions).rows) + CommittedAttempts(m, actions) <= Budget(m.rows)
  {
    if actions != [] {
      WorkersTerminate(m, actions[..|actions| - 1]);
      var before := Run(m, actions[..|actions| - 1]);
      var a := actions[|actions| - 1];
      StepSpendsBudget(before, a);
    }
  }
}
