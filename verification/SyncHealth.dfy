/** Provider sync health as a function of the run. */
module SyncHealth {
  import opened Prelude
  import opened BillingState
  import opened Webhooks
  import opened BillingRuns

  /** The step runs the try block of the processor to one of its two endings. */
  function Ending(db: Db, t: Timed): Option<bool> {
    var call := Attempting(db, t.step);
    if call.None? || call.value.2.Escapes? || IsProcessed(db, call.value.0.id) then None
    else Some(Try(db, call.value.0, call.value.2, t.now).Done?)
  }

  /** Success or failure of every processed delivery and replay of the run. */
  function Endings(db: Db, steps: seq<Timed>): seq<bool> {
    if steps == [] then []
    else
      var front := steps[..|steps| - 1];
      var e := Ending(Run(db, front), steps[|steps| - 1]);
      Endings(db, front) + if e.Some? then [e.value] else []
  }

  function TrailingFailures(endings: seq<bool>): nat {
    if endings == [] || endings[|endings| - 1] then 0 else 1 + TrailingFailures(endings[..|endings| - 1])
  }

  /** HEALTHY for no trailing failure, DEGRADED for one or two, FAILING for three or more. */
  function HealthOf(streak: nat): SyncStatus {
    if streak == 0 then Healthy else if streak <= 2 then Degraded else Failing
  }

  predicate Reports(s: SyncState, endings: seq<bool>) {
    s.errorCount == TrailingFailures(endings) && s.status == HealthOf(s.errorCount)
  }

  lemma ConcludeReports(attempt: Attempt, event: StripeEvent, valid: bool, now: int, endings: seq<bool>)
    requires Reports(attempt.db.sync, endings)
    ensures Reports(Conclude(attempt, event, valid, now).sync, endings + [attempt.Done?])
  {
    var more := endings + [attempt.Done?];
    assert more[..|more| - 1] == endings;
  }

  lemma StepReports(db: Db, t: Timed, endings: seq<bool>)
    requires Reports(db.sync, endings)
    ensures var e := Ending(db, t); Reports(Exec(db, t).sync, endings + if e.Some? then [e.value] else [])
  {
    assert endings + [] == endings;
    var call := Attempting(db, t.step);
    if call.Some? {
      var (event, valid, fault) := call.value;
      AttemptingIsProcessEvent(db, t);
      HandlerFrame(db, event, t.now);
      TryFrame(db, Handle(db, event, t.now), event, fault, t.now);
      ConcludeReports(Try(db, event, fault, t.now), event, valid, t.now, endings);
    } else {
      LocalStepsFramed(db, t);
    }
  }

  /** From a fresh row, after any run: `error_count` is the length of the trailing failure streak and the status is the
      health of that streak. */
  lemma {:induction false} HealthIsTrailingStreak(db: Db, steps: seq<Timed>)
    requires db.sync == FRESH_SYNC
    ensures Reports(Run(db, steps).sync, Endings(db, steps))
  {
    if steps != [] {
      HealthIsTrailingStreak(db, steps[..|steps| - 1]);
      StepReports(Run(db, steps[..|steps| - 1]), steps[|steps| - 1], Endings(db, steps[..|steps| - 1]));
    }
  }
}
