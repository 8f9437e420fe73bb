/** The capped exponential delay shared by the outbox and the notification queue. Instants are seconds. */
module Backoff {
  import opened Prelude

  const MINUTE := 60

  function Pow2(n: nat): nat {
    if n == 0 then 1 else 2 * Pow2(n - 1)
  }

  /** `timedelta(minutes=min(60, 2 ** attempts))`, the wait after the n-th attempt has failed. */
  function Delay(n: nat): nat {
    MINUTE * Min(60, Pow2(n))
  }

  /** The waits before attempt n, added up. */
  function TotalDelay(n: nat): nat {
    if n <= 1 then 0 else TotalDelay(n - 1) + Delay(n - 1)
  }

  lemma {:induction false} Pow2Grows(n: nat)
    requires n >= 6
    ensures Pow2(n) >= 64
  {
    if n == 6 {
      assert Pow2(3) == 8;
    } else {
      Pow2Grows(n - 1);
    }
  }

  /** From the seventh attempt on each further attempt costs one hour more. */
  lemma {:induction false} TotalDelayClosedForm(n: nat)
    requires n >= 6
    ensures TotalDelay(n) == MINUTE * (62 + 60 * (n - 6))
  {
    if n == 6 {
      assert Pow2(1) == 2 && Pow2(2) == 4 && Pow2(3) == 8 && Pow2(4) == 16 && Pow2(5) == 32;
      assert TotalDelay(3) == MINUTE * 6;
      assert TotalDelay(5) == MINUTE * 30;
    } else {
      TotalDelayClosedForm(n - 1);
      Pow2Grows(n - 1);
    }
  }

  /** Attempt i + 1 comes no earlier than the wait after attempt i. */
  ghost predicate Spaced(times: seq<int>) {
    forall i | 1 <= i < |times| :: times[i] >= times[i - 1] + Delay(i)
  }

  /** Attempt n comes at least the sum of the first n - 1 waits after the first attempt. */
  lemma {:induction false} SpacedAddsUp(times: seq<int>, n: nat)
    requires Spaced(times) && 1 <= n <= |times|
    ensures times[n - 1] - times[0] >= TotalDelay(n)
  {
    if n > 1 {
      SpacedAddsUp(times, n - 1);
    }
  }
}
