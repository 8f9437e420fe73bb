/** Check and record as separate, unlocked steps: what any check that only looks at recorded usage can guarantee. */
module QuotaMachine {
  import opened Prelude
  import opened Usage

  /** Recorded usage, the requests that were admitted and have not yet recorded, and the clock. */
  datatype Meter = Meter(events: seq<UsageEvent>, inFlight: seq<Request>, now: Moment)

  datatype Step =
    | Check(at: Moment, request: Request, admitted: bool)
    | Record(at: Moment, index: nat)
    | Abandon(at: Moment, index: nat)

  function Without(inFlight: seq<Request>, i: nat): seq<Request>
    requires i < |inFlight|
  {
    inFlight[..i] + inFlight[i + 1..]
  }

  function Next(m: Meter, step: Step): Meter {
    match step
    case Check(at, r, admitted) => Meter(m.events, if admitted then m.inFlight + [r] else m.inFlight, at)
    case Record(at, i) =>
      if i < |m.inFlight| then Meter(Recorded(m.events, m.inFlight[i], at), Without(m.inFlight, i), at)
      else m.(now := at)
    case Abandon(at, i) =>
      if i < |m.inFlight| then Meter(m.events, Without(m.inFlight, i), at) else m.(now := at)
  }

  function Run(m: Meter, steps: seq<Step>): Meter {
    if steps == [] then m else Next(Run(m, steps[..|steps| - 1]), steps[|steps| - 1])
  }

  /** The (subject, product, action) whose usage is bounded, with the period of its rule. */
  datatype Group = Group(owner: Owner, product: string, action: string, period: Period)

  predicate InGroup(r: Request, g: Group) {
    r.owner == g.owner && r.product == g.product && r.action == g.action
  }

  function Pending(inFlight: seq<Request>, g: Group): nat {
    if inFlight == [] then 0
    else
      var last := inFlight[|inFlight| - 1];
      Pending(inFlight[..|inFlight| - 1], g) + if InGroup(last, g) then last.quantity else 0
  }

  function Waiting(inFlight: seq<Request>, g: Group): nat {
    if inFlight == [] then 0
    else Waiting(inFlight[..|inFlight| - 1], g) + if InGroup(inFlight[|inFlight| - 1], g) then 1 else 0
  }

  function Used(m: Meter, g: Group, key: PeriodKey): nat {
    UsageTotal(m.events, g.owner, g.product, g.action, key)
  }

  function CurrentKey(g: Group, now: Moment): PeriodKey {
    PeriodKeyFor(g.period, now)
  }

  /** A request of the group that asks for at most Q, under the group's period. */
  predicate Modest(r: Request, g: Group, most: nat) {
    InGroup(r, g) ==> r.quantity <= most && r.period == g.period
  }

  /** The hypothesis on one step: time does not run backwards; a check of the group asks for at most Q, starts only
      while fewer than k of the group's requests are in flight, and is admitted only within the limit L. */
  ghost predicate Fair(m: Meter, step: Step, g: Group, limit: nat, most: nat, k: nat) {
    && !Before(step.at, m.now)
    && (step.Check? ==> Modest(step.request, g, most))
    && (step.Check? && InGroup(step.request, g) ==>
          && Waiting(m.inFlight, g) < k
          && (step.admitted ==> Used(m, g, CurrentKey(g, step.at)) + step.request.quantity <= limit))
  }

  ghost predicate AllFair(m: Meter, steps: seq<Step>, g: Group, limit: nat, most: nat, k: nat) {
    steps != [] ==>
      && AllFair(m, steps[..|steps| - 1], g, limit, most, k)
      && Fair(Run(m, steps[..|steps| - 1]), steps[|steps| - 1], g, limit, most, k)
  }

  ghost predicate Bounded(m: Meter, g: Group, bound: int) {
    && (forall key :: Used(m, g, key) <= bound)
    && Used(m, g, CurrentKey(g, m.now)) + Pending(m.inFlight, g) <= bound
  }

  /** What the bound needs besides itself: periods to come are unused, and few, modest requests wait. */
  ghost predicate Orderly(m: Meter, g: Group, most: nat, k: nat) {
    && (forall later :: !Before(later, m.now) && CurrentKey(g, later) != CurrentKey(g, m.now)
                        ==> Used(m, g, CurrentKey(g, later)) == 0)
    && Waiting(m.inFlight, g) <= k
    && (forall i | 0 <= i < |m.inFlight| :: Modest(m.inFlight[i], g, most))
  }

  lemma {:induction false} PendingConcat(a: seq<Request>, b: seq<Request>, g: Group)
    ensures Pending(a + b, g) == Pending(a, g) + Pending(b, g)
    ensures Waiting(a + b, g) == Waiting(a, g) + Waiting(b, g)
  {
    if b == [] {
      assert a + b == a;
    } else {
      assert (a + b)[..|a + b| - 1] == a + b[..|b| - 1];
      PendingConcat(a, b[..|b| - 1], g);
    }
  }

  lemma PendingWithout(inFlight: seq<Request>, i: nat, g: Group)
    requires i < |inFlight|
    ensures var rest := Without(inFlight, i);
            && Pending(inFlight, g) == Pending(rest, g) + (if InGroup(inFlight[i], g) then inFlight[i].quantity else 0)
            && Waiting(inFlight, g) == Waiting(rest, g) + (if InGroup(inFlight[i], g) then 1 else 0)
  {
    var one := [inFlight[i]];
    assert inFlight == inFlight[..i] + one + inFlight[i + 1..];
    PendingConcat(inFlight[..i] + one, inFlight[i + 1..], g);
    PendingConcat(inFlight[..i], one, g);
    PendingConcat(inFlight[..i], inFlight[i + 1..], g);
    assert one[..0] == [];
  }

  lemma {:induction false} PendingAtMost(inFlight: seq<Request>, g: Group, most: nat)
    requires forall i | 0 <= i < |inFlight| :: Modest(inFlight[i], g, most)
    ensures Pending(inFlight, g) <= Waiting(inFlight, g) * most
  {
    if inFlight != [] {
      PendingAtMost(inFlight[..|inFlight| - 1], g, most);
    }
  }

  lemma FewWaiting(inFlight: seq<Request>, g: Group, most: nat, k: nat)
    requires forall i | 0 <= i < |inFlight| :: Modest(inFlight[i], g, most)
    requires Waiting(inFlight, g) <= k
    ensures Pending(inFlight, g) <= k * most
  {
    PendingAtMost(inFlight, g, most);
    ScaledAtMost(Waiting(inFlight, g), k, most);
  }

  lemma ScaledAtMost(a: nat, b: nat, factor: nat)
    requires a <= b
    ensures a * factor <= b * factor
  {
  }

  /** The clock may move on at any time: a new period starts unused, with at most k requests of at most Q each
      waiting. */
  lemma TimePasses(m: Meter, at: Moment, g: Group, bound: int, most: nat, k: nat)
    requires Bounded(m, g, bound) && Orderly(m, g, most, k)
    requires k * most <= bound && !Before(at, m.now)
    ensures Bounded(m.(now := at), g, bound) && Orderly(m.(now := at), g, most, k)
  {
    var moved := m.(now := at);
    assert forall key :: Used(moved, g, key) == Used(m, g, key);
    if CurrentKey(g, at) != CurrentKey(g, m.now) {
      FewWaiting(m.inFlight, g, most, k);
      assert Used(m, g, CurrentKey(g, at)) == 0;
    }
    forall later | !Before(later, at) && CurrentKey(g, later) != CurrentKey(g, at)
      ensures Used(moved, g, CurrentKey(g, later)) == 0
    {
      if CurrentKey(g, later) == CurrentKey(g, m.now) {
        PeriodsAreIntervals(g.period, m.now, at, later);
      }
    }
  }

  lemma CheckKeepsBound(m: Meter, step: Step, g: Group, limit: nat, most: nat, k: nat)
    requires step.Check? && step.at == m.now && 1 <= k
    requires Bounded(m, g, limit + (k - 1) * most) && Orderly(m, g, most, k)
    requires Fair(m, step, g, limit, most, k)
    ensures Bounded(Next(m, step), g, limit + (k - 1) * most) && Orderly(Next(m, step), g, most, k)
  {
    var after := Next(m, step);
    assert forall key :: Used(after, g, key) == Used(m, g, key);
    if step.admitted {
      var one := [step.request];
      PendingConcat(m.inFlight, one, g);
      assert one[..0] == [];
      if InGroup(step.request, g) {
        FewWaiting(m.inFlight, g, most, k - 1);
      }
    }
  }

  lemma RecordedTotals(events: seq<UsageEvent>, r: Request, now: Moment, g: Group, most: nat, key: PeriodKey)
    requires Modest(r, g, most)
    ensures var before := UsageTotal(events, g.owner, g.product, g.action, key);
            var after := UsageTotal(Recorded(events, r, now), g.owner, g.product, g.action, key);
            before <= after <= before + if InGroup(r, g) && key == CurrentKey(g, now) then r.quantity else 0
  {
    var longer := events + [EventOf(r, now)];
    assert longer[..|longer| - 1] == events;
  }

  /** A request that stops waiting makes room for what it may record. */
  lemma LeaveKeepsBound(m: Meter, i: nat, events: seq<UsageEvent>, g: Group, bound: int, most: nat, k: nat)
    requires i < |m.inFlight|
    requires Bounded(m, g, bound) && Orderly(m, g, most, k)
    requires forall key :: UsageTotal(events, g.owner, g.product, g.action, key) <= Used(m, g, key) +
                           if InGroup(m.inFlight[i], g) && key == CurrentKey(g, m.now) then m.inFlight[i].quantity
                             else 0
    ensures var left := Meter(events, Without(m.inFlight, i), m.now);
            Bounded(left, g, bound) && Orderly(left, g, most, k)
  {
    PendingWithout(m.inFlight, i, g);
    var left := Meter(events, Without(m.inFlight, i), m.now);
    forall key ensures Used(left, g, key) <= Used(m, g, key) +
                         if InGroup(m.inFlight[i], g) && key == CurrentKey(g, m.now) then m.inFlight[i].quantity else 0
    {
    }
  }

  lemma FinishKeepsBound(m: Meter, step: Step, g: Group, bound: int, most: nat, k: nat)
    requires !step.Check? && step.at == m.now
    requires Bounded(m, g, bound) && Orderly(m, g, most, k)
    ensures Bounded(Next(m, step), g, bound) && Orderly(Next(m, step), g, most, k)
  {
    if step.index < |m.inFlight| {
      var r := m.inFlight[step.index];
      var events := if step.Record? then Recorded(m.events, r, m.now) else m.events;
      forall key ensures UsageTotal(events, g.owner, g.product, g.action, key) <= Used(m, g, key) +
                           if InGroup(r, g) && key == CurrentKey(g, m.now) then r.quantity else 0
      {
        RecordedTotals(m.events, r, m.now, g, most, key);
      }
      LeaveKeepsBound(m, step.index, events, g, bound, most, k);
    }
  }

  lemma StepKeepsBound(m: Meter, step: Step, g: Group, limit: nat, most: nat, k: nat)
    requires Bounded(m, g, limit + (k - 1) * most) && Orderly(m, g, most, k)
    requires 1 <= k && most <= limit && Fair(m, step, g, limit, most, k)
    ensures Bounded(Next(m, step), g, limit + (k - 1) * most) && Orderly(Next(m, step), g, most, k)
  {
    OneMore(k, most);
    TimePasses(m, step.at, g, limit + (k - 1) * most, most, k);
    var moved := m.(now := step.at);
    assert Next(moved, step) == Next(m, step);
    if step.Check? {
      CheckKeepsBound(moved, step, g, limit, most, k);
    } else {
      FinishKeepsBound(moved, step, g, limit + (k - 1) * most, most, k);
    }
  }

  /** Over every interleaving of checks, records and lost requests, with at most k requests of the group in flight, each
      of quantity at most Q <= L, recorded usage of a period plus the pending quantity never exceeds L + (k - 1) * Q. */
  lemma {:induction false} RunKeepsBound(m: Meter, steps: seq<Step>, g: Group, limit: nat, most: nat, k: nat)
    requires m.events == [] && m.inFlight == []
    requires 1 <= k && most <= limit && AllFair(m, steps, g, limit, most, k)
    ensures Bounded(Run(m, steps), g, limit + (k - 1) * most) && Orderly(Run(m, steps), g, most, k)
  {
    if steps == [] {
      assert (k - 1) * most >= 0;
    } else {
      RunKeepsBound(m, steps[..|steps| - 1], g, limit, most, k);
      StepKeepsBound(Run(m, steps[..|steps| - 1]), steps[|steps| - 1], g, limit, most, k);
    }
  }

  // ---------------------------------------------------------------- the bound is reached

  /** The steps of a run in which every check of the request `base`, scaled, is admitted exactly within the limit. */
  ghost predicate Honest(m: Meter, steps: seq<Step>, base: Request, at: Moment, g: Group, limit: nat) {
    steps != [] ==>
      && Honest(m, steps[..|steps| - 1], base, at, g, limit)
      && var step := steps[|steps| - 1];
         && step.at == at
         && (step.Check? ==>
               && step.request == base.(quantity := step.request.quantity)
               && step.admitted == (Used(Run(m, steps[..|steps| - 1]), g, CurrentKey(g, at)) + step.request.quantity
                                    <= limit))
  }

  /** A run from m to n that is fair and honest. */
  ghost predicate Reaches(m: Meter, steps: seq<Step>, n: Meter, base: Request, g: Group, limit: nat, most: nat,
                          k: nat) {
    AllFair(m, steps, g, limit, most, k) && Honest(m, steps, base, m.now, g, limit) && Run(m, steps) == n
  }

  lemma {:induction false} ReachesConcat(m: Meter, a: seq<Step>, n: Meter, b: seq<Step>, o: Meter, base: Request,
                                         g: Group,
                                         limit: nat, most: nat, k: nat)
    requires Reaches(m, a, n, base, g, limit, most, k) && n.now == m.now && Reaches(n, b, o, base, g, limit, most, k)
    ensures Reaches(m, a + b, o, base, g, limit, most, k)
  {
    if b == [] {
      assert a + b == a;
    } else {
      assert (a + b)[..|a + b| - 1] == a + b[..|b| - 1];
      ReachesConcat(m, a, n, b[..|b| - 1], Run(n, b[..|b| - 1]), base, g, limit, most, k);
    }
  }

  function Copies(base: Request, quantity: nat, n: nat): seq<Request> {
    seq(n, _ => base.(quantity := quantity))
  }

  predicate Plain(base: Request, g: Group) {
    InGroup(base, g) && base.period == g.period && base.idempotencyKey == "" && g.owner != Nobody
  }

  lemma {:induction false} WaitingCopies(base: Request, quantity: nat, n: nat, g: Group)
    requires InGroup(base, g)
    ensures Waiting(Copies(base, quantity, n), g) == n
  {
    if n > 0 {
      assert Copies(base, quantity, n)[..n - 1] == Copies(base, quantity, n - 1);
      WaitingCopies(base, quantity, n - 1, g);
    }
  }

  lemma OneCheck(m: Meter, n: nat, quantity: nat, base: Request, g: Group, limit: nat, most: nat, k: nat)
    requires Plain(base, g) && m.inFlight == Copies(base, quantity, n) && n < k && quantity <= most
    requires Used(m, g, CurrentKey(g, m.now)) + quantity <= limit
    ensures Reaches(m, [Check(m.now, base.(quantity := quantity), true)],
                    m.(inFlight := Copies(base, quantity, n + 1)), base, g, limit, most, k)
  {
    WaitingCopies(base, quantity, n, g);
    var steps := [Check(m.now, base.(quantity := quantity), true)];
    assert steps[..0] == [];
    assert m.inFlight + [base.(quantity := quantity)] == Copies(base, quantity, n + 1);
  }

  lemma OneRecord(m: Meter, n: nat, quantity: nat, base: Request, g: Group, limit: nat, most: nat, k: nat)
    returns (after: Meter)
    requires Plain(base, g) && m.inFlight == Copies(base, quantity, n) && 1 <= n
    ensures Reaches(m, [Record(m.now, 0)], after, base, g, limit, most, k)
    ensures after.now == m.now && after.inFlight == Copies(base, quantity, n - 1)
    ensures Used(after, g, CurrentKey(g, m.now)) == Used(m, g, CurrentKey(g, m.now)) + quantity
  {
    var steps := [Record(m.now, 0)];
    assert steps[..0] == [];
    after := Next(m, Record(m.now, 0));
    assert Without(m.inFlight, 0) == Copies(base, quantity, n - 1);
    var longer := m.events + [EventOf(m.inFlight[0], m.now)];
    assert longer[..|longer| - 1] == m.events;
  }

  /** n unit requests one after the other, each recorded before the next is checked. */
  lemma {:induction false} FillUp(m: Meter, n: nat, base: Request, g: Group, limit: nat, most: nat, k: nat)
    returns (steps: seq<Step>, after: Meter)
    requires Plain(base, g) && m.events == [] && m.inFlight == [] && n <= limit && 1 <= most && 1 <= k
    ensures Reaches(m, steps, after, base, g, limit, most, k)
    ensures after.now == m.now && after.inFlight == [] && Used(after, g, CurrentKey(g, m.now)) == n
  {
    if n == 0 {
      steps, after := [], m;
    } else {
      var front, before := FillUp(m, n - 1, base, g, limit, most, k);
      assert before.inFlight == Copies(base, 1, 0);
      OneCheck(before, 0, 1, base, g, limit, most, k);
      var waiting := before.(inFlight := Copies(base, 1, 1));
      var checks := [Check(before.now, base.(quantity := 1), true)];
      after := OneRecord(waiting, 1, 1, base, g, limit, most, k);
      assert after.inFlight == [];
      ReachesConcat(before, checks, waiting, [Record(m.now, 0)], after, base, g, limit, most, k);
      ReachesConcat(m, front, before, checks + [Record(m.now, 0)], after, base, g, limit, most, k);
      steps := front + (checks + [Record(m.now, 0)]);
    }
  }

  lemma {:induction false} CheckAll(m: Meter, n: nat, base: Request, g: Group, limit: nat, most: nat, k: nat)
    returns (steps: seq<Step>)
    requires Plain(base, g) && m.inFlight == [] && n <= k && Used(m, g, CurrentKey(g, m.now)) + most <= limit
    ensures Reaches(m, steps, m.(inFlight := Copies(base, most, n)), base, g, limit, most, k)
  {
    if n == 0 {
      steps := [];
      assert m.inFlight == Copies(base, most, 0);
    } else {
      var front := CheckAll(m, n - 1, base, g, limit, most, k);
      var before := m.(inFlight := Copies(base, most, n - 1));
      OneCheck(before, n - 1, most, base, g, limit, most, k);
      var checks := [Check(m.now, base.(quantity := most), true)];
      ReachesConcat(m, front, before, checks, m.(inFlight := Copies(base, most, n)), base, g, limit, most, k);
      steps := front + checks;
    }
  }

  lemma OneMore(n: nat, factor: nat)
    requires n >= 1
    ensures n * factor == (n - 1) * factor + factor
  {
  }

  lemma {:induction false} RecordAll(m: Meter, n: nat, base: Request, g: Group, limit: nat, most: nat, k: nat)
    returns (steps: seq<Step>, after: Meter)
    requires Plain(base, g) && m.inFlight == Copies(base, most, n)
    ensures Reaches(m, steps, after, base, g, limit, most, k)
    ensures after.now == m.now && Used(after, g, CurrentKey(g, m.now)) == Used(m, g, CurrentKey(g, m.now)) + n * most
    decreases n
  {
    if n == 0 {
      steps, after := [], m;
    } else {
      var next := OneRecord(m, n, most, base, g, limit, most, k);
      var rest;
      rest, after := RecordAll(next, n - 1, base, g, limit, most, k);
      ReachesConcat(m, [Record(m.now, 0)], next, rest, after, base, g, limit, most, k);
      steps := [Record(m.now, 0)] + rest;
      OneMore(n, most);
    }
  }

  /** For every limit L, every 1 <= Q <= L and every k, some fair and honest run records exactly L + (k - 1) * Q. */
  lemma BoundIsReached(m: Meter, base: Request, g: Group, limit: nat, most: nat, k: nat)
    returns (steps: seq<Step>, after: Meter)
    requires Plain(base, g) && m.events == [] && m.inFlight == [] && 1 <= most <= limit && 1 <= k
    ensures Reaches(m, steps, after, base, g, limit, most, k)
    ensures Used(after, g, CurrentKey(g, m.now)) == limit + (k - 1) * most
  {
    var fills, filled := FillUp(m, limit - most, base, g, limit, most, k);
    var checks := CheckAll(filled, k, base, g, limit, most, k);
    var waiting := filled.(inFlight := Copies(base, most, k));
    var records;
    records, after := RecordAll(waiting, k, base, g, limit, most, k);
    ReachesConcat(m, fills, filled, checks, waiting, base, g, limit, most, k);
    ReachesConcat(m, fills + checks, waiting, records, after, base, g, limit, most, k);
    steps := fills + checks + records;
    OneMore(k, most);
  }
}
