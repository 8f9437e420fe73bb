/** Product access as it is served: `AccessCheckSerializer.save` checks first and records in a separate, unlocked
    step. */
module Metering {
  import opened Prelude
  import opened Catalog
  import opened Entitlements
  import opened Usage
  import opened ProductCatalog
  import opened ProductAccess
  import opened QuotaMachine

  function RulePeriod(product: string, action: string): Period {
    if ActionRule(product, action).Some? then ActionRule(product, action).value.period else NoPeriod
  }

  /** The body of one access-check call. */
  datatype Call = Call(subject: Subject, product: string, action: string, quantity: nat, idempotencyKey: string)

  function RequestOf(c: Call): Request {
    Request(OwnerOf(c.subject), c.product, c.action, RulePeriod(c.product, c.action), c.quantity, c.idempotencyKey)
  }

  /** What a check sees of the administration and billing tables is part of the step: it may differ between checks. */
  datatype AccessStep =
    | CheckCall(at: Moment, call: Call, overrides: seq<Override>, features: Features)
    | RecordCall(at: Moment, index: nat)
    | LoseCall(at: Moment, index: nat)

  function DecideCall(c: Call, overrides: seq<Override>, features: Features, events: seq<UsageEvent>, now: Moment)
    : Result<Decision, string>
  {
    Decide(c.subject, c.product, c.action, c.quantity, overrides, features, events, now)
  }

  /** The step of the machine that an access step is, in the state it finds. */
  function Lowered(m: Meter, step: AccessStep): Step {
    match step
    case CheckCall(at, c, overrides, features) =>
      Check(at, RequestOf(c), IsAllowed(DecideCall(c, overrides, features, m.events, at)))
    case RecordCall(at, i) => Record(at, i)
    case LoseCall(at, i) => Abandon(at, i)
  }

  function RunCalls(m: Meter, steps: seq<AccessStep>): Meter {
    if steps == [] then m
    else
      var before := RunCalls(m, steps[..|steps| - 1]);
      Next(before, Lowered(before, steps[|steps| - 1]))
  }

  function LoweredAll(m: Meter, steps: seq<AccessStep>): seq<Step> {
    if steps == [] then []
    else
      var front := steps[..|steps| - 1];
      LoweredAll(m, front) + [Lowered(RunCalls(m, front), steps[|steps| - 1])]
  }

  predicate IsLimited(g: Group) {
    && ActionRule(g.product, g.action).Some?
    && ActionRule(g.product, g.action).value.limit.Some?
    && ActionRule(g.product, g.action).value.period == g.period
  }

  /** The hypothesis on one access step: the clock does not run backwards; a check of the group asks for at most Q,
      starts while fewer than k of the group's requests are in flight, and finds no ALLOW override and the limit L. */
  ghost predicate FairCall(m: Meter, step: AccessStep, g: Group, limit: nat, most: nat, k: nat) {
    && !Before(step.at, m.now)
    && (step.CheckCall? && InGroup(RequestOf(step.call), g) ==>
          && step.call.quantity <= most
          && Waiting(m.inFlight, g) < k
          && !AnyOverride(step.overrides, g.owner, g.product, g.action, AllowEffect, step.at)
          && (ActionRule(g.product, g.action).Some? && ActionRule(g.product, g.action).value.limit.Some? ==>
                ToInt(LimitValue(step.call.subject, g.product, g.action,
                                 ActionRule(g.product, g.action).value.limit.value,
                                 step.overrides, step.features, step.at)) == Some(limit)))
  }

  ghost predicate AllFairCalls(m: Meter, steps: seq<AccessStep>, g: Group, limit: nat, most: nat, k: nat) {
    steps != [] ==>
      && AllFairCalls(m, steps[..|steps| - 1], g, limit, most, k)
      && FairCall(RunCalls(m, steps[..|steps| - 1]), steps[|steps| - 1], g, limit, most, k)
  }

  /** A fair check that is allowed has seen room for its quantity. */
  lemma AllowedFitsLimit(m: Meter, step: AccessStep, g: Group, limit: nat, most: nat, k: nat)
    requires step.CheckCall? && InGroup(RequestOf(step.call), g) && IsLimited(g) && FairCall(m, step, g, limit, most, k)
    requires IsAllowed(DecideCall(step.call, step.overrides, step.features, m.events, step.at))
    ensures Used(m, g, CurrentKey(g, step.at)) + step.call.quantity <= limit
  {
    var c := step.call;
    DecisionClosedForm(c.subject, c.product, c.action, c.quantity, step.overrides, step.features, m.events, step.at);
  }

  lemma LoweredIsFair(m: Meter, step: AccessStep, g: Group, limit: nat, most: nat, k: nat)
    requires IsLimited(g) && FairCall(m, step, g, limit, most, k)
    ensures Fair(m, Lowered(m, step), g, limit, most, k)
  {
    if step.CheckCall? && InGroup(RequestOf(step.call), g) {
      if IsAllowed(DecideCall(step.call, step.overrides, step.features, m.events, step.at)) {
        AllowedFitsLimit(m, step, g, limit, most, k);
      }
    }
  }

  lemma {:induction false} LoweredRun(m: Meter, steps: seq<AccessStep>, g: Group, limit: nat, most: nat, k: nat)
    requires IsLimited(g) && AllFairCalls(m, steps, g, limit, most, k)
    ensures Run(m, LoweredAll(m, steps)) == RunCalls(m, steps)
    ensures AllFair(m, LoweredAll(m, steps), g, limit, most, k)
  {
    if steps != [] {
      var front := steps[..|steps| - 1];
      LoweredRun(m, front, g, limit, most, k);
      LoweredIsFair(RunCalls(m, front), steps[|steps| - 1], g, limit, most, k);
      assert LoweredAll(m, steps)[..|LoweredAll(m, steps)| - 1] == LoweredAll(m, front);
    }
  }

  /** Over every interleaving of access checks, records and lost requests, with at most k requests of a (subject,
      product, action) in flight, each of quantity at most Q <= L, recorded usage of any period, and that of the current
      period plus the pending quantity, never exceeds L + (k - 1) * Q. */
  lemma ConcurrentQuotaBound(m: Meter, steps: seq<AccessStep>, g: Group, limit: nat, most: nat, k: nat)
    requires m.events == [] && m.inFlight == [] && IsLimited(g)
    requires 1 <= k && most <= limit && AllFairCalls(m, steps, g, limit, most, k)
    ensures forall key :: Used(RunCalls(m, steps), g, key) <= limit + (k - 1) * most
    ensures var r := RunCalls(m, steps);
            Used(r, g, CurrentKey(g, r.now)) + Pending(r.inFlight, g) <= limit + (k - 1) * most
  {
    LoweredRun(m, steps, g, limit, most, k);
    RunKeepsBound(m, LoweredAll(m, steps), g, limit, most, k);
  }

  /** One request at a time: the limit is exact. */
  lemma SequentialQuotaIsExact(m: Meter, steps: seq<AccessStep>, g: Group, limit: nat, most: nat,
                                                  key: PeriodKey)
    requires m.events == [] && m.inFlight == [] && IsLimited(g)
    requires most <= limit && AllFairCalls(m, steps, g, limit, most, 1)
    ensures Used(RunCalls(m, steps), g, key) <= limit
  {
    ConcurrentQuotaBound(m, steps, g, limit, most, 1);
    assert limit + (1 - 1) * most == limit;
  }

  /** A call that nothing interleaves with is a check step followed at once by its record step. */
  lemma UninterruptedCall(events: seq<UsageEvent>, call: Call, overrides: seq<Override>, features: Features,
                          now: Moment)
    ensures RunCalls(Meter(events, [], now), [CheckCall(now, call, overrides, features), RecordCall(now, 0)]).events ==
            if IsAllowed(DecideCall(call, overrides, features, events, now))
            then Recorded(events, RequestOf(call), now) else events
  {
    var m := Meter(events, [], now);
    var check, record := CheckCall(now, call, overrides, features), RecordCall(now, 0);
    var steps := [check, record];
    assert steps[..1] == [check] && [check][..0] == [];
    assert RunCalls(m, [check]) == Next(m, Lowered(m, check));
    assert RunCalls(m, steps) == Next(Next(m, Lowered(m, check)), Record(now, 0));
  }

  // ---------------------------------------------------------------- the bound is reached

  const SOMEONE := Subject(Some(1), None, Some(1))
  const TYPIST := Group(OfUser(1), "typing", "start_test", PerDay)
  const NOON := Moment(2024, 5, 17, 43200)

  function Ask(quantity: nat): Call {
    Call(SOMEONE, "typing", "start_test", quantity, "")
  }

  function Granting(limit: nat): Features {
    map["typing.enabled" := Bool(true), "typing.tests_per_day" := Int(limit)]
  }

  /** The access step behind a machine step of the witness. */
  function Served(step: Step, limit: nat): AccessStep {
    match step
    case Check(at, r, _) => CheckCall(at, Ask(r.quantity), [], Granting(limit))
    case Record(at, i) => RecordCall(at, i)
    case Abandon(at, i) => LoseCall(at, i)
  }

  function ServedAll(steps: seq<Step>, limit: nat): seq<AccessStep> {
    if steps == [] then [] else ServedAll(steps[..|steps| - 1], limit) + [Served(steps[|steps| - 1], limit)]
  }

  lemma TypistRule()
    ensures ActionRule("typing", "start_test") == Quota("typing.enabled", "typing.tests_per_day", PerDay)
  {
  }

  lemma GrantingDecides(quantity: nat, limit: nat, events: seq<UsageEvent>)
    ensures IsAllowed(DecideCall(Ask(quantity), [], Granting(limit), events, NOON)) <==>
            UsageTotal(events, OfUser(1), "typing", "start_test", DayKey(2024, 5, 17)) + quantity <= limit
    ensures LimitValue(SOMEONE, "typing", "start_test", "typing.tests_per_day", [], Granting(limit), NOON) == Int(limit)
  {
    TypistRule();
    assert "typing.enabled"[7] != "typing.tests_per_day"[7];
    assert FeatureValue(Granting(limit), "typing.enabled") == Bool(true);
    assert FeatureValue(Granting(limit), "typing.tests_per_day") == Int(limit);
  }

  lemma ServedStep(m: Meter, step: Step, limit: nat, most: nat, k: nat)
    requires step.at == NOON && Fair(m, step, TYPIST, limit, most, k)
    requires step.Check? ==>
               && step.request == RequestOf(Ask(step.request.quantity))
               && step.admitted == (Used(m, TYPIST, DayKey(2024, 5, 17)) + step.request.quantity <= limit)
    ensures FairCall(m, Served(step, limit), TYPIST, limit, most, k)
    ensures Lowered(m, Served(step, limit)) == step
  {
    if step.Check? {
      TypistRule();
      GrantingDecides(step.request.quantity, limit, m.events);
    }
  }

  lemma {:induction false} ServedRun(m: Meter, steps: seq<Step>, limit: nat, most: nat, k: nat)
    requires m.now == NOON
    requires AllFair(m, steps, TYPIST, limit, most, k)
    requires Honest(m, steps, RequestOf(Ask(0)), NOON, TYPIST, limit)
    ensures AllFairCalls(m, ServedAll(steps, limit), TYPIST, limit, most, k)
    ensures RunCalls(m, ServedAll(steps, limit)) == Run(m, steps)
  {
    if steps != [] {
      var front := steps[..|steps| - 1];
      ServedRun(m, front, limit, most, k);
      ServedStep(Run(m, front), steps[|steps| - 1], limit, most, k);
      var served := ServedAll(steps, limit);
      assert served[..|served| - 1] == ServedAll(front, limit);
    }
  }

  /** The overshoot is real: for every limit L, every 1 <= Q <= L and every k there is a fair run of the typing
      quota that records exactly L + (k - 1) * Q. */
  lemma QuotaBoundIsReached(limit: nat, most: nat, k: nat) returns (steps: seq<AccessStep>)
    requires 1 <= most <= limit && 1 <= k
    ensures IsLimited(TYPIST) && AllFairCalls(Meter([], [], NOON), steps, TYPIST, limit, most, k)
    ensures Used(RunCalls(Meter([], [], NOON), steps), TYPIST, DayKey(2024, 5, 17)) == limit + (k - 1) * most
  {
    TypistRule();
    var m := Meter([], [], NOON);
    var lowered, after := BoundIsReached(m, RequestOf(Ask(0)), TYPIST, limit, most, k);
    ServedRun(m, lowered, limit, most, k);
    steps := ServedAll(lowered, limit);
  }

  // ---------------------------------------------------------------- the service, in place

  datatype DecisionRow = DecisionRow(subject: Subject, product: string, action: string, decision: Decision)

  class AccessService {
    var usage: seq<UsageEvent>
    var decisions: seq<DecisionRow>

    constructor ()
      ensures usage == [] && decisions == []
    {
      usage, decisions := [], [];
    }

    method RecordDecision(subject: Subject, product: string, action: string, decision: Decision, record: bool)
      modifies this`decisions
      ensures decisions == if record then old(decisions) + [DecisionRow(subject, product, action, decision)]
                           else old(decisions)
    {
      if record {
        decisions := decisions + [DecisionRow(subject, product, action, decision)];
      }
    }

    method RecordUsage(r: Request, now: Moment) returns (event: UsageEvent)
      modifies this`usage
      ensures usage == Recorded(old(usage), r, now)
      ensures event in usage && (event == EventOf(r, now) || event.idempotencyKey == r.idempotencyKey != "")
    {
      if r.idempotencyKey != "" {
        for i := 0 to |usage|
          invariant forall j | 0 <= j < i :: usage[j].idempotencyKey != r.idempotencyKey
        {
          if usage[i].idempotencyKey == r.idempotencyKey {
            return usage[i];
          }
        }
      }
      event := EventOf(r, now);
      usage := usage + [event];
    }

    /** Every answered check leaves one decision row; a check that raises leaves none. */
    method CheckProductAccess(subject: Subject, product: string, action: string, quantity: nat,
                              overrides: seq<Override>, features: Features, now: Moment, record: bool)
      returns (r: Result<Decision, string>)
      modifies this`decisions
      ensures r == Decide(subject, product, action, quantity, overrides, features, usage, now)
      ensures decisions == if record && r.Ok? then old(decisions) + [DecisionRow(subject, product, action, r.value)]
                           else old(decisions)
    {
      if product !in BUSINESS_PRODUCTS {
        RecordDecision(subject, product, action, Refuse(UnknownProduct), record);
        return Ok(Refuse(UnknownProduct));
      }
      var found := ActionRule(product, action);
      if found.None? {
        RecordDecision(subject, product, action, Refuse(UnknownAction), record);
        return Ok(Refuse(UnknownAction));
      }
      var rule := found.value;
      if subject.customer.None? {
        RecordDecision(subject, product, action, Refuse(UnknownSubject), record);
        return Ok(Refuse(UnknownSubject));
      }
      var owner := OwnerOf(subject);
      var denied := FirstOverride(overrides, owner, product, action, "", DenyEffect, now);
      if denied.Some? {
        RecordDecision(subject, product, action, Refuse(AdminDenied), record);
        return Ok(Refuse(AdminDenied));
      }
      var allowed := FirstOverride(overrides, owner, product, action, "", AllowEffect, now);
      var required := FeatureValue(features, rule.required);
      if !Truthy(required) && allowed.None? {
        RecordDecision(subject, product, action, Refuse(MissingEntitlement), record);
        return Ok(Refuse(MissingEntitlement));
      }
      if rule.limit.Some? {
        r := CheckLimit(subject, product, action, rule.limit.value, rule.period, allowed.Some?, quantity, overrides,
                        features, now);
        if r.Ok? {
          RecordDecision(subject, product, action, r.value, record);
        }
        return;
      }
      RecordDecision(subject, product, action, Refuse(Granted), record);
      r := Ok(Refuse(Granted));
    }

    method CheckLimit(subject: Subject, product: string, action: string, limitKey: string, period: Period, allow: bool,
                      quantity: nat, overrides: seq<Override>, features: Features, now: Moment)
      returns (r: Result<Decision, string>)
      ensures r == DecideLimit(subject, product, action, limitKey, period, allow, quantity, overrides, features, usage,
                               now)
    {
      var owner := OwnerOf(subject);
      var o := FirstOverride(overrides, owner, product, action, limitKey, LimitEffect, now);
      var value := if o.Some? && o.value.intValue.Some? then Int(o.value.intValue.value)
      else FeatureValue(features, limitKey);
      if value == Null {
        return Ok(Refuse(MissingLimit));
      }
      var limit := ToInt(value);
      if limit.None? {
        return Raised(NOT_A_NUMBER);
      }
      var used := UsageTotal(usage, owner, product, action, PeriodKeyFor(period, now));
      var remaining := Max(limit.value - used, 0);
      if used + quantity > limit.value && !allow {
        return Ok(Decision(LimitExceeded, Some(limit.value), Some(used), Some(remaining)));
      }
      r := Ok(Decision(Granted, Some(limit.value), Some(used), Some(remaining)));
    }

    /** `AccessCheckSerializer.save` when nothing else runs in between: the check step, then the record step. */
    method Save(call: Call, recordUsage: bool, overrides: seq<Override>, features: Features, now: Moment)
      returns (r: Result<Decision, string>)
      modifies this
      ensures r == DecideCall(call, overrides, features, old(usage), now)
      ensures usage == if IsAllowed(r) && recordUsage then Recorded(old(usage), RequestOf(call), now) else old(usage)
    {
      r := CheckProductAccess(call.subject, call.product, call.action, call.quantity, overrides, features, now, true);
      if r.Ok? && r.value.Allowed() && recordUsage {
        var event := RecordUsage(RequestOf(call), now);
      }
    }
  }
}
