// retry/retry.go, CircuitBreaker: closed, open and half-open, shared by concurrent callers.
module CircuitBreaking {
  import opened Arithmetic

  datatype Status = Closed | Open | HalfOpen

  datatype Config = Config(failureThreshold: int, successThreshold: int, timeout: int, maxRequests: int)

  datatype Breaker = Breaker(status: Status, failures: int, successes: int, requests: int, openedAt: int)

  // Each is one critical section of the breaker's mutex.
  datatype Op = Allow(now: int) | Success | Failure(now: int) | Reset

  const INITIAL := Breaker(Closed, 0, 0, 0, 0)

  predicate Admits(c: Config, b: Breaker, now: int) {
    match b.status
    case Closed => true
    case Open => now - b.openedAt >= c.timeout
    case HalfOpen => b.requests < c.maxRequests
  }

  // The call that ends the open state is admitted without being counted in requests.
  function Apply(c: Config, b: Breaker, op: Op): Breaker {
    match (op, b.status)
    case (Allow(now), Open) =>
      if Admits(c, b, now) then b.(status := HalfOpen, successes := 0, requests := 0) else b
    case (Allow(now), HalfOpen) =>
      if Admits(c, b, now) then b.(requests := b.requests + 1) else b
    case (Success, Closed) => b.(failures := 0)
    case (Success, HalfOpen) =>
      if b.successes + 1 >= c.successThreshold
      then b.(status := Closed, failures := 0, successes := 0, requests := 0)
      else b.(successes := b.successes + 1)
    case (Failure(now), Closed) =>
      if b.failures + 1 >= c.failureThreshold
      then b.(status := Open, failures := b.failures + 1, openedAt := now)
      else b.(failures := b.failures + 1)
    case (Failure(now), HalfOpen) => b.(status := Open, openedAt := now, successes := 0, requests := 0)
    case (Reset, _) => b.(status := Closed, failures := 0, successes := 0, requests := 0)
    case (_, _) => b
  }

  function Run(c: Config, b: Breaker, ops: seq<Op>): Breaker {
    if ops == [] then b else Apply(c, Run(c, b, ops[..|ops| - 1]), ops[|ops| - 1])
  }

  // ---- the state of every run ----

  predicate Consistent(c: Config, b: Breaker) {
    match b.status
    case Closed =>
      && (b.failures == 0 || 0 < b.failures < c.failureThreshold)
      && b.successes == b.requests == 0
    case Open =>
      && b.failures == Max(c.failureThreshold, 1)
      && b.successes == b.requests == 0
    case HalfOpen =>
      && b.failures == Max(c.failureThreshold, 1)
      && (b.successes == 0 || 0 < b.successes < c.successThreshold)
      && 0 <= b.requests <= Max(c.maxRequests, 0)
  }

  // The failures reported since the last success or reset.
  function FailureStreak(ops: seq<Op>): nat {
    if ops == [] then 0
    else
      match ops[|ops| - 1]
      case Allow(_) => FailureStreak(ops[..|ops| - 1])
      case Failure(_) => FailureStreak(ops[..|ops| - 1]) + 1
      case _ => 0
  }

  lemma {:induction false} RunsAreConsistent(c: Config, ops: seq<Op>)
    ensures Consistent(c, Run(c, INITIAL, ops))
    ensures Run(c, INITIAL, ops).status == Closed ==> Run(c, INITIAL, ops).failures == FailureStreak(ops)
  {
    if ops != [] {
      RunsAreConsistent(c, ops[..|ops| - 1]);
    }
  }

  // ---- what changes the status ----

  // A breaker opens only by a failure, and is dated by it; nothing else changes the date.
  lemma OpensOnlyByFailure(c: Config, b: Breaker, op: Op)
    ensures var b' := Apply(c, b, op);
      if b.status != Open && b'.status == Open then op.Failure? && b'.openedAt == op.now else b'.openedAt == b.openedAt
  {
  }

  // ---- the decision, from the operations alone ----

  // When the breaker last opened; 0 if it never has.
  function LastOpened(c: Config, ops: seq<Op>): int {
    if ops == [] then 0
    else
      var before, op := ops[..|ops| - 1], ops[|ops| - 1];
      if Run(c, INITIAL, before).status != Open && Run(c, INITIAL, ops).status == Open && op.Failure?
      then op.now
      else LastOpened(c, before)
  }

  // The operations since the status last changed.
  function SinceChange(c: Config, ops: seq<Op>): seq<Op> {
    if ops == [] then []
    else
      var before, op := ops[..|ops| - 1], ops[|ops| - 1];
      if Run(c, INITIAL, before).status != Run(c, INITIAL, ops).status then [] else SinceChange(c, before) + [op]
  }

  function Calls(ops: seq<Op>): nat {
    if ops == [] then 0 else Calls(ops[..|ops| - 1]) + (if ops[|ops| - 1].Allow? then 1 else 0)
  }

  function Successes(ops: seq<Op>): nat {
    if ops == [] then 0 else Successes(ops[..|ops| - 1]) + (if ops[|ops| - 1].Success? then 1 else 0)
  }

  // What the fields stand for.
  lemma {:induction false} FieldsAreCounts(c: Config, ops: seq<Op>)
    ensures var b := Run(c, INITIAL, ops);
      && b.openedAt == LastOpened(c, ops)
      && (b.status == HalfOpen ==>
            && b.successes == Successes(SinceChange(c, ops))
            && b.requests ==
                 (if Calls(SinceChange(c, ops)) < c.maxRequests then Calls(SinceChange(c, ops))
                  else Max(c.maxRequests, 0)))
  {
    if ops != [] {
      var before, op := ops[..|ops| - 1], ops[|ops| - 1];
      var b := Run(c, INITIAL, before);
      FieldsAreCounts(c, before);
      OpensOnlyByFailure(c, b, op);
      if b.status == Apply(c, b, op).status {
        assert (SinceChange(c, before) + [op])[..|SinceChange(c, before)|] == SinceChange(c, before);
      }
    }
  }

  // In every run a call is admitted in the closed state; in the open one from a timeout
  // after it opened; and in a trial while fewer than maxRequests calls have come since.
  lemma {:induction false} DecisionIsExact(c: Config, ops: seq<Op>, now: int)
    ensures Admits(c, Run(c, INITIAL, ops), now) <==>
      match Run(c, INITIAL, ops).status
      case Closed => true
      case Open => now >= LastOpened(c, ops) + c.timeout
      case HalfOpen => Calls(SinceChange(c, ops)) < c.maxRequests
  {
    FieldsAreCounts(c, ops);
  }

  // And in every run the status is changed by these operations alone.
  lemma {:induction false} StatusIsExact(c: Config, ops: seq<Op>, op: Op)
    ensures Run(c, INITIAL, ops + [op]).status ==
      match Run(c, INITIAL, ops).status
      case Closed => if op.Failure? && FailureStreak(ops) + 1 >= c.failureThreshold then Open else Closed
      case Open =>
        if op.Reset? then Closed
        else if op.Allow? && op.now >= LastOpened(c, ops) + c.timeout then HalfOpen
        else Open
      case HalfOpen =>
        if op.Reset? || (op.Success? && Successes(SinceChange(c, ops)) + 1 >= c.successThreshold) then Closed
        else if op.Failure? then Open
        else HalfOpen
  {
    assert (ops + [op])[..|ops|] == ops;
    RunsAreConsistent(c, ops);
    FieldsAreCounts(c, ops);
  }

  // ---- the outage bound ----

  // From b on, no operation closes the breaker.
  predicate StaysDown(c: Config, b: Breaker, ops: seq<Op>) {
    && Run(c, b, ops).status != Closed
    && (ops != [] ==> StaysDown(c, b, ops[..|ops| - 1]))
  }

  function Admitted(c: Config, b: Breaker, ops: seq<Op>): nat {
    if ops == [] then 0
    else
      var before, op := ops[..|ops| - 1], ops[|ops| - 1];
      Admitted(c, b, before) + (if op.Allow? && Admits(c, Run(c, b, before), op.now) then 1 else 0)
  }

  // The last clock reading, from t0 on.
  function Clock(t0: int, ops: seq<Op>): int {
    if ops == [] then t0
    else
      var op := ops[|ops| - 1];
      if op.Allow? || op.Failure? then op.now else Clock(t0, ops[..|ops| - 1])
  }

  predicate ClockMonotone(t0: int, ops: seq<Op>) {
    ops != [] ==>
      && ClockMonotone(t0, ops[..|ops| - 1])
      && Clock(t0, ops[..|ops| - 1]) <= Clock(t0, ops)
  }

  // How often the timeout has run out.
  ghost function Trials(c: Config, b: Breaker, ops: seq<Op>): nat {
    if ops == [] then 0
    else
      var before, op := ops[..|ops| - 1], ops[|ops| - 1];
      Trials(c, b, before) + (if Run(c, b, before).status == Open && Run(c, b, ops).status == HalfOpen then 1 else 0)
  }

  // Every trial costs a timeout, and admits one call and maxRequests more.
  lemma {:induction false} TrialsArePaidFor(c: Config, b: Breaker, ops: seq<Op>)
    requires b.status == Open && StaysDown(c, b, ops) && ClockMonotone(b.openedAt, ops)
    ensures var b', k, a := Run(c, b, ops), Trials(c, b, ops), Admitted(c, b, ops);
      var since := if b'.status == Open then b'.openedAt else Clock(b.openedAt, ops);
      && b.openedAt + Times(c.timeout, k) <= since <= Clock(b.openedAt, ops)
      && (b'.status == Open ==> a <= Times(1 + Max(c.maxRequests, 0), k))
      && (b'.status == HalfOpen ==>
            k >= 1 && 0 <= b'.requests <= Max(c.maxRequests, 0) &&
            a <= Times(1 + Max(c.maxRequests, 0), k - 1) + 1 + b'.requests)
  {
    if ops != [] {
      TrialsArePaidFor(c, b, ops[..|ops| - 1]);
    }
  }

  // 1 + maxRequests calls for every timeout that has passed.
  function Allowance(c: Config, since: int, t: int): int
    requires c.timeout > 0
  {
    (1 + Max(c.maxRequests, 0)) * ((t - since) / c.timeout)
  }

  lemma OutageBoundOf(c: Config, b: Breaker, ops: seq<Op>, t: int)
    requires c.timeout > 0 && b.status == Open && StaysDown(c, b, ops)
    requires ClockMonotone(b.openedAt, ops) && Clock(b.openedAt, ops) <= t
    ensures Admitted(c, b, ops) <= Allowance(c, b.openedAt, t)
  {
    var k, each := Trials(c, b, ops), 1 + Max(c.maxRequests, 0);
    TrialsArePaidFor(c, b, ops);
    TimesDifference(c.timeout, 0, k);
    TimesDifference(each, 0, k);
    DivisionBound(k, c.timeout, t - b.openedAt);
    ProductMonotone(each, k, (t - b.openedAt) / c.timeout);
  }

  lemma NoneBeforeTimeout(c: Config, since: int, t: int)
    requires c.timeout > 0 && since <= t < since + c.timeout
    ensures Allowance(c, since, t) == 0
  {
    assert (t - since) / c.timeout == 0;
  }

  lemma {:induction false} ClockAdvances(t0: int, ops: seq<Op>)
    requires ClockMonotone(t0, ops)
    ensures t0 <= Clock(t0, ops)
  {
    if ops != [] {
      ClockAdvances(t0, ops[..|ops| - 1]);
    }
  }

  // A failure opens the breaker. While it then stays out of the closed state, nothing is
  // admitted before a timeout has passed, and at most 1 + maxRequests calls for every
  // timeout that has, whatever the outcomes.
  lemma OutageBound(c: Config, b: Breaker, at: int, ops: seq<Op>, t: int)
    requires c.timeout > 0 && b.status != Open && Apply(c, b, Failure(at)).status == Open
    requires StaysDown(c, Apply(c, b, Failure(at)), ops) && ClockMonotone(at, ops) && Clock(at, ops) <= t
    ensures var admitted := Admitted(c, Apply(c, b, Failure(at)), ops);
      && admitted <= (1 + Max(c.maxRequests, 0)) * ((t - at) / c.timeout)
      && (t < at + c.timeout ==> admitted == 0)
  {
    OpensOnlyByFailure(c, b, Failure(at));
    OutageBoundOf(c, Apply(c, b, Failure(at)), ops, t);
    if t < at + c.timeout {
      ClockAdvances(at, ops);
      NoneBeforeTimeout(c, at, t);
    }
  }

  lemma OneMore(c: Config, b: Breaker, ops: seq<Op>, op: Op)
    ensures Run(c, b, ops + [op]) == Apply(c, Run(c, b, ops), op)
    ensures Admitted(c, b, ops + [op]) == Admitted(c, b, ops) +
      (if op.Allow? && Admits(c, Run(c, b, ops), op.now) then 1 else 0)
    ensures StaysDown(c, b, ops + [op]) <==> StaysDown(c, b, ops) && Apply(c, Run(c, b, ops), op).status != Closed
    ensures Clock(b.openedAt, ops + [op]) == if op.Allow? || op.Failure? then op.now else Clock(b.openedAt, ops)
    ensures ClockMonotone(b.openedAt, ops + [op]) <==>
      ClockMonotone(b.openedAt, ops) && Clock(b.openedAt, ops) <= Clock(b.openedAt, ops + [op])
  {
    assert (ops + [op])[..|ops|] == ops;
  }

  // A run that stays down, up to its last clock reading.
  predicate DownUntil(c: Config, b: Breaker, ops: seq<Op>, now: int) {
    StaysDown(c, b, ops) && ClockMonotone(b.openedAt, ops) && Clock(b.openedAt, ops) == now
  }

  // One trial, with every probe it may admit.
  lemma {:induction false} ProbeAll(c: Config, b: Breaker, ops: seq<Op>, now: int, k: nat) returns (probes: seq<Op>)
    requires DownUntil(c, b, ops, now) && k <= Max(c.maxRequests, 0)
    requires Run(c, b, ops).status == HalfOpen && Run(c, b, ops).requests == 0
    ensures DownUntil(c, b, probes, now) && Run(c, b, probes) == Run(c, b, ops).(requests := k)
    ensures Admitted(c, b, probes) == Admitted(c, b, ops) + k
  {
    probes := ops;
    if k > 0 {
      var some := ProbeAll(c, b, ops, now, k - 1);
      OneMore(c, b, some, Allow(now));
      probes := some + [Allow(now)];
    }
  }

  // A trial, cut short by a failure.
  lemma OneTrial(c: Config, b: Breaker, ops: seq<Op>, now: int) returns (trial: seq<Op>)
    requires Run(c, b, ops).status == Open && Run(c, b, ops).openedAt + c.timeout == now && c.timeout > 0
    requires DownUntil(c, b, ops, Run(c, b, ops).openedAt)
    ensures DownUntil(c, b, trial, now) && Run(c, b, trial).status == Open && Run(c, b, trial).openedAt == now
    ensures Admitted(c, b, trial) == Admitted(c, b, ops) + 1 + Max(c.maxRequests, 0)
  {
    OneMore(c, b, ops, Allow(now));
    var probes := ProbeAll(c, b, ops + [Allow(now)], now, Max(c.maxRequests, 0));
    OneMore(c, b, probes, Failure(now));
    trial := probes + [Failure(now)];
  }

  lemma {:induction false} TrialsInARow(c: Config, b: Breaker, k: nat) returns (ops: seq<Op>)
    requires c.timeout > 0 && b.status == Open
    ensures DownUntil(c, b, ops, b.openedAt + Times(c.timeout, k))
    ensures Run(c, b, ops).status == Open && Run(c, b, ops).openedAt == b.openedAt + Times(c.timeout, k)
    ensures Admitted(c, b, ops) == Times(1 + Max(c.maxRequests, 0), k)
  {
    ops := [];
    if k > 0 {
      ops := TrialsInARow(c, b, k - 1);
      ops := OneTrial(c, b, ops, b.openedAt + Times(c.timeout, k));
    }
  }

  // The bound is met: k timeouts can let (1 + maxRequests) * k calls through.
  lemma OutageBoundIsMet(c: Config, b: Breaker, k: nat) returns (ops: seq<Op>)
    requires c.timeout > 0 && b.status == Open
    ensures StaysDown(c, b, ops) && ClockMonotone(b.openedAt, ops)
    ensures Clock(b.openedAt, ops) == b.openedAt + c.timeout * k
    ensures Admitted(c, b, ops) == (1 + Max(c.maxRequests, 0)) * k
  {
    ops := TrialsInARow(c, b, k);
    TimesDifference(c.timeout, 0, k);
    TimesDifference(1 + Max(c.maxRequests, 0), 0, k);
  }

  // ---- concurrent callers ----

  // Execute is two critical sections with the protected call in between. The calls in
  // flight, admitted and not reported yet, are the current ones, admitted since the status
  // last changed (by the change itself, for the first probe), and the earlier ones.
  datatype System = System(b: Breaker, current: nat, earlier: nat, clock: int)

  datatype Step =
    | Call(now: int)
    | Return(current: bool, ok: bool, now: int)
    | ManualReset(now: int)

  const START := System(INITIAL, 0, 0, 0)

  predicate Enabled(s: System, st: Step) {
    s.clock <= st.now && (st.Return? ==> if st.current then s.current > 0 else s.earlier > 0)
  }

  function OpOf(st: Step): Op {
    match st
    case Call(now) => Allow(now)
    case Return(_, ok, now) => if ok then Success else Failure(now)
    case ManualReset(_) => Reset
  }

  // The calls in flight once a report has been taken off.
  function Reported(s: System, st: Step): System
    requires Enabled(s, st)
  {
    if !st.Return? then s
    else if st.current then s.(current := s.current - 1)
    else s.(earlier := s.earlier - 1)
  }

  // A step that is not enabled does nothing.
  function Next(c: Config, s: System, st: Step): System {
    if !Enabled(s, st) then s
    else
      var b, r := Apply(c, s.b, OpOf(st)), Reported(s, st);
      var kept := if b.status == s.b.status then r.current else 0;
      var admitted := if st.Call? && Admits(c, s.b, st.now) then 1 else 0;
      System(b, kept + admitted, r.earlier + r.current - kept, st.now)
  }

  function After(c: Config, s: System, steps: seq<Step>): System {
    if steps == [] then s else Next(c, After(c, s, steps[..|steps| - 1]), steps[|steps| - 1])
  }

  // In a half-open state, every probe of this trial is in flight or was a success.
  ghost predicate Accounted(c: Config, s: System) {
    && Consistent(c, s.b)
    && (s.b.status == HalfOpen ==> 1 + s.b.requests - s.b.successes <= s.current <= 1 + s.b.requests)
  }

  lemma StepKeepsAccounts(c: Config, s: System, st: Step)
    requires Accounted(c, s)
    ensures Accounted(c, Next(c, s, st))
  {
  }

  lemma {:induction false} RunsAreAccounted(c: Config, steps: seq<Step>)
    ensures Accounted(c, After(c, START, steps))
  {
    if steps != [] {
      var s, st := After(c, START, steps[..|steps| - 1]), steps[|steps| - 1];
      RunsAreAccounted(c, steps[..|steps| - 1]);
      StepKeepsAccounts(c, s, st);
    }
  }

  // Half-open, but waiting for nothing: no call is admitted and no probe will report.
  predicate Stuck(c: Config, s: System) {
    s.b.status == HalfOpen && s.b.requests >= c.maxRequests && s.current == 0
  }

  predicate EnoughProbes(c: Config) {
    c.successThreshold <= Max(c.maxRequests, 0) + 1
  }

  lemma HalfOpenProgress(c: Config, steps: seq<Step>)
    requires EnoughProbes(c)
    ensures !Stuck(c, After(c, START, steps))
  {
    RunsAreAccounted(c, steps);
  }

  // No more than 1 + maxRequests probes are ever in flight together.
  lemma ProbesInFlightBound(c: Config, steps: seq<Step>)
    requires After(c, START, steps).b.status == HalfOpen
    ensures After(c, START, steps).current <= 1 + Max(c.maxRequests, 0)
  {
    RunsAreAccounted(c, steps);
  }

  lemma AfterSnoc(c: Config, s: System, steps: seq<Step>, st: Step)
    ensures After(c, s, steps + [st]) == Next(c, After(c, s, steps), st)
  {
    assert (steps + [st])[..|steps|] == steps;
  }

  // Closed, after so many failures in a row.
  function Failing(failures: nat): System {
    System(INITIAL.(failures := failures), 0, 0, 0)
  }

  // Open, with no call in flight.
  function Tripped(c: Config): System {
    System(Breaker(Open, Max(c.failureThreshold, 1), 0, 0, 0), 0, 0, 0)
  }

  // The first trial of a run: so many probes admitted, successful and in flight.
  function Trial(c: Config, requests: nat, successes: nat, flying: nat): System {
    System(Breaker(HalfOpen, Max(c.failureThreshold, 1), successes, requests, 0), flying, 0, Max(c.timeout, 0))
  }

  lemma CallWhenClosed(c: Config, k: nat)
    ensures Next(c, Failing(k), Call(0)) == Failing(k).(current := 1)
  {
  }

  lemma FailedCall(c: Config, k: nat)
    requires k + 1 < Max(c.failureThreshold, 1)
    ensures Next(c, Next(c, Failing(k), Call(0)), Return(true, false, 0)) == Failing(k + 1)
  {
    CallWhenClosed(c, k);
  }

  lemma ReportTrips(c: Config, k: nat)
    requires k + 1 >= c.failureThreshold
    ensures Next(c, Failing(k).(current := 1), Return(true, false, 0)) == System(Breaker(Open, k + 1, 0, 0, 0), 0, 0, 0)
  {
  }

  lemma LastFailedCall(c: Config, k: nat)
    requires k + 1 == Max(c.failureThreshold, 1)
    ensures Next(c, Next(c, Failing(k), Call(0)), Return(true, false, 0)) == Tripped(c)
  {
    CallWhenClosed(c, k);
    ReportTrips(c, k);
  }

  lemma TimeoutOver(c: Config)
    ensures Next(c, Tripped(c), Call(Max(c.timeout, 0))) == Trial(c, 0, 0, 1)
  {
  }

  lemma AdmitProbe(c: Config, requests: nat, flying: nat)
    requires requests < c.maxRequests
    ensures Next(c, Trial(c, requests, 0, flying), Call(Max(c.timeout, 0))) == Trial(c, requests + 1, 0, flying + 1)
  {
  }

  lemma ReportProbe(c: Config, requests: nat, successes: nat, flying: nat)
    requires successes + 1 < c.successThreshold
    ensures Next(c, Trial(c, requests, successes, flying + 1), Return(true, true, Max(c.timeout, 0))) ==
            Trial(c, requests, successes + 1, flying)
  {
  }

  // So many calls that fail, one after the other.
  function FailureSteps(k: nat): seq<Step> {
    if k == 0 then [] else FailureSteps(k - 1) + [Call(0)] + [Return(true, false, 0)]
  }

  lemma FailOnce(c: Config, steps: seq<Step>, k: nat)
    requires After(c, START, steps) == Failing(k)
    ensures After(c, START, steps + [Call(0)] + [Return(true, false, 0)]) ==
      Next(c, Next(c, Failing(k), Call(0)), Return(true, false, 0))
  {
    AfterSnoc(c, START, steps, Call(0));
    AfterSnoc(c, START, steps + [Call(0)], Return(true, false, 0));
  }

  lemma {:induction false} FailInARow(c: Config, k: nat)
    requires k <= Max(c.failureThreshold, 1)
    ensures After(c, START, FailureSteps(k)) == if k < Max(c.failureThreshold, 1) then Failing(k) else Tripped(c)
  {
    if k > 0 {
      FailInARow(c, k - 1);
      FailOnce(c, FailureSteps(k - 1), k - 1);
      if k < Max(c.failureThreshold, 1) {
        FailedCall(c, k - 1);
      } else {
        LastFailedCall(c, k - 1);
      }
    }
  }

  // A trial with k + 1 probes admitted, all of them in flight.
  function FillSteps(c: Config, k: nat): seq<Step> {
    (if k == 0 then FailureSteps(Max(c.failureThreshold, 1)) else FillSteps(c, k - 1)) + [Call(Max(c.timeout, 0))]
  }

  lemma {:induction false} FillProbes(c: Config, k: nat)
    requires k <= Max(c.maxRequests, 0)
    ensures After(c, START, FillSteps(c, k)) == Trial(c, k, 0, k + 1)
  {
    if k == 0 {
      FailInARow(c, Max(c.failureThreshold, 1));
      TimeoutOver(c);
      AfterSnoc(c, START, FailureSteps(Max(c.failureThreshold, 1)), Call(Max(c.timeout, 0)));
    } else {
      FillProbes(c, k - 1);
      AdmitProbe(c, k - 1, k);
      AfterSnoc(c, START, FillSteps(c, k - 1), Call(Max(c.timeout, 0)));
    }
  }

  // All of them in flight at the same time is one more than maxRequests.
  lemma MoreThanMaxRequests(c: Config) returns (steps: seq<Step>)
    requires c.maxRequests >= 0
    ensures After(c, START, steps).b.status == HalfOpen
    ensures After(c, START, steps).current == c.maxRequests + 1
  {
    FillProbes(c, c.maxRequests);
    steps := FillSteps(c, c.maxRequests);
  }

  // A trial with all probes admitted, and k of them back with a success.
  function DrainSteps(c: Config, k: nat): seq<Step> {
    if k == 0 then FillSteps(c, Max(c.maxRequests, 0))
    else DrainSteps(c, k - 1) + [Return(true, true, Max(c.timeout, 0))]
  }

  lemma {:induction false} DrainProbes(c: Config, n: nat, k: nat)
    requires n == Max(c.maxRequests, 0) && !EnoughProbes(c) && k <= n + 1
    ensures After(c, START, DrainSteps(c, k)) == Trial(c, n, k, n + 1 - k)
  {
    if k == 0 {
      FillProbes(c, n);
    } else {
      DrainProbes(c, n, k - 1);
      ReportProbe(c, n, k - 1, n + 1 - k);
      AfterSnoc(c, START, DrainSteps(c, k - 1), Return(true, true, Max(c.timeout, 0)));
    }
  }

  // So a run ends with nothing in flight, and no probe left to admit.
  lemma GetStuck(c: Config) returns (steps: seq<Step>)
    requires !EnoughProbes(c)
    ensures Stuck(c, After(c, START, steps)) && After(c, START, steps).earlier == 0
  {
    var n := Max(c.maxRequests, 0);
    DrainProbes(c, n, n + 1);
    steps := DrainSteps(c, n + 1);
  }

  // Progress is guaranteed in every run exactly when the probes can reach the threshold.
  lemma ProgressIffEnoughProbes(c: Config)
    ensures (forall steps :: !Stuck(c, After(c, START, steps))) <==> EnoughProbes(c)
  {
    if EnoughProbes(c) {
      forall steps: seq<Step>
        ensures !Stuck(c, After(c, START, steps))
      {
        HalfOpenProgress(c, steps);
      }
    } else {
      var steps := GetStuck(c);
      assert Stuck(c, After(c, START, steps));
    }
  }

  // What New sets is enough.
  lemma DefaultsMakeProgress(failureThreshold: int, timeout: int, steps: seq<Step>)
    ensures var c := Config(failureThreshold, 2, timeout, 1); !Stuck(c, After(c, START, steps))
  {
    HalfOpenProgress(Config(failureThreshold, 2, timeout, 1), steps);
  }

  // Without enough probes, some run ends where no caller is let in ever again, unless the
  // breaker is reset by hand.
  lemma LockedOutForever(c: Config) returns (steps: seq<Step>)
    requires !EnoughProbes(c)
    ensures Stuck(c, After(c, START, steps))
    ensures forall more: seq<Step>, now | (forall st | st in more :: !st.ManualReset?) ::
      !Admits(c, After(c, After(c, START, steps), more).b, now)
  {
    steps := GetStuck(c);
    var s := After(c, START, steps);
    forall more: seq<Step>, now | (forall st | st in more :: !st.ManualReset?)
      ensures !Admits(c, After(c, s, more).b, now)
    {
      NothingMoves(c, s, more);
    }
  }

  lemma {:induction false} NothingMoves(c: Config, s: System, more: seq<Step>)
    requires s.b.status == HalfOpen && s.b.requests >= c.maxRequests && s.current == s.earlier == 0
    requires forall st | st in more :: !st.ManualReset?
    ensures After(c, s, more) == s.(clock := After(c, s, more).clock)
  {
    if more != [] {
      NothingMoves(c, s, more[..|more| - 1]);
      assert more[|more| - 1] in more;
    }
  }

  // ---- the breaker itself ----

  datatype Outcome<T> = CircuitOpen | Returned(value: T)

  class CircuitBreaker {
    var config: Config  // set by New, and open to the caller afterwards
    var status: Status
    var failures: int
    var successes: int
    var requests: int
    var openedAt: int

    ghost function View(): Breaker
      reads this
    {
      Breaker(status, failures, successes, requests, openedAt)
    }

    constructor (failureThreshold: int, timeout: int)
      ensures config == Config(failureThreshold, 2, timeout, 1)
      ensures View() == INITIAL
    {
      config := Config(failureThreshold, 2, timeout, 1);
      status, failures, successes, requests, openedAt := Closed, 0, 0, 0, 0;
    }

    method Allow(now: int) returns (ok: bool)
      modifies this
      ensures config == old(config)
      ensures ok <==> Admits(config, old(View()), now)
      ensures View() == Apply(config, old(View()), Op.Allow(now))
    {
      match status {
        case Closed =>
          return true;
        case Open =>
          if now - openedAt >= config.timeout {
            status, successes, requests := HalfOpen, 0, 0;
            return true;
          }
          return false;
        case HalfOpen =>
          if requests < config.maxRequests {
            requests := requests + 1;
            return true;
          }
          return false;
      }
    }

    method Success()
      modifies this
      ensures config == old(config)
      ensures View() == Apply(config, old(View()), Op.Success)
    {
      match status {
        case Closed =>
          failures := 0;
        case HalfOpen =>
          successes := successes + 1;
          if successes >= config.successThreshold {
            status, failures, successes, requests := Closed, 0, 0, 0;
          }
        case Open =>
      }
    }

    method Failure(now: int)
      modifies this
      ensures config == old(config)
      ensures View() == Apply(config, old(View()), Op.Failure(now))
    {
      match status {
        case Closed =>
          failures := failures + 1;
          if failures >= config.failureThreshold {
            status, openedAt := Open, now;
          }
        case HalfOpen =>
          status, openedAt, successes, requests := Open, now, 0, 0;
        case Open =>
      }
    }

    method Reset()
      modifies this
      ensures config == old(config)
      ensures View() == Apply(config, old(View()), Op.Reset)
    {
      status, failures, successes, requests := Closed, 0, 0, 0;
    }

    // What another caller does.
    method Perform(op: Op)
      modifies this
      ensures config == old(config)
      ensures View() == Apply(config, old(View()), op)
    {
      match op {
        case Allow(now) => var _ := Allow(now);
        case Success => Success();
        case Failure(now) => Failure(now);
        case Reset => Reset();
      }
    }

    // The protected call, from now to done: others holds what other callers do to the
    // breaker meanwhile.
    method Execute(now: int, others: seq<Op>, ok: bool, done: int) returns (r: Outcome<bool>)
      modifies this
      ensures config == old(config)
      ensures r == if Admits(config, old(View()), now) then Returned(ok) else CircuitOpen
      ensures View() == Run(config, old(View()),
        if r.CircuitOpen? then [Op.Allow(now)]
        else [Op.Allow(now)] + others + [if ok then Op.Success else Op.Failure(done)])
    {
      ghost var ops := [Op.Allow(now)];
      assert ops[..0] == [];
      var allowed := Allow(now);
      if !allowed {
        return CircuitOpen;
      }
      for i := 0 to |others|
        invariant config == old(config)
        invariant View() == Run(config, old(View()), ops + others[..i])
      {
        Perform(others[i]);
        assert (ops + others[..i + 1])[..1 + i] == ops + others[..i];
      }
      assert ops + others[..|others|] == ops + others;
      assert (ops + others + [if ok then Op.Success else Op.Failure(done)])[..|ops + others|] == ops + others;
      if ok {
        Success();
      } else {
        Failure(done);
      }
      r := Returned(ok);
    }
  }
}
