// grpcserver/server.go, Execute: the policy components in a row. First as the atomic steps
// that concurrent calls interleave, then as the handler that takes them one after another.
module GrpcServing {
  import opened Arithmetic
  import opened History
  import opened Numbers
  import opened Options
  import TB = TokenBucketLimiter
  import QT = QuotaTracker
  import CB = CircuitBreaking
  import RT = Routing
  import TM = Telemetry
  import AZ = Authorization

  // How far a call has come.
  datatype Stage =
    | LimiterRefused
    | PastLimiter
    | QuotaRefused
    | PastQuota
    | Unrouted
    | PastRouting
    | Blocked                    // by the breaker, and not recorded yet
    | Forwarding
    | Answered(ok: bool)         // forwarded, reported to the breaker, and not recorded yet
    | Recorded(forwarded: bool, success: bool)

  datatype Call = Call(tenant: string, engine: string, at: int, stage: Stage) {
    function Key(): string {
      KeyOf(tenant, engine)
    }

    predicate PassedLimiter() {
      !stage.LimiterRefused?
    }

    predicate PassedQuota() {
      PassedLimiter() && !stage.PastLimiter? && !stage.QuotaRefused?
    }

    predicate ReachedBreaker() {
      stage.Blocked? || stage.Forwarding? || stage.Answered? || stage.Recorded?
    }

    predicate WasForwarded() {
      stage.Forwarding? || stage.Answered? || (stage.Recorded? && stage.forwarded)
    }
  }

  function KeyOf(tenant: string, engine: string): string {
    tenant + ":" + engine
  }

  datatype Config = Config(bucket: TB.Config, breaker: CB.Config)

  datatype Gateway =
    Gateway(buckets: TB.Store, quotas: QT.Book, breaker: CB.Breaker, report: TM.Report, calls: seq<Call>)

  // Every step is one critical section of one component.
  datatype Step =
    | Arrive(tenant: string, engine: string, created: int, now: int)
    | Charge(id: nat)
    | Route(id: nat, found: bool)
    | Admit(id: nat, now: int)
    | Answer(id: nat, ok: bool, now: int)
    | Note(id: nat, success: bool, latency: int)
    | SetLimit(tenant: string, resource: string, limit: int)
    | ResetQuota(tenant: string)
    | ResetBreaker

  predicate Enabled(g: Gateway, st: Step) {
    match st
    case Charge(id) => id < |g.calls| && g.calls[id].stage.PastLimiter?
    case Route(id, _) => id < |g.calls| && g.calls[id].stage.PastQuota?
    case Admit(id, _) => id < |g.calls| && g.calls[id].stage.PastRouting?
    case Answer(id, _, _) => id < |g.calls| && g.calls[id].stage.Forwarding?
    // only an answered call can be a success
    case Note(id, success, _) =>
      id < |g.calls| && (
        || (g.calls[id].stage.Blocked? && !success)
        || (g.calls[id].stage.Answered? && (success ==> g.calls[id].stage.ok)))
    case _ => true
  }

  // What a step asks of each component.
  function BucketEvent(st: Step): TB.Event
    requires st.Arrive?
  {
    TB.AllowN(KeyOf(st.tenant, st.engine), 1, st.created, st.now)
  }

  function QuotaEvents(g: Gateway, st: Step): seq<QT.Event>
    requires Enabled(g, st)
  {
    match st
    case Charge(id) => if g.calls[id].tenant != "" then [QT.Consume(g.calls[id].tenant, "requests", 1)] else []
    case SetLimit(tenant, resource, limit) => [QT.SetLimit(tenant, resource, limit)]
    case ResetQuota(tenant) => [QT.Reset(tenant)]
    case _ => []
  }

  function BreakerOps(st: Step): seq<CB.Op> {
    match st
    case Admit(_, now) => [CB.Allow(now)]
    case Answer(_, ok, now) => [if ok then CB.Success else CB.Failure(now)]
    case ResetBreaker => [CB.Reset]
    case _ => []
  }

  function Records(g: Gateway, st: Step): seq<TM.Record>
    requires Enabled(g, st)
  {
    if st.Note? then [TM.Record(g.calls[st.id].engine, st.success, st.latency)] else []
  }

  function Outcome(c: Config, g: Gateway, st: Step): Stage
    requires Enabled(g, st) && (st.Charge? || st.Route? || st.Admit? || st.Answer? || st.Note?)
  {
    match st
    case Charge(id) =>
      if g.calls[id].tenant == "" || QT.Accepts(g.quotas, g.calls[id].tenant, "requests", 1) then PastQuota
      else QuotaRefused
    case Route(_, found) => if found then PastRouting else Unrouted
    case Admit(_, now) => if CB.Admits(c.breaker, g.breaker, now) then Forwarding else Blocked
    case Answer(_, ok, _) => Answered(ok)
    case Note(id, success, _) => Recorded(g.calls[id].stage.Answered?, success)
  }

  function Moved(calls: seq<Call>, id: nat, stage: Stage): seq<Call>
    requires id < |calls|
  {
    calls[id := calls[id].(stage := stage)]
  }

  function NextCalls(c: Config, g: Gateway, st: Step): seq<Call>
    requires Enabled(g, st)
  {
    if st.Arrive? then
      g.calls + [Call(st.tenant, st.engine, st.now,
                      if TB.Decide(c.bucket, g.buckets, BucketEvent(st)) then PastLimiter else LimiterRefused)]
    else if st.SetLimit? || st.ResetQuota? || st.ResetBreaker? then g.calls
    else Moved(g.calls, st.id, Outcome(c, g, st))
  }

  // A step that is not enabled does nothing.
  function Next(c: Config, g: Gateway, st: Step): Gateway {
    if !Enabled(g, st) then g
    else
      var q, o, r := QuotaEvents(g, st), BreakerOps(st), Records(g, st);
      Gateway(
        if st.Arrive? then TB.Apply(c.bucket, g.buckets, BucketEvent(st)) else g.buckets,
        if q == [] then g.quotas else QT.Apply(g.quotas, q[0]),
        if o == [] then g.breaker else CB.Apply(c.breaker, g.breaker, o[0]),
        if r == [] then g.report else TM.Apply(g.report, r[0]),
        NextCalls(c, g, st))
  }

  // ---- whole runs ----

  function After(c: Config, g: Gateway, steps: seq<Step>): Gateway {
    if steps == [] then g else Next(c, After(c, g, steps[..|steps| - 1]), steps[|steps| - 1])
  }

  function Start(quotas: QT.Book): Gateway {
    Gateway(map[], quotas, CB.INITIAL, TM.EMPTY, [])
  }

  // What the components have been asked in a run.

  function AllBucketEvents(steps: seq<Step>): seq<TB.Event> {
    if steps == [] then []
    else
      var st := steps[|steps| - 1];
      if st.Arrive? then AllBucketEvents(steps[..|steps| - 1]) + [BucketEvent(st)]
      else AllBucketEvents(steps[..|steps| - 1])
  }

  function AllQuotaEvents(c: Config, g: Gateway, steps: seq<Step>): seq<QT.Event> {
    if steps == [] then []
    else
      var before, st := steps[..|steps| - 1], steps[|steps| - 1];
      var g' := After(c, g, before);
      AllQuotaEvents(c, g, before) + (if Enabled(g', st) then QuotaEvents(g', st) else [])
  }

  function AllBreakerOps(c: Config, g: Gateway, steps: seq<Step>): seq<CB.Op> {
    if steps == [] then []
    else
      var before, st := steps[..|steps| - 1], steps[|steps| - 1];
      AllBreakerOps(c, g, before) + (if Enabled(After(c, g, before), st) then BreakerOps(st) else [])
  }

  // How many calls have passed the quota without being charged, for want of a tenant.
  function Exempt(c: Config, g: Gateway, steps: seq<Step>): nat {
    if steps == [] then 0
    else
      var before, st := steps[..|steps| - 1], steps[|steps| - 1];
      var g' := After(c, g, before);
      Exempt(c, g, before) + One(st.Charge? && Enabled(g', st) && g'.calls[st.id].tenant == "")
  }

  // ---- counting calls ----

  function Count(calls: seq<Call>, p: Call -> bool): nat {
    if calls == [] then 0 else Count(calls[..|calls| - 1], p) + One(p(calls[|calls| - 1]))
  }

  lemma CountSnoc(calls: seq<Call>, call: Call, p: Call -> bool)
    ensures Count(calls + [call], p) == Count(calls, p) + One(p(call))
  {
    assert (calls + [call])[..|calls|] == calls;
  }

  lemma {:induction false} CountUpdate(calls: seq<Call>, i: nat, call: Call, p: Call -> bool)
    requires i < |calls|
    ensures Count(calls[i := call], p) == Count(calls, p) - One(p(calls[i])) + One(p(call))
  {
    var n := |calls| - 1;
    if i == n {
      assert calls[i := call][..n] == calls[..n];
    } else {
      assert calls[i := call][..n] == calls[..n][i := call];
      CountUpdate(calls[..n], i, call, p);
    }
  }

  lemma {:induction false} CountMonotone(calls: seq<Call>, p: Call -> bool, q: Call -> bool)
    requires forall call :: p(call) ==> q(call)
    ensures Count(calls, p) <= Count(calls, q)
  {
    if calls != [] {
      CountMonotone(calls[..|calls| - 1], p, q);
    }
  }

  lemma {:induction false} CountSplits(calls: seq<Call>, p: Call -> bool, q: Call -> bool, both: Call -> bool)
    requires forall call :: both(call) <==> p(call) || q(call)
    requires forall call :: !(p(call) && q(call))
    ensures Count(calls, both) == Count(calls, p) + Count(calls, q)
  {
    if calls != [] {
      CountSplits(calls[..|calls| - 1], p, q, both);
    }
  }

  lemma {:induction false} CountSame(calls: seq<Call>, p: Call -> bool, q: Call -> bool)
    requires forall call | call in calls :: p(call) <==> q(call)
    ensures Count(calls, p) == Count(calls, q)
  {
    if calls != [] {
      assert calls[|calls| - 1] in calls;
      CountSame(calls[..|calls| - 1], p, q);
    }
  }

  lemma {:induction false} CountFinds(calls: seq<Call>, p: Call -> bool)
    requires Count(calls, p) > 0
    ensures exists i :: 0 <= i < |calls| && p(calls[i])
  {
    var n := |calls| - 1;
    if !p(calls[n]) {
      CountFinds(calls[..n], p);
      var i :| 0 <= i < n && p(calls[..n][i]);
      assert p(calls[i]);
    }
  }

  // Passed the limiter on a key at an instant in [from, to].
  function GrantedIn(key: string, from: int, to: int): Call -> bool {
    (call: Call) => call.PassedLimiter() && call.Key() == key && from <= call.at <= to
  }

  function ForwardedIn(key: string, from: int, to: int): Call -> bool {
    (call: Call) => call.WasForwarded() && call.Key() == key && from <= call.at <= to
  }

  function ChargedTo(tenant: string): Call -> bool {
    (call: Call) => call.PassedQuota() && call.tenant == tenant
  }

  function ForwardedFor(tenant: string): Call -> bool {
    (call: Call) => call.WasForwarded() && call.tenant == tenant
  }

  // Charged, and not forwarded or given up yet.
  function PendingFor(tenant: string): Call -> bool {
    (call: Call) => (call.stage.PastQuota? || call.stage.PastRouting?) && call.tenant == tenant
  }

  function OnCourseFor(tenant: string): Call -> bool {
    (call: Call) =>
      (call.stage.PastQuota? || call.stage.PastRouting? || call.WasForwarded()) && call.tenant == tenant
  }

  function RecordedOn(engine: string): Call -> bool {
    (call: Call) => call.stage.Recorded? && call.engine == engine
  }

  function SucceededOn(engine: string): Call -> bool {
    (call: Call) => call.stage.Recorded? && call.stage.success && call.engine == engine
  }

  function FailedOn(engine: string): Call -> bool {
    (call: Call) => call.stage.Recorded? && !call.stage.success && call.engine == engine
  }

  function ReachedBreakerOn(engine: string): Call -> bool {
    (call: Call) => call.ReachedBreaker() && call.engine == engine
  }

  const LIMITER_PASSED: Call -> bool := (call: Call) => call.PassedLimiter()
  const QUOTA_PASSED: Call -> bool := (call: Call) => call.PassedQuota()
  const BREAKER_REACHED: Call -> bool := (call: Call) => call.ReachedBreaker()
  const FORWARDED: Call -> bool := (call: Call) => call.WasForwarded()
  const IN_FLIGHT: Call -> bool := (call: Call) => call.stage.Forwarding?
  const RECORDED: Call -> bool := (call: Call) => call.stage.Recorded?

  predicate Moves(st: Step) {
    st.Charge? || st.Route? || st.Admit? || st.Answer? || st.Note?
  }

  function One(b: bool): nat {
    if b then 1 else 0
  }

  lemma CountArrival(c: Config, g: Gateway, st: Step, p: Call -> bool)
    requires st.Arrive?
    ensures |NextCalls(c, g, st)| == |g.calls| + 1
    ensures Count(NextCalls(c, g, st), p) == Count(g.calls, p) + One(p(NextCalls(c, g, st)[|g.calls|]))
  {
    var calls := NextCalls(c, g, st);
    CountSnoc(g.calls, calls[|g.calls|], p);
    assert calls == g.calls + [calls[|g.calls|]];
  }

  lemma CountMove(c: Config, g: Gateway, st: Step, p: Call -> bool)
    requires Moves(st) && Enabled(g, st)
    ensures |NextCalls(c, g, st)| == |g.calls|
    ensures Count(NextCalls(c, g, st), p) ==
      Count(g.calls, p) - One(p(g.calls[st.id])) + One(p(NextCalls(c, g, st)[st.id]))
  {
    CountUpdate(g.calls, st.id, NextCalls(c, g, st)[st.id], p);
  }

  // ---- the ledgers: what the calls show is what the components did ----

  ghost predicate LimiterAgrees(c: Config, g: Gateway, evs: seq<TB.Event>, key: string, from: int, to: int) {
    && g.buckets == TB.Run(c.bucket, evs)
    && Count(g.calls, GrantedIn(key, from, to)) == GrantedWithin(TB.Grants(c.bucket, evs, key), from, to)
  }

  lemma LimiterStep(c: Config, g: Gateway, st: Step, evs: seq<TB.Event>, key: string, from: int, to: int)
    requires LimiterAgrees(c, g, evs, key, from, to)
    ensures LimiterAgrees(c, Next(c, g, st), if st.Arrive? then evs + [BucketEvent(st)] else evs, key, from, to)
  {
    if st.Arrive? {
      LimiterArrival(c, g, st, evs, key, from, to);
    } else if Enabled(g, st) && Moves(st) {
      CountMove(c, g, st, GrantedIn(key, from, to));
    }
  }

  lemma LimiterArrival(c: Config, g: Gateway, st: Step, evs: seq<TB.Event>, key: string, from: int, to: int)
    requires st.Arrive? && LimiterAgrees(c, g, evs, key, from, to)
    ensures TB.Apply(c.bucket, g.buckets, BucketEvent(st)) == TB.Run(c.bucket, evs + [BucketEvent(st)])
    ensures Count(NextCalls(c, g, st), GrantedIn(key, from, to)) ==
      GrantedWithin(TB.Grants(c.bucket, evs + [BucketEvent(st)], key), from, to)
  {
    var e := BucketEvent(st);
    assert (evs + [e])[..|evs|] == evs;
    TB.GrantsSnoc(c.bucket, evs, e, key);
    WithinSnoc(TB.Grants(c.bucket, evs, key), Grant(st.now, 1), from, to);
    CountArrival(c, g, st, GrantedIn(key, from, to));
  }

  lemma {:induction false} LimiterLedger(c: Config, quotas: QT.Book, steps: seq<Step>, key: string, from: int, to: int)
    ensures LimiterAgrees(c, After(c, Start(quotas), steps), AllBucketEvents(steps), key, from, to)
  {
    if steps != [] {
      var before, st := steps[..|steps| - 1], steps[|steps| - 1];
      LimiterLedger(c, quotas, before, key, from, to);
      LimiterStep(c, After(c, Start(quotas), before), st, AllBucketEvents(before), key, from, to);
    }
  }

  // The calls past the limiter, on all keys, are exactly its grants.
  lemma {:induction false} LimiterTotal(c: Config, quotas: QT.Book, steps: seq<Step>)
    ensures After(c, Start(quotas), steps).buckets == TB.Run(c.bucket, AllBucketEvents(steps))
    ensures Count(After(c, Start(quotas), steps).calls, LIMITER_PASSED) ==
      TB.GrantCount(c.bucket, AllBucketEvents(steps))
  {
    if steps != [] {
      var before, st := steps[..|steps| - 1], steps[|steps| - 1];
      LimiterTotal(c, quotas, before);
      PassedDelta(c, After(c, Start(quotas), before), st, AllBucketEvents(before));
    }
  }

  lemma PassedDelta(c: Config, g: Gateway, st: Step, evs: seq<TB.Event>)
    requires g.buckets == TB.Run(c.bucket, evs)
    ensures var evs' := if st.Arrive? then evs + [BucketEvent(st)] else evs;
      && Next(c, g, st).buckets == TB.Run(c.bucket, evs')
      && Count(Next(c, g, st).calls, LIMITER_PASSED) - Count(g.calls, LIMITER_PASSED) ==
           TB.GrantCount(c.bucket, evs') - TB.GrantCount(c.bucket, evs)
  {
    if st.Arrive? {
      assert (evs + [BucketEvent(st)])[..|evs|] == evs;
      CountArrival(c, g, st, LIMITER_PASSED);
    } else if Enabled(g, st) && Moves(st) {
      CountMove(c, g, st, LIMITER_PASSED);
    }
  }

  // Calls forwarded on a key obey the bound of its bucket, by the instant they were granted.
  lemma ForwardsObeyBucket(c: Config, quotas: QT.Book, steps: seq<Step>, key: string, from: int, to: int)
    requires c.bucket.rate >= 0.0 && c.bucket.capacity >= 0 && from <= to && TB.ClockMonotone(AllBucketEvents(steps))
    ensures Count(After(c, Start(quotas), steps).calls, ForwardedIn(key, from, to)) as real <=
      c.bucket.capacity as real + TB.Accrued(c.bucket, from, to)
  {
    LimiterLedger(c, quotas, steps, key, from, to);
    TB.IntervalOnKey(c.bucket, AllBucketEvents(steps), key, from, to);
    CountMonotone(After(c, Start(quotas), steps).calls, ForwardedIn(key, from, to), GrantedIn(key, from, to));
  }

  // The charges since g0 are the amounts consumed since then.
  ghost predicate QuotaAgrees(g0: Gateway, g: Gateway, evs: seq<QT.Event>, tenant: string) {
    && g.quotas == QT.Run(g0.quotas, evs)
    && Count(g.calls, ChargedTo(tenant)) ==
         Count(g0.calls, ChargedTo(tenant)) + QT.Consumed(g0.quotas, evs, tenant, "requests")
  }

  // Only a charge can bring a call past the quota, and nothing brings it back.
  lemma ChargedDelta(c: Config, g: Gateway, st: Step, tenant: string)
    requires tenant != "" && Enabled(g, st)
    ensures Count(NextCalls(c, g, st), ChargedTo(tenant)) == Count(g.calls, ChargedTo(tenant)) +
      One(st.Charge? && g.calls[st.id].tenant == tenant && QT.Accepts(g.quotas, tenant, "requests", 1))
  {
    if st.Arrive? {
      CountArrival(c, g, st, ChargedTo(tenant));
    } else if Moves(st) {
      CountMove(c, g, st, ChargedTo(tenant));
    }
  }

  lemma ConsumedDelta(quotas: QT.Book, evs: seq<QT.Event>, q: seq<QT.Event>, tenant: string)
    requires |q| <= 1
    ensures QT.Run(quotas, evs + q) == if q == [] then QT.Run(quotas, evs) else QT.Apply(QT.Run(quotas, evs), q[0])
    ensures QT.Consumed(quotas, evs + q, tenant, "requests") == QT.Consumed(quotas, evs, tenant, "requests") +
      if q != [] && q[0].Consume? && q[0].tenant == tenant && q[0].resource == "requests" &&
         QT.Accepts(QT.Run(quotas, evs), tenant, "requests", q[0].amount)
      then q[0].amount else 0
  {
    if q == [] {
      assert evs + q == evs;
    } else {
      assert evs + q == evs + [q[0]] && (evs + [q[0]])[..|evs|] == evs;
    }
  }

  lemma QuotaStep(c: Config, g0: Gateway, g: Gateway, st: Step, evs: seq<QT.Event>, tenant: string)
    requires tenant != "" && Enabled(g, st) && QuotaAgrees(g0, g, evs, tenant)
    ensures QuotaAgrees(g0, Next(c, g, st), evs + QuotaEvents(g, st), tenant)
  {
    var q := QuotaEvents(g, st);
    ChargedDelta(c, g, st, tenant);
    ConsumedDelta(g0.quotas, evs, q, tenant);
    assert Next(c, g, st).quotas == QT.Run(g0.quotas, evs + q);
    if st.Charge? && g.calls[st.id].tenant == tenant {
      assert q == [QT.Consume(tenant, "requests", 1)];
    } else {
      assert q == [] || !q[0].Consume? || q[0].tenant != tenant;
    }
  }

  lemma {:induction false} QuotaLedger(c: Config, g0: Gateway, steps: seq<Step>, tenant: string)
    requires tenant != ""
    ensures QuotaAgrees(g0, After(c, g0, steps), AllQuotaEvents(c, g0, steps), tenant)
  {
    if steps != [] {
      var before, st := steps[..|steps| - 1], steps[|steps| - 1];
      var g, evs := After(c, g0, before), AllQuotaEvents(c, g0, before);
      QuotaLedger(c, g0, before, tenant);
      if Enabled(g, st) {
        QuotaStep(c, g0, g, st, evs, tenant);
      } else {
        assert evs + [] == evs;
      }
    }
  }

  // The tenant is not reset and its limit on requests stays.
  predicate Undisturbed(steps: seq<Step>, tenant: string) {
    forall st | st in steps ::
      && (st.ResetQuota? ==> st.tenant != tenant)
      && (st.SetLimit? ==> !(st.tenant == tenant && st.resource == "requests"))
  }

  lemma {:induction false} EventsAreQuiet(c: Config, g0: Gateway, steps: seq<Step>, tenant: string, limit: int)
    requires limit < MAX_INT64 && Undisturbed(steps, tenant)
    ensures forall e | e in AllQuotaEvents(c, g0, steps) :: QT.Quiet(e, tenant, "requests", limit)
  {
    if steps != [] {
      assert steps[|steps| - 1] in steps;
      EventsAreQuiet(c, g0, steps[..|steps| - 1], tenant, limit);
    }
  }

  // A call gets on course for a forward only by being charged.
  lemma OnCourseDelta(c: Config, g: Gateway, st: Step, tenant: string)
    requires tenant != "" && Enabled(g, st)
    ensures Count(NextCalls(c, g, st), OnCourseFor(tenant)) <= Count(g.calls, OnCourseFor(tenant)) +
      One(st.Charge? && g.calls[st.id].tenant == tenant && QT.Accepts(g.quotas, tenant, "requests", 1))
  {
    if st.Arrive? {
      CountArrival(c, g, st, OnCourseFor(tenant));
    } else if Moves(st) {
      CountMove(c, g, st, OnCourseFor(tenant));
    }
  }

  lemma {:induction false} OnCourseLedger(c: Config, g0: Gateway, steps: seq<Step>, tenant: string)
    requires tenant != ""
    ensures Count(After(c, g0, steps).calls, OnCourseFor(tenant)) <= Count(g0.calls, OnCourseFor(tenant)) +
      QT.Consumed(g0.quotas, AllQuotaEvents(c, g0, steps), tenant, "requests")
  {
    if steps != [] {
      var before, st := steps[..|steps| - 1], steps[|steps| - 1];
      var g, evs := After(c, g0, before), AllQuotaEvents(c, g0, before);
      OnCourseLedger(c, g0, before, tenant);
      QuotaLedger(c, g0, before, tenant);
      if Enabled(g, st) {
        OnCourseDelta(c, g, st, tenant);
        ConsumedDelta(g0.quotas, evs, QuotaEvents(g, st), tenant);
      } else {
        assert evs + [] == evs;
      }
    }
  }

  // Between resets, the calls of a tenant that get forwarded are no more than what its fixed
  // limit leaves, apart from those already charged and still pending. (A limit of MAX_INT64
  // is no limit: usage would wrap around.)
  lemma ForwardsObeyQuota(c: Config, g0: Gateway, steps: seq<Step>, tenant: string, limit: int)
    requires tenant != "" && limit < MAX_INT64 && Undisturbed(steps, tenant)
    requires QT.Limit(g0.quotas, tenant, "requests") == Some(limit)
    requires 0 <= QT.Usage(g0.quotas, tenant, "requests") <= limit
    ensures Count(After(c, g0, steps).calls, ForwardedFor(tenant)) - Count(g0.calls, ForwardedFor(tenant)) <=
      Count(g0.calls, PendingFor(tenant)) + limit - QT.Usage(g0.quotas, tenant, "requests")
  {
    var evs := AllQuotaEvents(c, g0, steps);
    OnCourseLedger(c, g0, steps, tenant);
    EventsAreQuiet(c, g0, steps, tenant, limit);
    QT.LimitHolds(g0.quotas, evs, tenant, "requests", limit);
    CountMonotone(After(c, g0, steps).calls, ForwardedFor(tenant), OnCourseFor(tenant));
    CountSplits(g0.calls, ForwardedFor(tenant), PendingFor(tenant), OnCourseFor(tenant));
  }

  // The calls past the quota, of all tenants, are exactly the charges that it accepts and
  // those that it is not asked for.
  ghost predicate QuotaTotals(c: Config, quotas: QT.Book, steps: seq<Step>) {
    var g, evs := After(c, Start(quotas), steps), AllQuotaEvents(c, Start(quotas), steps);
    && g.quotas == QT.Run(quotas, evs)
    && Count(g.calls, QUOTA_PASSED) == QT.AcceptCount(quotas, evs) + Exempt(c, Start(quotas), steps)
  }

  lemma {:induction false} QuotaTotal(c: Config, quotas: QT.Book, steps: seq<Step>)
    ensures QuotaTotals(c, quotas, steps)
  {
    if steps != [] {
      var before, st := steps[..|steps| - 1], steps[|steps| - 1];
      var g, evs := After(c, Start(quotas), before), AllQuotaEvents(c, Start(quotas), before);
      QuotaTotal(c, quotas, before);
      if Enabled(g, st) {
        QuotaPassedDelta(c, g, st);
        AcceptedDelta(quotas, evs, QuotaEvents(g, st));
      } else {
        assert evs + [] == evs;
      }
    }
  }

  lemma QuotaPassedDelta(c: Config, g: Gateway, st: Step)
    requires Enabled(g, st)
    ensures Count(NextCalls(c, g, st), QUOTA_PASSED) == Count(g.calls, QUOTA_PASSED) +
      One(st.Charge? && (g.calls[st.id].tenant == "" || QT.Accepts(g.quotas, g.calls[st.id].tenant, "requests", 1)))
  {
    if st.Arrive? {
      CountArrival(c, g, st, QUOTA_PASSED);
    } else if Moves(st) {
      CountMove(c, g, st, QUOTA_PASSED);
    }
  }

  lemma AcceptedDelta(quotas: QT.Book, evs: seq<QT.Event>, q: seq<QT.Event>)
    requires |q| <= 1
    ensures QT.Run(quotas, evs + q) == if q == [] then QT.Run(quotas, evs) else QT.Apply(QT.Run(quotas, evs), q[0])
    ensures QT.AcceptCount(quotas, evs + q) == QT.AcceptCount(quotas, evs) +
      One(q != [] && q[0].Consume? && QT.Accepts(QT.Run(quotas, evs), q[0].tenant, q[0].resource, q[0].amount))
  {
    if q == [] {
      assert evs + q == evs;
    } else {
      assert evs + q == evs + [q[0]] && (evs + [q[0]])[..|evs|] == evs;
    }
  }

  // The forwards since g0 are exactly the admissions of the breaker since then.
  ghost predicate BreakerAgrees(c: Config, g0: Gateway, g: Gateway, ops: seq<CB.Op>) {
    && g.breaker == CB.Run(c.breaker, g0.breaker, ops)
    && Count(g.calls, FORWARDED) == Count(g0.calls, FORWARDED) + CB.Admitted(c.breaker, g0.breaker, ops)
  }

  // Only an admission starts a forward, and nothing takes it back.
  lemma ForwardedDelta(c: Config, g: Gateway, st: Step)
    requires Enabled(g, st)
    ensures Count(NextCalls(c, g, st), FORWARDED) == Count(g.calls, FORWARDED) +
      One(st.Admit? && CB.Admits(c.breaker, g.breaker, st.now))
  {
    if st.Arrive? {
      CountArrival(c, g, st, FORWARDED);
    } else if Moves(st) {
      CountMove(c, g, st, FORWARDED);
    }
  }

  lemma AdmittedDelta(c: CB.Config, b: CB.Breaker, ops: seq<CB.Op>, o: seq<CB.Op>)
    requires |o| <= 1
    ensures CB.Run(c, b, ops + o) == if o == [] then CB.Run(c, b, ops) else CB.Apply(c, CB.Run(c, b, ops), o[0])
    ensures CB.Admitted(c, b, ops + o) == CB.Admitted(c, b, ops) +
      One(o != [] && o[0].Allow? && CB.Admits(c, CB.Run(c, b, ops), o[0].now))
  {
    if o == [] {
      assert ops + o == ops;
    } else {
      assert ops + o == ops + [o[0]] && (ops + [o[0]])[..|ops|] == ops;
    }
  }

  lemma BreakerStep(c: Config, g0: Gateway, g: Gateway, st: Step, ops: seq<CB.Op>)
    requires Enabled(g, st) && BreakerAgrees(c, g0, g, ops)
    ensures BreakerAgrees(c, g0, Next(c, g, st), ops + BreakerOps(st))
  {
    ForwardedDelta(c, g, st);
    AdmittedDelta(c.breaker, g0.breaker, ops, BreakerOps(st));
  }

  lemma {:induction false} BreakerLedger(c: Config, g0: Gateway, steps: seq<Step>)
    ensures BreakerAgrees(c, g0, After(c, g0, steps), AllBreakerOps(c, g0, steps))
  {
    if steps != [] {
      var before, st := steps[..|steps| - 1], steps[|steps| - 1];
      var g, ops := After(c, g0, before), AllBreakerOps(c, g0, before);
      BreakerLedger(c, g0, before);
      if Enabled(g, st) {
        BreakerStep(c, g0, g, st, ops);
      } else {
        assert ops + [] == ops;
      }
    }
  }

  lemma {:induction false} ForwardsAreAdmissions(c: Config, g0: Gateway, steps: seq<Step>)
    ensures Count(After(c, g0, steps).calls, FORWARDED) - Count(g0.calls, FORWARDED) ==
      CB.Admitted(c.breaker, g0.breaker, AllBreakerOps(c, g0, steps))
  {
    BreakerLedger(c, g0, steps);
  }

  // Only the report of a failed forward opens the breaker, and dates it.
  lemma OnlyFailedForwardsOpen(c: Config, g: Gateway, st: Step)
    requires g.breaker.status != CB.Open && Next(c, g, st).breaker.status == CB.Open
    ensures Enabled(g, st) && st.Answer? && !st.ok && Next(c, g, st).breaker.openedAt == st.now
  {
  }

  // Once a failed forward has opened the breaker, and while it stays out of the closed
  // state, nothing is forwarded before a timeout has passed, and no more than 1 +
  // maxRequests calls for every timeout that has.
  lemma {:induction false} ForwardsDuringOutage(c: Config, g: Gateway, id: nat, at: int, steps: seq<Step>, t: int)
    requires c.breaker.timeout > 0 && Enabled(g, Answer(id, false, at)) && g.breaker.status != CB.Open
    requires var g0 := Next(c, g, Answer(id, false, at)); var ops := AllBreakerOps(c, g0, steps);
      && g0.breaker.status == CB.Open && CB.StaysDown(c.breaker, g0.breaker, ops)
      && CB.ClockMonotone(at, ops) && CB.Clock(at, ops) <= t
    ensures var g0 := Next(c, g, Answer(id, false, at));
      var forwards := Count(After(c, g0, steps).calls, FORWARDED) - Count(g0.calls, FORWARDED);
      && forwards <= (1 + Max(c.breaker.maxRequests, 0)) * ((t - at) / c.breaker.timeout)
      && (t < at + c.breaker.timeout ==> forwards <= 0)
  {
    var g0 := Next(c, g, Answer(id, false, at));
    CB.OutageBound(c.breaker, g.breaker, at, AllBreakerOps(c, g0, steps), t);
    ForwardsAreAdmissions(c, g0, steps);
  }

  // ---- progress ----

  // The calls in flight cover the probes that the breaker waits for.
  ghost predicate Awaits(c: Config, g: Gateway, current: nat) {
    && current <= Count(g.calls, IN_FLIGHT)
    && CB.Accounted(c.breaker, CB.System(g.breaker, current, Count(g.calls, IN_FLIGHT) - current, 0))
  }

  lemma FlightDelta(c: Config, g: Gateway, st: Step)
    requires Enabled(g, st)
    ensures Count(NextCalls(c, g, st), IN_FLIGHT) == Count(g.calls, IN_FLIGHT) +
      One(st.Admit? && CB.Admits(c.breaker, g.breaker, st.now)) - One(st.Answer?)
  {
    if st.Arrive? {
      CountArrival(c, g, st, IN_FLIGHT);
    } else if Moves(st) {
      CountMove(c, g, st, IN_FLIGHT);
    }
  }

  // What the step is to the breaker and the calls in flight. Whether a report is of a
  // current or of an earlier probe makes no difference to the breaker.
  function FlightStep(st: Step, current: nat): CB.Step
    requires st.Admit? || st.Answer? || st.ResetBreaker?
  {
    match st
    case Admit(_, now) => CB.Call(now)
    case Answer(_, ok, now) => CB.Return(current > 0, ok, now)
    case ResetBreaker => CB.ManualReset(0)
  }

  lemma AwaitsStep(c: Config, g: Gateway, st: Step, current: nat) returns (current': nat)
    requires Enabled(g, st) && Awaits(c, g, current)
    ensures Awaits(c, Next(c, g, st), current')
  {
    FlightDelta(c, g, st);
    current' := current;
    if st.Admit? || st.Answer? || st.ResetBreaker? {
      var fs := FlightStep(st, current);
      var s := CB.System(g.breaker, current, Count(g.calls, IN_FLIGHT) - current, fs.now);
      if st.Answer? {
        CountAtLeast(g.calls, st.id, IN_FLIGHT);
      }
      CB.StepKeepsAccounts(c.breaker, s, fs);
      assert CB.Enabled(s, fs) && CB.Next(c.breaker, s, fs).b == Next(c, g, st).breaker;
      current' := CB.Next(c.breaker, s, fs).current;
    }
  }

  lemma {:induction false} CountAtLeast(calls: seq<Call>, i: nat, p: Call -> bool)
    requires i < |calls| && p(calls[i])
    ensures Count(calls, p) > 0
  {
    if i < |calls| - 1 {
      CountAtLeast(calls[..|calls| - 1], i, p);
    }
  }

  lemma {:induction false} RunsAwait(c: Config, quotas: QT.Book, steps: seq<Step>) returns (current: nat)
    ensures Awaits(c, After(c, Start(quotas), steps), current)
  {
    current := 0;
    if steps != [] {
      var before, st := steps[..|steps| - 1], steps[|steps| - 1];
      current := RunsAwait(c, quotas, before);
      if Enabled(After(c, Start(quotas), before), st) {
        current := AwaitsStep(c, After(c, Start(quotas), before), st, current);
      }
    }
  }

  // With enough probes, a half-open breaker would admit a call, or one is being forwarded.
  lemma GatewayMakesProgress(c: Config, quotas: QT.Book, steps: seq<Step>, now: int)
    requires CB.EnoughProbes(c.breaker) && After(c, Start(quotas), steps).breaker.status == CB.HalfOpen
    ensures var g := After(c, Start(quotas), steps);
      CB.Admits(c.breaker, g.breaker, now) || exists i :: 0 <= i < |g.calls| && g.calls[i].stage.Forwarding?
  {
    var g := After(c, Start(quotas), steps);
    var current := RunsAwait(c, quotas, steps);
    if !CB.Admits(c.breaker, g.breaker, now) {
      CountFinds(g.calls, IN_FLIGHT);
    }
  }

  // ---- records ----

  // The metrics hold, for every engine, its recorded calls.
  ghost predicate RecordsAgree(g: Gateway, engine: string) {
    var stats := TM.StatsOf(g.report.perEngine, engine);
    && stats.requests == Count(g.calls, RecordedOn(engine))
    && stats.successes == Count(g.calls, SucceededOn(engine))
    && stats.errors == Count(g.calls, FailedOn(engine))
    && g.report.total.requests == Count(g.calls, RECORDED)
  }

  lemma RecordDelta(c: Config, g: Gateway, st: Step, engine: string)
    requires Enabled(g, st)
    ensures var calls := NextCalls(c, g, st); var here := st.Note? && g.calls[st.id].engine == engine;
      && Count(calls, RecordedOn(engine)) == Count(g.calls, RecordedOn(engine)) + One(here)
      && Count(calls, SucceededOn(engine)) == Count(g.calls, SucceededOn(engine)) + One(here && st.success)
      && Count(calls, FailedOn(engine)) == Count(g.calls, FailedOn(engine)) + One(here && !st.success)
      && Count(calls, RECORDED) == Count(g.calls, RECORDED) + One(st.Note?)
  {
    if st.Arrive? {
      CountArrival(c, g, st, RecordedOn(engine));
      CountArrival(c, g, st, SucceededOn(engine));
      CountArrival(c, g, st, FailedOn(engine));
      CountArrival(c, g, st, RECORDED);
    } else if Moves(st) {
      CountMove(c, g, st, RecordedOn(engine));
      CountMove(c, g, st, SucceededOn(engine));
      CountMove(c, g, st, FailedOn(engine));
      CountMove(c, g, st, RECORDED);
    }
  }

  lemma {:induction false} RecordLedger(c: Config, quotas: QT.Book, steps: seq<Step>, engine: string)
    ensures RecordsAgree(After(c, Start(quotas), steps), engine)
  {
    if steps != [] {
      var before, st := steps[..|steps| - 1], steps[|steps| - 1];
      var g := After(c, Start(quotas), before);
      RecordLedger(c, quotas, before, engine);
      if Enabled(g, st) {
        RecordDelta(c, g, st, engine);
      }
    }
  }

  // A call that has reached the breaker and is done with.
  predicate Settled(g: Gateway) {
    forall i | 0 <= i < |g.calls| ::
      !g.calls[i].stage.Blocked? && !g.calls[i].stage.Forwarding? && !g.calls[i].stage.Answered?
  }

  // When no call is on its way, every call that reached the breaker has been recorded, once
  // and on its engine.
  lemma RecordedExactlyOnce(c: Config, quotas: QT.Book, steps: seq<Step>, engine: string)
    requires Settled(After(c, Start(quotas), steps))
    ensures var g := After(c, Start(quotas), steps);
      && g.report.total.requests == Count(g.calls, BREAKER_REACHED)
      && TM.StatsOf(g.report.perEngine, engine).requests == Count(g.calls, ReachedBreakerOn(engine))
  {
    var calls := After(c, Start(quotas), steps).calls;
    RecordLedger(c, quotas, steps, engine);
    CountSame(calls, RECORDED, BREAKER_REACHED);
    CountSame(calls, RecordedOn(engine), ReachedBreakerOn(engine));
  }

  // ---- the funnel ----

  // What the breaker admits is forwarded, and is at most what the quota accepts or lets
  // through uncharged, which is at most what the limiter grants.
  lemma {:induction false} Funnel(c: Config, quotas: QT.Book, steps: seq<Step>)
    ensures var g0 := Start(quotas);
      var admitted := CB.Admitted(c.breaker, CB.INITIAL, AllBreakerOps(c, g0, steps));
      && Count(After(c, g0, steps).calls, FORWARDED) == admitted
      && admitted <= QT.AcceptCount(quotas, AllQuotaEvents(c, g0, steps)) + Exempt(c, g0, steps)
           <= TB.GrantCount(c.bucket, AllBucketEvents(steps)) <= |AllBucketEvents(steps)|
  {
    var calls := After(c, Start(quotas), steps).calls;
    BreakerLedger(c, Start(quotas), steps);
    QuotaTotal(c, quotas, steps);
    LimiterTotal(c, quotas, steps);
    CountMonotone(calls, FORWARDED, QUOTA_PASSED);
    CountMonotone(calls, QUOTA_PASSED, LIMITER_PASSED);
    TB.GrantsAreCalls(c.bucket, AllBucketEvents(steps));
  }

  // ---- the handler ----

  datatype Request = Request(engine: string, capability: string, contextTenant: string, metadataTenant: string) {
    function Tenant(): string {
      if contextTenant != "" then contextTenant else metadataTenant
    }
  }

  // What the authenticator and the engine answer. Without an authenticator there is no
  // identity.
  datatype Authentication = Authenticated(identity: Option<AZ.Identity>) | Unknown

  datatype Reply = TransportError | Response(status: int)

  // The clock readings of one call.
  datatype Times = Times(start: int, created: int, limited: int, allowed: int, answered: int, ended: int)

  datatype Code =
    | OK | InvalidArgument | Unauthenticated | PermissionDenied | ResourceExhausted | NotFound | Unavailable | Internal
    | EngineError(status: int) | Panic

  lemma AfterSnoc(c: Config, g: Gateway, steps: seq<Step>, st: Step)
    ensures After(c, g, steps + [st]) == Next(c, After(c, g, steps), st)
  {
    assert (steps + [st])[..|steps|] == steps;
  }

  lemma {:induction false} AfterConcat(c: Config, g: Gateway, first: seq<Step>, rest: seq<Step>)
    ensures After(c, g, first + rest) == After(c, After(c, g, first), rest)
  {
    if rest == [] {
      assert first + rest == first;
    } else {
      var n := |rest| - 1;
      AfterConcat(c, g, first, rest[..n]);
      assert first + rest == (first + rest[..n]) + [rest[n]];
      AfterSnoc(c, g, first + rest[..n], rest[n]);
    }
  }

  function CodeOf(reply: Reply): Code {
    match reply
    case TransportError => Internal
    case Response(status) => if status >= 400 then EngineError(status) else OK
  }

  // What the server's registry and the balancer's hold, and the balancer's counters.
  datatype Routing =
    Routing(mine: map<string, seq<RT.Endpoint>>, theirs: map<string, seq<RT.Endpoint>>, counters: RT.Counters)
  {
    function Mine(engine: string): seq<RT.Endpoint> {
      if engine in mine then mine[engine] else []
    }

    function Theirs(engine: string): seq<RT.Endpoint> {
      if engine in theirs then theirs[engine] else []
    }

    // The counters once an endpoint was asked for.
    function Asked(engine: string): RT.Counters {
      var healthy, others := RT.HealthyOf(Mine(engine)), RT.HealthyOf(Theirs(engine));
      if healthy == [] || others == [] then counters
      else counters[engine := (RT.CounterOf(counters, engine) + 1) % |others|]
    }

    function Resolve(engine: string): RT.Choice {
      var healthy, others := RT.HealthyOf(Mine(engine)), RT.HealthyOf(Theirs(engine));
      var k := RT.CounterOf(counters, engine);
      if healthy == [] || others == [] then RT.NoHealthyEndpoints
      else if k < |others| then RT.Picked(others[k])
      else RT.IndexOutOfRange
    }
  }

  // The code of a call that was not forwarded.
  function AnswerTo(choice: RT.Choice): Code {
    match choice
    case Picked(_) => Unavailable
    case NoHealthyEndpoints => NotFound
    case IndexOutOfRange => Panic
  }

  // The breaker after it was asked and, if it admitted the call, told the outcome.
  function Protected(c: CB.Config, b: CB.Breaker, admitted: bool, ok: bool, t: Times): CB.Breaker {
    var b' := CB.Apply(c, b, CB.Allow(t.allowed));
    if admitted then CB.Apply(c, b', if ok then CB.Success else CB.Failure(t.answered)) else b'
  }

  // The steps of a call.

  function Screening(id: nat, tenant: string, engine: string, t: Times, passed: bool): seq<Step> {
    [Step.Arrive(tenant, engine, t.created, t.limited)] + if passed then [Step.Charge(id)] else []
  }

  function Protection(id: nat, admitted: bool, ok: bool, t: Times): seq<Step> {
    [Step.Admit(id, t.allowed)] + if admitted then [Step.Answer(id, ok, t.answered)] else []
  }

  function Forwards(id: nat, admitted: bool, reply: Reply, t: Times): seq<Step> {
    Protection(id, admitted, reply.Response?, t) + [Step.Note(id, admitted && CodeOf(reply).OK?, t.ended - t.start)]
  }

  function Serving(id: nat, stage: Stage, reply: Reply, t: Times): seq<Step> {
    if stage.Recorded? then [Step.Route(id, true)] + Forwards(id, stage.forwarded, reply, t)
    else [Step.Route(id, false)]
  }

  function StepsOf(id: nat, tenant: string, engine: string, stage: Stage, reply: Reply, t: Times): seq<Step> {
    if stage.Unrouted? || stage.Recorded?
    then Screening(id, tenant, engine, t, true) + Serving(id, stage, reply, t)
    else Screening(id, tenant, engine, t, !stage.LimiterRefused?)
  }

  // Two calls share a bucket with another tenant or engine just when a name has a colon.
  lemma SharesKeyIff(tenant: string, engine: string)
    ensures (exists t, e :: (t, e) != (tenant, engine) && KeyOf(t, e) == KeyOf(tenant, engine))
       <==> ':' in tenant || ':' in engine
  {
    if ':' in engine {
      var i :| 0 <= i < |engine| && engine[i] == ':';
      var t, e := tenant + ":" + engine[..i], engine[i + 1..];
      assert engine == engine[..i] + ":" + e && KeyOf(t, e) == KeyOf(tenant, engine);
      assert |e| < |engine| && (t, e) != (tenant, engine);
    } else if ':' in tenant {
      var i :| 0 <= i < |tenant| && tenant[i] == ':';
      var t, e := tenant[..i], tenant[i + 1..] + ":" + engine;
      assert tenant == t + ":" + tenant[i + 1..] && KeyOf(t, e) == KeyOf(tenant, engine);
      assert |t| < |tenant| && (t, e) != (tenant, engine);
    } else {
      forall t, e | KeyOf(t, e) == KeyOf(tenant, engine)
        ensures (t, e) == (tenant, engine)
      {
        KeySplits(tenant, engine, t, e);
      }
    }
  }

  lemma KeySplits(tenant: string, engine: string, t: string, e: string)
    requires ':' !in tenant && ':' !in engine && KeyOf(t, e) == KeyOf(tenant, engine)
    ensures t == tenant && e == engine
  {
    var key := KeyOf(t, e);
    assert key[|t|] == ':' && key[..|t|] == t && key[|t| + 1..] == e;
    assert key[..|tenant|] == tenant && key[|tenant| + 1..] == engine;
    assert forall i | 0 <= i < |tenant| :: key[i] == tenant[i];
    assert forall i | 0 <= i < |engine| :: key[|tenant| + 1 + i] == engine[i];
    assert |t| == |tenant|;
  }

  lemma MovedTwice(calls: seq<Call>, id: nat, first: Stage, second: Stage)
    requires id < |calls|
    ensures Moved(Moved(calls, id, first), id, second) == Moved(calls, id, second)
  {
  }

  lemma LastMoved(calls: seq<Call>, call: Call, stage: Stage)
    ensures Moved(calls + [call], |calls|, stage) == calls + [call.(stage := stage)]
  {
  }

  lemma Assoc(a: seq<Step>, b: seq<Step>, c: seq<Step>)
    ensures a + b + c == a + (b + c)
  {
  }

  // A step that a call takes, and no administrator.
  predicate OfCall(st: Step) {
    st.Arrive? || Moves(st)
  }

  lemma StepsOfAreOfCall(id: nat, tenant: string, engine: string, stage: Stage, reply: Reply, t: Times)
    ensures forall st | st in StepsOf(id, tenant, engine, stage, reply, t) :: OfCall(st)
  {
  }

  datatype Arrival = Arrival(req: Request, auth: Authentication, reply: Reply, t: Times)

  // The tenant has a limit on requests, and has kept to it.
  predicate Limited(g: Gateway, tenant: string) {
    && tenant != "" && QT.Limit(g.quotas, tenant, "requests").Some?
    && 0 <= QT.Usage(g.quotas, tenant, "requests") <= QT.Limit(g.quotas, tenant, "requests").value < MAX_INT64
  }

  // No more calls of the tenant were forwarded from g to g' than its limit left in g, apart
  // from those that were pending in g.
  predicate KeepsLimit(g: Gateway, g': Gateway, tenant: string)
    requires Limited(g, tenant)
  {
    Count(g'.calls, ForwardedFor(tenant)) - Count(g.calls, ForwardedFor(tenant)) <=
      Count(g.calls, PendingFor(tenant)) +
      QT.Limit(g.quotas, tenant, "requests").value - QT.Usage(g.quotas, tenant, "requests")
  }

  lemma CallsKeepLimit(c: Config, g: Gateway, steps: seq<Step>, tenant: string)
    requires Limited(g, tenant) && forall st | st in steps :: OfCall(st)
    ensures KeepsLimit(g, After(c, g, steps), tenant)
  {
    ForwardsObeyQuota(c, g, steps, tenant, QT.Limit(g.quotas, tenant, "requests").value);
  }

  // The run of steps from g ends in g'. Quantified, so that the run stays folded.
  ghost predicate LeadsTo(c: Config, g: Gateway, steps: seq<Step>, g': Gateway) {
    forall run | run == steps :: After(c, g, run) == g'
  }

  lemma LeadsToNext(c: Config, g: Gateway, steps: seq<Step>, g': Gateway, st: Step)
    requires LeadsTo(c, g, steps, g')
    ensures LeadsTo(c, g, steps + [st], Next(c, g', st))
  {
    assert After(c, g, steps) == g';
    AfterSnoc(c, g, steps, st);
    forall run | run == steps + [st]
      ensures After(c, g, run) == Next(c, g', st)
    {
      assert After(c, g, run) == After(c, g, steps + [st]);
    }
  }

  class Server {
    const authorizer: AZ.RBACAuthorizer?
    const limiter: TB.TokenBucket
    const quota: QT.Quota
    const registry: RT.Registry
    const balancer: RT.RoundRobinLoadBalancer
    const breaker: CB.CircuitBreaker
    const metrics: TM.Metrics
    ghost var settings: Config
    // The components' state at the start, and now with every call that got as far as the
    // limiter; and the steps in between.
    ghost var initial: Gateway
    ghost var state: Gateway
    ghost var history: seq<Step>

    ghost predicate Valid()
      reads this, limiter, limiter.states, quota, breaker, metrics, metrics.counters
    {
      && limiter.Valid() && metrics.Valid()
      && settings == Config(limiter.config, breaker.config)
      && state.buckets == limiter.View() && state.quotas == quota.View()
      && state.breaker == breaker.View() && state.report == metrics.View()
      && LeadsTo(settings, initial, history, state)
    }

    constructor (authorizer: AZ.RBACAuthorizer?, limiter: TB.TokenBucket, quota: QT.Quota, registry: RT.Registry,
                 balancer: RT.RoundRobinLoadBalancer, breaker: CB.CircuitBreaker, metrics: TM.Metrics)
      requires limiter.Valid() && metrics.Valid()
      ensures Valid() && history == []
      ensures initial == Gateway(limiter.View(), quota.View(), breaker.View(), metrics.View(), [])
      ensures this.authorizer == authorizer && this.limiter == limiter && this.quota == quota
      ensures this.registry == registry && this.balancer == balancer
      ensures this.breaker == breaker && this.metrics == metrics
    {
      this.authorizer, this.limiter, this.quota, this.registry := authorizer, limiter, quota, registry;
      this.balancer, this.breaker, this.metrics := balancer, breaker, metrics;
      settings := Config(limiter.config, breaker.config);
      initial := Gateway(limiter.View(), quota.View(), breaker.View(), metrics.View(), []);
      state := Gateway(limiter.View(), quota.View(), breaker.View(), metrics.View(), []);
      history := [];
    }

    // Enters a step that a component is about to take.
    ghost method Take(st: Step)
      requires LeadsTo(settings, initial, history, state)
      modifies `state, `history
      ensures history == old(history) + [st] && state == Next(settings, old(state), st)
      ensures LeadsTo(settings, initial, history, state)
    {
      LeadsToNext(settings, initial, history, state, st);
      state, history := Next(settings, state, st), history + [st];
    }

    method Limit(tenant: string, engine: string, created: int, now: int) returns (ok: bool)
      requires Valid()
      modifies `state, `history, limiter, limiter.states
      ensures Valid() && forall b | b in limiter.states && b !in old(limiter.states) :: fresh(b)
      ensures history == old(history) + [Step.Arrive(tenant, engine, created, now)]
      ensures var ask := TB.AllowN(tenant + ":" + engine, 1, created, now);
        && (ok <==> TB.Decide(settings.bucket, old(state.buckets), ask))
        && state == old(state).(
             buckets := TB.Apply(settings.bucket, old(state.buckets), ask),
             calls := old(state.calls) + [Call(tenant, engine, now, if ok then PastLimiter else LimiterRefused)])
    {
      Take(Step.Arrive(tenant, engine, created, now));
      ok := limiter.Allow(tenant + ":" + engine, created, now);
    }

    method ChargeQuota(ghost id: nat, tenant: string) returns (ok: bool)
      requires Valid() && id < |state.calls| && state.calls[id].stage.PastLimiter? && state.calls[id].tenant == tenant
      modifies `state, `history, quota
      ensures Valid() && history == old(history) + [Step.Charge(id)]
      ensures ok <==> tenant == "" || QT.Accepts(old(state.quotas), tenant, "requests", 1)
      ensures state == old(state).(
        quotas := if tenant == "" then old(state.quotas)
                  else QT.Apply(old(state.quotas), QT.Consume(tenant, "requests", 1)),
        calls := Moved(old(state.calls), id, if ok then PastQuota else QuotaRefused))
    {
      Take(Step.Charge(id));
      ok := true;
      if tenant != "" {
        var err := quota.Consume(tenant, "requests", 1);
        ok := err.None?;
      }
    }

    // A healthy endpoint, if the registry has one for the balancer to choose.
    method ResolveEndpoint(engine: string) returns (r: RT.Choice)
      modifies balancer
      ensures var eps, k := RT.HealthyOf(balancer.registry.Of(engine)), old(RT.CounterOf(balancer.counters, engine));
        r == if RT.HealthyOf(registry.Of(engine)) == [] || eps == [] then RT.NoHealthyEndpoints
             else if k < |eps| then RT.Picked(eps[k]) else RT.IndexOutOfRange
      ensures balancer.counters ==
        if r.NoHealthyEndpoints? then old(balancer.counters)
        else RT.Advance(old(balancer.counters), RT.Call(engine, |RT.HealthyOf(balancer.registry.Of(engine))|))
    {
      var healthy := registry.GetHealthyEndpoints(engine);
      if |healthy| > 0 {
        r := balancer.Next(engine);
      } else {
        r := RT.NoHealthyEndpoints;
      }
    }

    // As many resolutions in a row as the engine has healthy endpoints, and no change to
    // the registries meanwhile: every endpoint is returned once.
    method ResolveRound(engine: string) returns (rs: seq<RT.Choice>)
      requires RT.HealthyOf(registry.Of(engine)) != []
      requires RT.CounterOf(balancer.counters, engine) < |RT.HealthyOf(balancer.registry.Of(engine))|
      modifies balancer
      ensures var eps := RT.HealthyOf(balancer.registry.Of(engine));
        && |rs| == |eps| && multiset(rs) == multiset(seq(|eps|, i requires 0 <= i < |eps| => RT.Picked(eps[i])))
    {
      ghost var c := RT.CounterOf(balancer.counters, engine);
      var healthy := balancer.registry.GetHealthyEndpoints(engine);
      ghost var k := |healthy|;
      rs := [];
      for i := 0 to |healthy|
        invariant |rs| == i && RT.CounterOf(balancer.counters, engine) == RT.Around(c, i, k)
        invariant forall j | 0 <= j < i :: rs[j] == RT.Picked(healthy[RT.Around(c, j, k)])
      {
        RT.AroundNext(c, i, k);
        var r := ResolveEndpoint(engine);
        rs := rs + [r];
      }
      RT.GoingRoundPicksEach(healthy, c, rs);
      assert RT.PickEach(healthy) == seq(|healthy|, i requires 0 <= i < |healthy| => RT.Picked(healthy[i]));
    }

    ghost function Routes(): Routing
      reads registry, balancer, balancer.registry
    {
      Routing(registry.endpoints, balancer.registry.endpoints, balancer.counters)
    }

    // Resolution, as a step of the call.
    method Route(ghost id: nat, engine: string, ghost routes: Routing) returns (r: RT.Choice)
      requires Valid() && id < |state.calls| && state.calls[id].stage.PastQuota?
      requires routes == Routes()
      modifies `state, `history, balancer
      ensures Valid() && history == old(history) + [Step.Route(id, r.Picked?)]
      ensures state == old(state).(calls := Moved(old(state.calls), id, if r.Picked? then PastRouting else Unrouted))
      ensures r == routes.Resolve(engine) && balancer.counters == routes.Asked(engine)
    {
      r := ResolveEndpoint(engine);
      Take(Step.Route(id, r.Picked?));
    }

    // The breaker's Allow.
    method Admission(ghost id: nat, now: int) returns (ok: bool)
      requires Valid() && id < |state.calls| && state.calls[id].stage.PastRouting?
      modifies `state, `history, breaker
      ensures Valid() && history == old(history) + [Step.Admit(id, now)]
      ensures ok <==> CB.Admits(settings.breaker, old(state.breaker), now)
      ensures state == old(state).(
        breaker := CB.Apply(settings.breaker, old(state.breaker), CB.Allow(now)),
        calls := Moved(old(state.calls), id, if ok then Forwarding else Blocked))
    {
      Take(Step.Admit(id, now));
      ok := breaker.Allow(now);
    }

    // The breaker's Success or Failure.
    method Report(ghost id: nat, ok: bool, now: int)
      requires Valid() && id < |state.calls| && state.calls[id].stage.Forwarding?
      modifies `state, `history, breaker
      ensures Valid() && history == old(history) + [Step.Answer(id, ok, now)]
      ensures state == old(state).(
        breaker := CB.Apply(settings.breaker, old(state.breaker), if ok then CB.Success else CB.Failure(now)),
        calls := Moved(old(state.calls), id, Answered(ok)))
    {
      Take(Step.Answer(id, ok, now));
      if ok {
        breaker.Success();
      } else {
        breaker.Failure(now);
      }
    }

    method Register(ghost id: nat, engine: string, success: bool, latency: int)
      requires Valid() && Enabled(state, Step.Note(id, success, latency)) && state.calls[id].engine == engine
      modifies `state, `history, metrics, metrics.counters
      ensures Valid() && forall m | m in metrics.counters && m !in old(metrics.counters) :: fresh(m)
      ensures history == old(history) + [Step.Note(id, success, latency)]
      ensures state == old(state).(
        report := TM.Apply(old(state.report), TM.Record(engine, success, latency)),
        calls := Moved(old(state.calls), id, Recorded(old(state.calls[id].stage.Answered?), success)))
    {
      Take(Step.Note(id, success, latency));
      metrics.RecordRequest(engine, success, latency);
    }

    // Limiter and quota.
    method Screen(tenant: string, engine: string, t: Times) returns (ok: bool, ghost stage: Stage)
      requires Valid()
      modifies `state, `history, limiter, limiter.states, quota
      ensures Valid() && forall b | b in limiter.states && b !in old(limiter.states) :: fresh(b)
      ensures history == old(history) + Screening(|old(state.calls)|, tenant, engine, t, !stage.LimiterRefused?)
      ensures var g, ask := old(state), TB.AllowN(tenant + ":" + engine, 1, t.created, t.limited);
        && stage == (if !TB.Decide(settings.bucket, g.buckets, ask) then LimiterRefused
                     else if tenant == "" || QT.Accepts(g.quotas, tenant, "requests", 1) then PastQuota
                     else QuotaRefused)
        && (ok <==> stage.PastQuota?)
        && state == g.(
             buckets := TB.Apply(settings.bucket, g.buckets, ask),
             quotas := if stage.LimiterRefused? || tenant == "" then g.quotas
                       else QT.Apply(g.quotas, QT.Consume(tenant, "requests", 1)),
             calls := g.calls + [Call(tenant, engine, t.limited, stage)])
    {
      ghost var id := |state.calls|;
      ok := Limit(tenant, engine, t.created, t.limited);
      stage := if ok then PastLimiter else LimiterRefused;
      if ok {
        ok := ChargeQuota(id, tenant);
        stage := if ok then PastQuota else QuotaRefused;
      }
    }

    // The breaker's Execute around the call to the engine.
    method Protect(ghost id: nat, ok: bool, t: Times) returns (admitted: bool)
      requires Valid() && id < |state.calls| && state.calls[id].stage.PastRouting?
      modifies `state, `history, breaker
      ensures Valid() && history == old(history) + Protection(id, admitted, ok, t)
      ensures admitted <==> CB.Admits(settings.breaker, old(state.breaker), t.allowed)
      ensures state == old(state).(
        breaker := Protected(settings.breaker, old(state.breaker), admitted, ok, t),
        calls := Moved(old(state.calls), id, if admitted then Answered(ok) else Blocked))
    {
      admitted := Admission(id, t.allowed);
      if admitted {
        Report(id, ok, t.answered);
        MovedTwice(old(state.calls), id, Forwarding, Answered(ok));
      }
    }

    // The protected call, and its record.
    method Forward(ghost id: nat, engine: string, reply: Reply, t: Times) returns (admitted: bool)
      requires Valid() && id < |state.calls| && state.calls[id].stage.PastRouting? && state.calls[id].engine == engine
      modifies `state, `history, breaker, metrics, metrics.counters
      ensures Valid() && forall m | m in metrics.counters && m !in old(metrics.counters) :: fresh(m)
      ensures history == old(history) + Forwards(id, admitted, reply, t)
      ensures admitted <==> CB.Admits(settings.breaker, old(state.breaker), t.allowed)
      ensures var success := admitted && CodeOf(reply).OK?;
        state == old(state).(
          breaker := Protected(settings.breaker, old(state.breaker), admitted, reply.Response?, t),
          report := TM.Apply(old(state.report), TM.Record(engine, success, t.ended - t.start)),
          calls := Moved(old(state.calls), id, Recorded(admitted, success)))
    {
      admitted := Protect(id, reply.Response?, t);
      var success := admitted && CodeOf(reply).OK?;
      Register(id, engine, success, t.ended - t.start);
      ghost var answered := if admitted then Answered(reply.Response?) else Blocked;
      MovedTwice(old(state.calls), id, answered, Recorded(admitted, success));
    }

    // Routing, and what follows.
    method Serve(ghost id: nat, engine: string, reply: Reply, t: Times, ghost routes: Routing)
      returns (code: Code, sent: Option<RT.Endpoint>, ghost stage: Stage)
      requires Valid() && id < |state.calls| && state.calls[id].stage.PastQuota? && state.calls[id].engine == engine
      requires routes == Routes()
      modifies `state, `history, balancer, breaker, metrics, metrics.counters
      ensures Valid() && forall m | m in metrics.counters && m !in old(metrics.counters) :: fresh(m)
      ensures history == old(history) + Serving(id, stage, reply, t)
      ensures balancer.counters == routes.Asked(engine)
      ensures var choice := routes.Resolve(engine);
        var admitted := choice.Picked? && CB.Admits(settings.breaker, old(state.breaker), t.allowed);
        && stage == (if choice.Picked? then Recorded(admitted, admitted && CodeOf(reply).OK?) else Unrouted)
        && code == (if admitted then CodeOf(reply) else AnswerTo(choice))
        && sent == (if admitted then Some(choice.endpoint) else None)
      ensures state ==
        if stage.Recorded? then old(state).(
          breaker := Protected(settings.breaker, old(state.breaker), stage.forwarded, reply.Response?, t),
          report := TM.Apply(old(state.report), TM.Record(engine, stage.success, t.ended - t.start)),
          calls := Moved(old(state.calls), id, stage))
        else old(state).(calls := Moved(old(state.calls), id, stage))
    {
      var choice := Route(id, engine, routes);
      code, sent, stage := AnswerTo(choice), None, Unrouted;
      if choice.Picked? {
        var admitted := Forward(id, engine, reply, t);
        if admitted {
          code, sent := CodeOf(reply), Some(choice.endpoint);
        }
        Assoc(old(history), [Step.Route(id, true)], Forwards(id, admitted, reply, t));
        stage := Recorded(admitted, admitted && CodeOf(reply).OK?);
        MovedTwice(old(state.calls), id, PastRouting, stage);
      }
    }

    // What turns a call away before it counts.
    method CheckCaller(req: Request, auth: Authentication) returns (refusal: Option<Code>)
      requires Valid()
      ensures Valid() && Routes() == old(Routes())
      ensures refusal ==
        if req.engine == "" || req.capability == "" then Some(InvalidArgument)
        else if auth.Unknown? then Some(Unauthenticated)
        else if authorizer != null && (auth.identity.None? ||
          !AZ.Decide(authorizer.policies,
                     AZ.Request(auth.identity.value, req.engine + ":" + req.capability, req.contextTenant)).Permitted?)
        then Some(PermissionDenied)
        else None
    {
      if req.engine == "" || req.capability == "" {
        return Some(InvalidArgument);
      }
      if auth.Unknown? {
        return Some(Unauthenticated);
      }
      if authorizer != null {
        var d := authorizer.Authorize(auth.identity, req.engine + ":" + req.capability, req.contextTenant);
        if !d.Permitted? {
          return Some(PermissionDenied);
        }
      }
      refusal := None;
    }

    // From the limiter to the record.
    method Carry(tenant: string, engine: string, reply: Reply, t: Times, ghost routes: Routing)
      returns (code: Code, sent: Option<RT.Endpoint>, ghost stage: Stage)
      requires Valid() && routes == Routes()
      modifies `state, `history, limiter, limiter.states, quota, balancer, breaker, metrics, metrics.counters
      ensures Valid()
      ensures forall b | b in limiter.states && b !in old(limiter.states) :: fresh(b)
      ensures forall m | m in metrics.counters && m !in old(metrics.counters) :: fresh(m)
      ensures history == old(history) + StepsOf(|old(state.calls)|, tenant, engine, stage, reply, t)
      ensures var g, ask := old(state), TB.AllowN(tenant + ":" + engine, 1, t.created, t.limited);
        var chosen := routes.Resolve(engine);
        var admitted := chosen.Picked? && CB.Admits(settings.breaker, g.breaker, t.allowed);
        && stage == (if !TB.Decide(settings.bucket, g.buckets, ask) then LimiterRefused
                     else if tenant != "" && !QT.Accepts(g.quotas, tenant, "requests", 1) then QuotaRefused
                     else if !chosen.Picked? then Unrouted
                     else Recorded(admitted, admitted && CodeOf(reply).OK?))
        && state == Gateway(
             TB.Apply(settings.bucket, g.buckets, ask),
             if stage.LimiterRefused? || tenant == "" then g.quotas
             else QT.Apply(g.quotas, QT.Consume(tenant, "requests", 1)),
             if stage.Recorded? then Protected(settings.breaker, g.breaker, admitted, reply.Response?, t)
             else g.breaker,
             if stage.Recorded? then TM.Apply(g.report, TM.Record(engine, stage.success, t.ended - t.start))
             else g.report,
             g.calls + [Call(tenant, engine, t.limited, stage)])
        && code == (if stage.LimiterRefused? || stage.QuotaRefused? then ResourceExhausted
                    else if admitted then CodeOf(reply)
                    else AnswerTo(chosen))
        && sent == (if stage.Recorded? && admitted then Some(chosen.endpoint) else None)
      ensures balancer.counters ==
        if stage.LimiterRefused? || stage.QuotaRefused? then routes.counters else routes.Asked(engine)
    {
      ghost var id := |state.calls|;
      var ok;
      ok, stage := Screen(tenant, engine, t);
      assert metrics.counters == old(metrics.counters);
      ghost var states := limiter.states;
      if ok {
        code, sent, stage := Serve(id, engine, reply, t, routes);
        assert limiter.states == states;
        LastMoved(old(state.calls), Call(tenant, engine, t.limited, PastQuota), stage);
        Assoc(old(history), Screening(id, tenant, engine, t, true), Serving(id, stage, reply, t));
      } else {
        code, sent := ResourceExhausted, None;
      }
    }

    // A call that was let in.
    method Handle(tenant: string, engine: string, reply: Reply, t: Times, ghost routes: Routing)
      returns (code: Code, sent: Option<RT.Endpoint>, ghost stage: Stage)
      requires Valid() && routes == Routes()
      modifies `state, `history, limiter, limiter.states, quota, balancer, breaker, metrics, metrics.counters
      ensures Valid()
      ensures forall b | b in limiter.states && b !in old(limiter.states) :: fresh(b)
      ensures forall m | m in metrics.counters && m !in old(metrics.counters) :: fresh(m)
      ensures history == old(history) + StepsOf(|old(state.calls)|, tenant, engine, stage, reply, t)
      ensures
        var g, ask := old(state), TB.AllowN(tenant + ":" + engine, 1, t.created, t.limited);
        var healthy := RT.HealthyOf(routes.Mine(engine));
        var theirs, k := RT.HealthyOf(routes.Theirs(engine)), RT.CounterOf(routes.counters, engine);
        // how far the call gets
        && stage == (
             if !TB.Decide(settings.bucket, g.buckets, ask) then LimiterRefused
             else if tenant != "" && !QT.Accepts(g.quotas, tenant, "requests", 1) then QuotaRefused
             else if healthy == [] || k >= |theirs| then Unrouted
             else if !CB.Admits(settings.breaker, g.breaker, t.allowed) then Recorded(false, false)
             else Recorded(true, reply.Response? && reply.status < 400))
        // the answer, and the endpoint at the balancer's counter
        && code == (
             if stage.LimiterRefused? || stage.QuotaRefused? then ResourceExhausted
             else if stage.Unrouted? then (if healthy == [] || theirs == [] then NotFound else Panic)
             else if stage == Recorded(false, false) then Unavailable
             else if reply.TransportError? then Internal
             else if reply.status >= 400 then EngineError(reply.status)
             else OK)
        && sent == (if stage.Recorded? && stage.forwarded then Some(theirs[k]) else None)
        // what becomes of the components
        && state.calls == g.calls + [Call(tenant, engine, t.limited, stage)]
        && balancer.counters == (
             if stage.LimiterRefused? || stage.QuotaRefused? || healthy == [] || theirs == [] then routes.counters
             else routes.counters[engine := (k + 1) % |theirs|])
        && state.buckets == TB.Apply(settings.bucket, g.buckets, ask)
        && state.quotas == (
             if stage.LimiterRefused? || tenant == "" then g.quotas
             else QT.Apply(g.quotas, QT.Consume(tenant, "requests", 1)))
        && state.breaker == (
             if !stage.Recorded? then g.breaker
             else
               var b := CB.Apply(settings.breaker, g.breaker, CB.Allow(t.allowed));
               if stage == Recorded(false, false) then b
               else CB.Apply(settings.breaker, b, if reply.Response? then CB.Success else CB.Failure(t.answered)))
        && state.report == (
             if !stage.Recorded? then g.report
             else TM.Apply(g.report, TM.Record(engine, stage.success, t.ended - t.start)))
    {
      code, sent, stage := Carry(tenant, engine, reply, t, routes);
    }

    // One call, start to finish.
    method Execute(req: Request, auth: Authentication, reply: Reply, t: Times)
      returns (code: Code, sent: Option<RT.Endpoint>, ghost stage: Stage)
      requires Valid()
      modifies `state, `history, limiter, limiter.states, quota, balancer, breaker, metrics, metrics.counters
      ensures Valid()
      ensures forall b | b in limiter.states && b !in old(limiter.states) :: fresh(b)
      ensures forall m | m in metrics.counters && m !in old(metrics.counters) :: fresh(m)
      // who is turned away, before anything counts
      ensures code == InvalidArgument <==> req.engine == "" || req.capability == ""
      ensures code == Unauthenticated <==> req.engine != "" && req.capability != "" && auth.Unknown?
      ensures code == PermissionDenied <==>
        req.engine != "" && req.capability != "" && auth.Authenticated? && authorizer != null &&
        (auth.identity.None? ||
         !AZ.Decide(old(authorizer.policies),
                    AZ.Request(auth.identity.value, req.engine + ":" + req.capability, req.contextTenant)).Permitted?)
      ensures code == InvalidArgument || code == Unauthenticated || code == PermissionDenied ==>
        sent.None? && history == old(history) && state == old(state) && balancer.counters == old(balancer.counters)
      // everyone else is a call, of the tenant in the context or else in the metadata
      ensures code != InvalidArgument && code != Unauthenticated && code != PermissionDenied ==>
        var tenant := if req.contextTenant != "" then req.contextTenant else req.metadataTenant;
        var g, ask := old(state), TB.AllowN(tenant + ":" + req.engine, 1, t.created, t.limited);
        var healthy := old(RT.HealthyOf(registry.Of(req.engine)));
        var theirs := old(RT.HealthyOf(balancer.registry.Of(req.engine)));
        var k := old(RT.CounterOf(balancer.counters, req.engine));
        // how far the call gets
        && stage == (
             if !TB.Decide(settings.bucket, g.buckets, ask) then LimiterRefused
             else if tenant != "" && !QT.Accepts(g.quotas, tenant, "requests", 1) then QuotaRefused
             else if healthy == [] || k >= |theirs| then Unrouted
             else if !CB.Admits(settings.breaker, g.breaker, t.allowed) then Recorded(false, false)
             else Recorded(true, reply.Response? && reply.status < 400))
        // the answer, and the endpoint at the balancer's counter
        && code == (
             if stage.LimiterRefused? || stage.QuotaRefused? then ResourceExhausted
             else if stage.Unrouted? then (if healthy == [] || theirs == [] then NotFound else Panic)
             else if stage == Recorded(false, false) then Unavailable
             else if reply.TransportError? then Internal
             else if reply.status >= 400 then EngineError(reply.status)
             else OK)
        && sent == (if stage.Recorded? && stage.forwarded then Some(theirs[k]) else None)
        // what becomes of the components
        && state.calls == g.calls + [Call(tenant, req.engine, t.limited, stage)]
        && balancer.counters == (
             if stage.LimiterRefused? || stage.QuotaRefused? || healthy == [] || theirs == [] then
               old(balancer.counters)
             else old(balancer.counters)[req.engine := (k + 1) % |theirs|])
        && state.buckets == TB.Apply(settings.bucket, g.buckets, ask)
        && state.quotas == (
             if stage.LimiterRefused? || tenant == "" then g.quotas
             else QT.Apply(g.quotas, QT.Consume(tenant, "requests", 1)))
        && state.breaker == (
             if !stage.Recorded? then g.breaker
             else
               var b := CB.Apply(settings.breaker, g.breaker, CB.Allow(t.allowed));
               if stage == Recorded(false, false) then b
               else CB.Apply(settings.breaker, b, if reply.Response? then CB.Success else CB.Failure(t.answered)))
        && state.report == (
             if !stage.Recorded? then g.report
             else TM.Apply(g.report, TM.Record(req.engine, stage.success, t.ended - t.start)))
        && history == old(history) + StepsOf(|g.calls|, tenant, req.engine, stage, reply, t)
    {
      ghost var routes := Routes();
      var refusal := CheckCaller(req, auth);
      if refusal.Some? {
        code, sent, stage := refusal.value, None, LimiterRefused;
      } else {
        code, sent, stage := Handle(req.Tenant(), req.engine, reply, t, routes);
      }
    }

    // Any calls in a row: a run from here, in which every tenant is kept to its limit.
    method ExecuteAll(arrivals: seq<Arrival>) returns (codes: seq<Code>, ghost steps: seq<Step>)
      requires Valid()
      modifies `state, `history, limiter, limiter.states, quota, balancer, breaker, metrics, metrics.counters
      ensures Valid() && |codes| == |arrivals|
      ensures forall b | b in limiter.states && b !in old(limiter.states) :: fresh(b)
      ensures forall m | m in metrics.counters && m !in old(metrics.counters) :: fresh(m)
      ensures history == old(history) + steps && state == After(settings, old(state), steps)
      ensures forall tenant | Limited(old(state), tenant) :: KeepsLimit(old(state), state, tenant)
    {
      codes, steps := [], [];
      for i := 0 to |arrivals|
        invariant Valid() && |codes| == i
        invariant forall b | b in limiter.states && b !in old(limiter.states) :: fresh(b)
        invariant forall m | m in metrics.counters && m !in old(metrics.counters) :: fresh(m)
        invariant history == old(history) + steps && forall st | st in steps :: OfCall(st)
      {
        var a := arrivals[i];
        ghost var id := |state.calls|;
        var code, sent;
        ghost var stage;
        code, sent, stage := Execute(a.req, a.auth, a.reply, a.t);
        codes := codes + [code];
        if history != old(history) + steps {
          ghost var taken := StepsOf(id, a.req.Tenant(), a.req.engine, stage, a.reply, a.t);
          StepsOfAreOfCall(id, a.req.Tenant(), a.req.engine, stage, a.reply, a.t);
          Assoc(old(history), steps, taken);
          steps := steps + taken;
        }
      }
      Replay(old(history), old(state), steps);
      forall tenant | Limited(old(state), tenant)
        ensures KeepsLimit(old(state), state, tenant)
      {
        CallsKeepLimit(settings, old(state), steps, tenant);
      }
    }

    lemma Replay(before: seq<Step>, was: Gateway, steps: seq<Step>)
      requires LeadsTo(settings, initial, before, was) && LeadsTo(settings, initial, before + steps, state)
      ensures state == After(settings, was, steps)
    {
      assert After(settings, initial, before) == was;
      assert After(settings, initial, before + steps) == state;
      AfterConcat(settings, initial, before, steps);
    }
  }
}
