// routing/routing.go: the endpoint registry and the two load balancers.
module Routing {
  import opened Options

  datatype Endpoint =
    Endpoint(name: string, version: string, address: string, protocol: string, weight: int, healthy: bool)

  datatype RegisterError = NameRequired | AddressRequired

  function HealthyOf(eps: seq<Endpoint>): seq<Endpoint> {
    if eps == [] then []
    else HealthyOf(eps[..|eps| - 1]) + (if eps[|eps| - 1].healthy then [eps[|eps| - 1]] else [])
  }

  // The healthy endpoints are those marked so, each as often as it is registered, and in
  // that order.
  lemma {:induction false} HealthyInOrder(front: seq<Endpoint>, e: Endpoint, back: seq<Endpoint>)
    ensures HealthyOf(front + [e] + back) == HealthyOf(front) + (if e.healthy then [e] else []) + HealthyOf(back)
  {
    if back == [] {
      assert (front + [e] + back)[..|front|] == front;
    } else {
      var n := |back| - 1;
      HealthyInOrder(front, e, back[..n]);
      assert (front + [e] + back)[..|front| + 1 + n] == front + [e] + back[..n];
    }
  }

  // The first endpoint at an address; the end of the list if there is none.
  function FirstAt(eps: seq<Endpoint>, address: string, i: nat): (k: nat)
    requires i <= |eps|
    ensures i <= k <= |eps|
    ensures k < |eps| ==> eps[k].address == address
    ensures forall j | i <= j < k :: eps[j].address != address
    decreases |eps| - i
  {
    if i == |eps| || eps[i].address == address then i else FirstAt(eps, address, i + 1)
  }

  class Registry {
    var endpoints: map<string, seq<Endpoint>>

    ghost predicate Valid()
      reads this
    {
      forall name, i | name in endpoints && 0 <= i < |endpoints[name]| ::
        endpoints[name][i].name == name && endpoints[name][i].weight >= 1
    }

    function Of(name: string): seq<Endpoint>
      reads this
    {
      if name in endpoints then endpoints[name] else []
    }

    constructor ()
      ensures Valid() && endpoints == map[]
    {
      endpoints := map[];
    }

    method Register(e: Endpoint) returns (err: Option<RegisterError>)
      requires Valid()
      modifies this
      ensures Valid()
      ensures err ==
        if e.name == "" then Some(NameRequired) else if e.address == "" then Some(AddressRequired) else None
      ensures err.Some? ==> endpoints == old(endpoints)
      ensures err.None? ==> endpoints == old(endpoints)[e.name := old(Of(e.name)) + [
        e.(weight := if e.weight <= 0 then 1 else e.weight,
           protocol := if e.protocol == "" then "grpc" else e.protocol,
           healthy := true)]]
    {
      if e.name == "" {
        return Some(NameRequired);
      }
      if e.address == "" {
        return Some(AddressRequired);
      }
      var added := e;
      if added.weight <= 0 {
        added := added.(weight := 1);
      }
      if added.protocol == "" {
        added := added.(protocol := "grpc");
      }
      added := added.(healthy := true);
      endpoints := endpoints[e.name := Of(e.name) + [added]];
      err := None;
    }

    method Unregister(name: string, address: string)
      requires Valid()
      modifies this
      ensures Valid()
      ensures var eps := old(Of(name)); var k := FirstAt(eps, address, 0);
        endpoints == if k < |eps| then old(endpoints)[name := eps[..k] + eps[k + 1..]] else old(endpoints)
    {
      var eps := Of(name);
      for i := 0 to |eps|
        invariant endpoints == old(endpoints)
        invariant FirstAt(eps, address, 0) == FirstAt(eps, address, i)
      {
        if eps[i].address == address {
          endpoints := endpoints[name := eps[..i] + eps[i + 1..]];
          return;
        }
      }
    }

    method SetHealthy(name: string, address: string, healthy: bool)
      requires Valid()
      modifies this
      ensures Valid()
      ensures var eps := old(Of(name)); var k := FirstAt(eps, address, 0);
        endpoints == if k < |eps| then old(endpoints)[name := eps[k := eps[k].(healthy := healthy)]] else old(endpoints)
    {
      var eps := Of(name);
      for i := 0 to |eps|
        invariant endpoints == old(endpoints)
        invariant FirstAt(eps, address, 0) == FirstAt(eps, address, i)
      {
        if eps[i].address == address {
          endpoints := endpoints[name := eps[i := eps[i].(healthy := healthy)]];
          return;
        }
      }
    }

    method GetHealthyEndpoints(name: string) returns (result: seq<Endpoint>)
      ensures result == HealthyOf(Of(name))
    {
      var eps := Of(name);
      result := [];
      for i := 0 to |eps|
        invariant result == HealthyOf(eps[..i])
      {
        assert eps[..i + 1][..i] == eps[..i];
        if eps[i].healthy {
          result := result + [eps[i]];
        }
      }
      assert eps[..|eps|] == eps;
    }
  }

  // ---- round robin ----

  type Counters = map<string, nat>

  function CounterOf(cs: Counters, engine: string): nat {
    if engine in cs then cs[engine] else 0
  }

  // One call, and how many healthy endpoints the engine has at the time.
  datatype Call = Call(engine: string, size: nat)

  // The counter moves on before it is used as an index, in range or not.
  function Advance(cs: Counters, c: Call): Counters {
    if c.size == 0 then cs else cs[c.engine := (CounterOf(cs, c.engine) + 1) % c.size]
  }

  function RunCalls(cs: Counters, calls: seq<Call>): Counters {
    if calls == [] then cs else Advance(RunCalls(cs, calls[..|calls| - 1]), calls[|calls| - 1])
  }

  // The indices used on an engine, in order.
  function Picks(cs: Counters, calls: seq<Call>, engine: string): seq<nat> {
    if calls == [] then []
    else
      var before, c := calls[..|calls| - 1], calls[|calls| - 1];
      if c.engine == engine && c.size > 0
      then Picks(cs, before, engine) + [CounterOf(RunCalls(cs, before), engine)]
      else Picks(cs, before, engine)
  }

  predicate Steady(calls: seq<Call>, engine: string, k: nat) {
    forall c | c in calls && c.engine == engine :: c.size == k
  }

  lemma ModuloUnique(n: nat, k: nat, q: nat, r: nat)
    requires n == q * k + r && r < k
    ensures n / k == q && n % k == r
  {
    var d, w: int := n / k - q, k;
    assert d * w == r - n % k;
    assert d > 0 ==> d * w >= w;
    assert d < 0 ==> d * w <= -w;
  }

  lemma NextModulo(n: nat, k: nat)
    requires k > 0
    ensures (n % k + 1) % k == (n + 1) % k
    ensures (n + 1) % k == if n % k + 1 == k then 0 else n % k + 1
    ensures (n + 1) / k == if n % k + 1 == k then n / k + 1 else n / k
  {
    var q, r := n / k, n % k;
    if r + 1 == k {
      assert (q + 1) * k == q * k + k;
      ModuloUnique(n + 1, k, q + 1, 0);
      ModuloUnique(r + 1, k, 1, 0);
    } else {
      ModuloUnique(n + 1, k, q, r + 1);
      ModuloUnique(r + 1, k, 0, r + 1);
    }
  }

  lemma AddModulo(a: nat, b: nat, k: nat)
    requires k > 0
    ensures (a + b) % k == (a % k + b) % k
  {
    var q, q', r' := a / k, (a % k + b) / k, (a % k + b) % k;
    assert (q + q') * k == q * k + q' * k;
    ModuloUnique(a + b, k, q + q', r');
  }

  // While an engine keeps k healthy endpoints, its picks go round, whatever the calls for
  // other engines.
  lemma {:induction false} PicksGoRound(cs: Counters, calls: seq<Call>, engine: string, k: nat)
    requires k > 0 && CounterOf(cs, engine) < k && Steady(calls, engine, k)
    ensures var picks := Picks(cs, calls, engine);
      && (forall m | 0 <= m < |picks| :: picks[m] == (CounterOf(cs, engine) + m) % k)
      && CounterOf(RunCalls(cs, calls), engine) == (CounterOf(cs, engine) + |picks|) % k
  {
    if calls == [] {
      ModuloUnique(CounterOf(cs, engine), k, 0, CounterOf(cs, engine));
    } else {
      var before, c := calls[..|calls| - 1], calls[|calls| - 1];
      assert c in calls;
      PicksGoRound(cs, before, engine, k);
      if c.engine == engine {
        NextModulo(CounterOf(cs, engine) + |Picks(cs, before, engine)|, k);
      }
    }
  }

  function CountOf(s: seq<nat>, x: nat): nat {
    if s == [] then 0 else CountOf(s[..|s| - 1], x) + (if s[|s| - 1] == x then 1 else 0)
  }

  lemma OffsetModulo(c: nat, i: nat, k: nat, m: nat)
    requires c < k && i < k
    ensures (c + m) % k == i <==> m % k == (i + k - c) % k
  {
    AddModulo(m, c, k);
    assert c + m == m + c;
    SmallModulo(m % k + c, k);
    SmallModulo(i + k - c, k);
  }

  lemma SmallModulo(x: nat, k: nat)
    requires x < 2 * k
    ensures x % k == if x < k then x else x - k
  {
    if x < k {
      ModuloUnique(x, k, 0, x);
    } else {
      ModuloUnique(x, k, 1, x - k);
    }
  }

  lemma {:induction false} CountGoingRound(s: seq<nat>, c: nat, k: nat, i: nat)
    requires c < k && i < k && forall m | 0 <= m < |s| :: s[m] == (c + m) % k
    ensures CountOf(s, i) == |s| / k + (if (i + k - c) % k < |s| % k then 1 else 0)
  {
    if s == [] {
      ModuloUnique(0, k, 0, 0);
    } else {
      var n := |s| - 1;
      CountGoingRound(s[..n], c, k, i);
      OffsetModulo(c, i, k, n);
      NextModulo(n, k);
    }
  }

  // After any number of calls, each endpoint has had its share, rounded down or up.
  lemma {:induction false} FairShares(cs: Counters, calls: seq<Call>, engine: string, k: nat, i: nat)
    requires i < k && CounterOf(cs, engine) < k && Steady(calls, engine, k)
    ensures var picks := Picks(cs, calls, engine); var n := CountOf(picks, i);
      n == |picks| / k || (n == |picks| / k + 1 && |picks| % k != 0)
  {
    PicksGoRound(cs, calls, engine, k);
    CountGoingRound(Picks(cs, calls, engine), CounterOf(cs, engine), k, i);
  }

  // Any k picks in a row take every endpoint once.
  lemma {:induction false} OnceARound(cs: Counters, calls: seq<Call>, engine: string, k: nat, from: nat, i: nat)
    requires i < k && CounterOf(cs, engine) < k && Steady(calls, engine, k)
    requires from + k <= |Picks(cs, calls, engine)|
    ensures CountOf(Picks(cs, calls, engine)[from..from + k], i) == 1
  {
    PicksGoRound(cs, calls, engine, k);
    var c := CounterOf(cs, engine);
    var s := Picks(cs, calls, engine)[from..from + k];
    forall m | 0 <= m < |s|
      ensures s[m] == ((c + from) % k + m) % k
    {
      AddModulo(c + from, m, k);
      assert c + (from + m) == c + from + m;
    }
    CountGoingRound(s, (c + from) % k, k, i);
    ModuloUnique(k, k, 1, 0);
  }

  // How many endpoints the last call on an engine found, if any did find some.
  function LastSize(calls: seq<Call>, engine: string): nat {
    if calls == [] then 0
    else
      var c := calls[|calls| - 1];
      if c.engine == engine && c.size > 0 then c.size else LastSize(calls[..|calls| - 1], engine)
  }

  lemma {:induction false} CounterBelowLastSize(calls: seq<Call>, engine: string)
    ensures var k, n := LastSize(calls, engine), CounterOf(RunCalls(map[], calls), engine);
      if k == 0 then n == 0 else n < k
  {
    if calls != [] {
      CounterBelowLastSize(calls[..|calls| - 1], engine);
    }
  }

  // The next index is in range, unless the healthy list has shrunk since the last call that
  // found endpoints.
  lemma {:induction false} InRangeUnlessShrunk(calls: seq<Call>, c: Call)
    requires c.size > 0 && LastSize(calls, c.engine) <= c.size
    ensures CounterOf(RunCalls(map[], calls), c.engine) < c.size
  {
    CounterBelowLastSize(calls, c.engine);
  }

  function Repeated(c: Call, n: nat): seq<Call> {
    if n == 0 then [] else Repeated(c, n - 1) + [c]
  }

  lemma {:induction false} RepeatedPicks(c: Call, n: nat)
    requires c.size > 0
    ensures Steady(Repeated(c, n), c.engine, c.size) && |Picks(map[], Repeated(c, n), c.engine)| == n
    ensures n > 0 ==> LastSize(Repeated(c, n), c.engine) == c.size
  {
    if n > 0 {
      RepeatedPicks(c, n - 1);
      assert Repeated(c, n)[..|Repeated(c, n)| - 1] == Repeated(c, n - 1);
    }
  }

  // When the last call to find endpoints found k, a call on m is in range whatever came
  // before exactly if m is no less.
  lemma InRangeIff(engine: string, k: nat, m: nat)
    requires k > 0 && m > 0
    ensures (forall calls | LastSize(calls, engine) == k :: CounterOf(RunCalls(map[], calls), engine) < m) <==> k <= m
  {
    if k <= m {
      forall calls | LastSize(calls, engine) == k
        ensures CounterOf(RunCalls(map[], calls), engine) < m
      {
        CounterBelowLastSize(calls, engine);
      }
    } else {
      var calls := Repeated(Call(engine, k), 2 * k - 1);
      RepeatedPicks(Call(engine, k), 2 * k - 1);
      PicksGoRound(map[], calls, engine, k);
      SmallModulo(2 * k - 1, k);
      assert LastSize(calls, engine) == k && CounterOf(RunCalls(map[], calls), engine) == k - 1;
    }
  }

  datatype Choice = Picked(endpoint: Endpoint) | NoHealthyEndpoints | IndexOutOfRange

  function PickEach(eps: seq<Endpoint>): seq<Choice> {
    seq(|eps|, i requires 0 <= i < |eps| => Picked(eps[i]))
  }

  // The i-th index of k, going round from c.
  function Around(c: nat, i: nat, k: nat): nat {
    if c + i < k then c + i else c + i - k
  }

  lemma AroundNext(c: nat, i: nat, k: nat)
    requires c < k && i < k
    ensures Around(c, i, k) < k && (Around(c, i, k) + 1) % k == Around(c, i + 1, k)
  {
    SmallModulo(Around(c, i, k) + 1, k);
  }

  lemma Swapped(a: seq<Choice>, b: seq<Choice>)
    ensures multiset(a + b) == multiset(b + a)
  {
  }

  // Going round from c, every endpoint is picked once.
  lemma GoingRoundPicksEach(eps: seq<Endpoint>, c: nat, rs: seq<Choice>)
    requires c < |eps| == |rs| && forall i | 0 <= i < |eps| :: rs[i] == Picked(eps[Around(c, i, |eps|)])
    ensures multiset(rs) == multiset(PickEach(eps))
  {
    var all, k := PickEach(eps), |eps|;
    assert rs == all[c..] + all[..c];
    assert all == all[..c] + all[c..];
    Swapped(all[..c], all[c..]);
  }

  class RoundRobinLoadBalancer {
    const registry: Registry
    var counters: Counters

    constructor (registry: Registry)
      ensures this.registry == registry && counters == map[]
    {
      this.registry, counters := registry, map[];
    }

    method Next(engine: string) returns (r: Choice)
      modifies this
      ensures var eps, k := HealthyOf(registry.Of(engine)), old(CounterOf(counters, engine));
        r == if |eps| == 0 then NoHealthyEndpoints else if k < |eps| then Picked(eps[k]) else IndexOutOfRange
      ensures counters == Advance(old(counters), Call(engine, |HealthyOf(registry.Of(engine))|))
    {
      var eps := registry.GetHealthyEndpoints(engine);
      if |eps| == 0 {
        return NoHealthyEndpoints;
      }
      var counter := if engine in counters then counters[engine] else 0;
      counters := counters[engine := (counter + 1) % |eps|];
      r := if counter < |eps| then Picked(eps[counter]) else IndexOutOfRange;
    }

    // As many calls in a row as the engine has healthy endpoints, and no change to the
    // registry meanwhile: every endpoint is returned once.
    method NextRound(engine: string) returns (rs: seq<Choice>)
      requires CounterOf(counters, engine) < |HealthyOf(registry.Of(engine))|
      modifies this
      ensures var eps := HealthyOf(registry.Of(engine));
        && |rs| == |eps| && multiset(rs) == multiset(seq(|eps|, i requires 0 <= i < |eps| => Picked(eps[i])))
        && CounterOf(counters, engine) == old(CounterOf(counters, engine))
      ensures forall other | other != engine :: CounterOf(counters, other) == old(CounterOf(counters, other))
    {
      ghost var c, k := CounterOf(counters, engine), |HealthyOf(registry.Of(engine))|;
      var healthy := registry.GetHealthyEndpoints(engine);
      rs := [];
      for i := 0 to |healthy|
        invariant |rs| == i && CounterOf(counters, engine) == Around(c, i, k)
        invariant forall j | 0 <= j < i :: rs[j] == Picked(healthy[Around(c, j, k)])
        invariant forall other | other != engine :: CounterOf(counters, other) == old(CounterOf(counters, other))
      {
        AroundNext(c, i, k);
        var r := Next(engine);
        rs := rs + [r];
      }
      GoingRoundPicksEach(healthy, c, rs);
      assert PickEach(healthy) == seq(|healthy|, i requires 0 <= i < |healthy| => Picked(healthy[i]));
    }
  }

  method RegisterTwo(a: Endpoint, b: Endpoint) returns (registry: Registry)
    requires a.name == b.name != "" && a.address != "" && b.address != ""
    ensures fresh(registry) && registry.Valid() && |registry.Of(a.name)| == 2
    ensures registry.Of(a.name)[0].healthy && registry.Of(a.name)[0].address == a.address
    ensures registry.Of(a.name)[1].healthy && registry.Of(a.name)[1].address == b.address
  {
    registry := new Registry();
    var first := registry.Register(a);
    var second := registry.Register(b);
  }

  // Two endpoints, one call, and then the first turns unhealthy: the next call indexes
  // past the end.
  method ShrinkingListPanics(a: Endpoint, b: Endpoint) returns (r: Choice)
    requires a.name == b.name != "" && a.address != "" && b.address != ""
    ensures r == IndexOutOfRange
  {
    var registry := RegisterTwo(a, b);
    var balancer := new RoundRobinLoadBalancer(registry);
    HealthyOfTwo(registry.Of(a.name));
    var first := balancer.Next(a.name);
    registry.SetHealthy(a.name, a.address, false);
    HealthyOfTwo(registry.Of(a.name));
    r := balancer.Next(a.name);
  }

  lemma HealthyOfTwo(eps: seq<Endpoint>)
    requires |eps| == 2
    ensures |HealthyOf(eps)| == (if eps[0].healthy then 1 else 0) + (if eps[1].healthy then 1 else 0)
  {
    assert HealthyOf(eps[..1][..0]) == [];
    assert |HealthyOf(eps[..1])| == if eps[0].healthy then 1 else 0;
  }

  // ---- weighted ----

  function Sum(eps: seq<Endpoint>): int {
    if eps == [] then 0 else Sum(eps[..|eps| - 1]) + eps[|eps| - 1].weight
  }

  predicate PositiveWeights(eps: seq<Endpoint>) {
    forall i | 0 <= i < |eps| :: eps[i].weight >= 1
  }

  // Where the subtraction of weights brings pick below zero, from endpoint i on.
  function Select(eps: seq<Endpoint>, pick: int, i: nat): Option<nat>
    requires i <= |eps|
    decreases |eps| - i
  {
    if i == |eps| then None
    else if pick - eps[i].weight < 0 then Some(i)
    else Select(eps, pick - eps[i].weight, i + 1)
  }

  lemma {:induction false} SelectIsInterval(eps: seq<Endpoint>, pick: int, i: nat, j: nat)
    requires PositiveWeights(eps) && i <= |eps| && j < |eps| && pick >= 0
    ensures Select(eps, pick, i) == Some(j) <==> i <= j && Sum(eps[..j]) <= Sum(eps[..i]) + pick < Sum(eps[..j + 1])
    decreases |eps| - i
  {
    if i < |eps| {
      assert eps[..i + 1][..i] == eps[..i];
      if pick - eps[i].weight >= 0 {
        SelectIsInterval(eps, pick - eps[i].weight, i + 1, j);
        if j < i { SumsGrow(eps, j + 1, i); }
      } else if i < j {
        SumsGrow(eps, i + 1, j);
      }
    } else {
      SumsGrow(eps, j + 1, i);
    }
  }

  lemma {:induction false} SumsGrow(eps: seq<Endpoint>, i: nat, j: nat)
    requires PositiveWeights(eps) && i <= j <= |eps|
    ensures Sum(eps[..i]) <= Sum(eps[..j])
    decreases j - i
  {
    if i < j {
      assert eps[..j][..j - 1] == eps[..j - 1];
      SumsGrow(eps, i, j - 1);
    }
  }

  // The loop always ends at an endpoint: the fallback is never used.
  lemma {:induction false} SelectFinds(eps: seq<Endpoint>, pick: int, i: nat)
    requires i <= |eps| && pick < Sum(eps) - Sum(eps[..i])
    ensures pick >= 0 ==> Select(eps, pick, i).Some? && i <= Select(eps, pick, i).value < |eps|
    decreases |eps| - i
  {
    if i < |eps| {
      assert eps[..i + 1][..i] == eps[..i];
      SelectFinds(eps, pick - eps[i].weight, i + 1);
    } else {
      assert eps[..i] == eps;
    }
  }

  // How many of the first n values of pick select endpoint j.
  ghost function Hits(eps: seq<Endpoint>, j: nat, n: nat): nat {
    if n == 0 then 0 else Hits(eps, j, n - 1) + (if Select(eps, n - 1, 0) == Some(j) then 1 else 0)
  }

  lemma {:induction false} HitsInInterval(eps: seq<Endpoint>, j: nat, n: nat)
    requires PositiveWeights(eps) && j < |eps|
    ensures var lo := Sum(eps[..j]);
      Hits(eps, j, n) == if n <= lo then 0 else if n <= lo + eps[j].weight then n - lo else eps[j].weight
  {
    assert eps[..j + 1][..j] == eps[..j] && eps[..0] == [];
    SumsGrow(eps, 0, j);
    if n > 0 {
      HitsInInterval(eps, j, n - 1);
      SelectIsInterval(eps, n - 1, 0, j);
    }
  }

  // Of all values of pick below the total weight, each endpoint is selected by exactly as
  // many as its weight.
  lemma SharesAreWeights(eps: seq<Endpoint>, j: nat)
    requires PositiveWeights(eps) && j < |eps|
    ensures Sum(eps) >= 0 && Hits(eps, j, Sum(eps)) == eps[j].weight
  {
    assert eps[..j + 1][..j] == eps[..j] && eps[..|eps|] == eps && eps[..0] == [];
    SumsGrow(eps, 0, j);
    SumsGrow(eps, j + 1, |eps|);
    HitsInInterval(eps, j, Sum(eps));
  }

  lemma {:induction false} HealthyKeepsWeights(eps: seq<Endpoint>)
    requires PositiveWeights(eps)
    ensures PositiveWeights(HealthyOf(eps)) && (HealthyOf(eps) != [] ==> Sum(HealthyOf(eps)) > 0)
  {
    if eps != [] {
      HealthyKeepsWeights(eps[..|eps| - 1]);
      var h := HealthyOf(eps);
      if h != [] {
        SumsGrow(h, 0, |h| - 1);
        assert h[..0] == [] && h[..|h|] == h;
      }
    }
  }

  // ---- but not of all calls ----

  function Chosen(eps: seq<Endpoint>, pick: nat): (j: nat)
    requires pick < Sum(eps)
    ensures j < |eps| && Select(eps, pick, 0) == Some(j)
  {
    SelectFinds(eps, pick, 0);
    assert eps[..0] == [];
    Select(eps, pick, 0).value
  }

  // The endpoints of m calls in a row, while the list stays: the hash is the same each time.
  function PicksInARow(eps: seq<Endpoint>, pick: nat, m: nat): (js: seq<nat>)
    requires pick < Sum(eps)
    ensures |js| == m && forall i | 0 <= i < m :: js[i] < |eps|
  {
    if m == 0 then [] else PicksInARow(eps, pick, m - 1) + [Chosen(eps, pick)]
  }

  lemma {:induction false} OnePickedAlways(eps: seq<Endpoint>, pick: nat, m: nat, j: nat)
    requires pick < Sum(eps)
    ensures CountOf(PicksInARow(eps, pick, m), j) == if j == Chosen(eps, pick) then m else 0
  {
    if m > 0 {
      OnePickedAlways(eps, pick, m - 1, j);
      assert PicksInARow(eps, pick, m)[..|PicksInARow(eps, pick, m)| - 1] == PicksInARow(eps, pick, m - 1);
    }
  }

  // n of m calls are less than one call off the share of a weight in the total.
  predicate Proportional(n: int, m: int, weight: int, total: int) {
    -total < n * total - m * weight < total
  }

  lemma NoneOfTotalIsUnfair(total: int, weight: int)
    requires total > 0 && weight >= 1
    ensures !Proportional(0, total, weight, total)
  {
    assert total * weight - total == total * (weight - 1) >= 0;
  }

  // The shares of the calls follow the weights only if there is nothing to share.
  lemma CallsFollowWeightsIff(eps: seq<Endpoint>, pick: nat)
    requires PositiveWeights(eps) && pick < Sum(eps)
    ensures (forall m: nat, j: nat | j < |eps| ::
               Proportional(CountOf(PicksInARow(eps, pick, m), j), m, eps[j].weight, Sum(eps)))
       <==> |eps| == 1
  {
    var total := Sum(eps);
    if |eps| == 1 {
      assert eps[..0] == [] && total == eps[0].weight;
      forall m: nat, j: nat | j < |eps|
        ensures Proportional(CountOf(PicksInARow(eps, pick, m), j), m, eps[j].weight, total)
      {
        OnePickedAlways(eps, pick, m, j);
      }
    } else {
      var j: nat := if Chosen(eps, pick) == 0 then 1 else 0;
      OnePickedAlways(eps, pick, total, j);
      NoneOfTotalIsUnfair(total, eps[j].weight);
      assert !Proportional(CountOf(PicksInARow(eps, pick, total), j), total, eps[j].weight, total);
    }
  }

  class WeightedLoadBalancer {
    const registry: Registry
    // The 32-bit hash of an engine's name followed by the number of its endpoints.
    const hash: (string, nat) -> nat

    constructor (registry: Registry, hash: (string, nat) -> nat)
      ensures this.registry == registry && this.hash == hash
    {
      this.registry, this.hash := registry, hash;
    }

    // The choice is settled by the engine and its healthy list: it only changes when they do.
    method Next(engine: string) returns (r: Choice)
      requires registry.Valid()
      ensures var eps := HealthyOf(registry.Of(engine));
        if eps == [] then r == NoHealthyEndpoints
        else
          && Sum(eps) > 0
          && r == Picked(eps[Chosen(eps, hash(engine, |eps|) % Sum(eps))])
    {
      var eps := registry.GetHealthyEndpoints(engine);
      if |eps| == 0 {
        return NoHealthyEndpoints;
      }
      HealthyKeepsWeights(registry.Of(engine));
      var totalWeight := 0;
      for i := 0 to |eps|
        invariant totalWeight == Sum(eps[..i])
      {
        assert eps[..i + 1][..i] == eps[..i];
        totalWeight := totalWeight + eps[i].weight;
      }
      assert eps[..|eps|] == eps;
      var pick, fallback := hash(engine, |eps|) % totalWeight, eps[0];
      SelectFinds(eps, pick, 0);
      ghost var chosen := Select(eps, pick, 0);
      for i := 0 to |eps|
        invariant Select(eps, pick, i) == chosen
      {
        pick := pick - eps[i].weight;
        if pick < 0 {
          return Picked(eps[i]);
        }
      }
      r := Picked(fallback);
    }

    // m calls in a row, while the registry stays as it is.
    method NextInARow(engine: string, m: nat) returns (picks: seq<Choice>)
      requires registry.Valid() && HealthyOf(registry.Of(engine)) != []
      ensures var eps := HealthyOf(registry.Of(engine));
        && |picks| == m && Sum(eps) > 0
        && var js := PicksInARow(eps, hash(engine, |eps|) % Sum(eps), m);
           forall i | 0 <= i < m :: picks[i] == Picked(eps[js[i]])
    {
      ghost var eps := HealthyOf(registry.Of(engine));
      HealthyKeepsWeights(registry.Of(engine));
      ghost var pick := hash(engine, |eps|) % Sum(eps);
      picks := [];
      for k := 0 to m
        invariant |picks| == k
        invariant forall i | 0 <= i < k :: picks[i] == Picked(eps[PicksInARow(eps, pick, k)[i]])
      {
        var r := Next(engine);
        picks := picks + [r];
      }
    }
  }
}
