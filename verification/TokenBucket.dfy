// ratelimit/ratelimit.go, TokenBucket: a lazily refilled bucket per key.
module TokenBucketLimiter {
  import opened History
  import opened Numbers

  // Tokens per second, and the most a bucket holds.
  datatype Config = Config(rate: real, capacity: int)

  datatype Bucket = Bucket(tokens: real, lastRefill: int)

  type Store = map<string, Bucket>

  // One call, with the clock readings it takes, in nanoseconds. AllowN reads the clock
  // a first time (created) only when it has to make a bucket.
  datatype Event =
    | AllowN(key: string, n: int, created: int, now: int)
    | Remaining(key: string, now: int)

  // The tokens that accrue between two clock readings; the rate is per second.
  function Accrued(c: Config, from: int, to: int): real {
    c.rate * (to - from) as real / 1_000_000_000.0
  }

  function Refill(c: Config, b: Bucket, now: int): Bucket {
    var tokens := b.tokens + Accrued(c, b.lastRefill, now);
    Bucket(if tokens > c.capacity as real then c.capacity as real else tokens, now)
  }

  function Fetch(c: Config, s: Store, key: string, created: int): Bucket {
    if key in s then s[key] else Bucket(c.capacity as real, created)
  }

  predicate Decide(c: Config, s: Store, e: Event)
    requires e.AllowN?
  {
    Refill(c, Fetch(c, s, e.key, e.created), e.now).tokens >= e.n as real
  }

  function Apply(c: Config, s: Store, e: Event): Store {
    match e
    case Remaining(_, _) => s
    case AllowN(key, n, created, now) =>
      var b := Refill(c, Fetch(c, s, key, created), now);
      s[key := if b.tokens >= n as real then b.(tokens := b.tokens - n as real) else b]
  }

  function RemainingAt(c: Config, s: Store, key: string, now: int): int {
    if key in s then Truncate(Refill(c, s[key], now).tokens) else c.capacity
  }

  // ---- whole runs ----

  function Run(c: Config, evs: seq<Event>): Store {
    if evs == [] then map[] else Apply(c, Run(c, evs[..|evs| - 1]), evs[|evs| - 1])
  }

  // Everything granted on a key, oldest first.
  function Grants(c: Config, evs: seq<Event>, key: string): seq<Grant> {
    if evs == [] then []
    else
      var before, e := evs[..|evs| - 1], evs[|evs| - 1];
      if e.AllowN? && e.key == key && Decide(c, Run(c, before), e)
      then Grants(c, before, key) + [Grant(e.now, e.n)]
      else Grants(c, before, key)
  }

  // How many calls were granted, on all keys.
  function GrantCount(c: Config, evs: seq<Event>): nat {
    if evs == [] then 0
    else
      var before, e := evs[..|evs| - 1], evs[|evs| - 1];
      GrantCount(c, before) + (if e.AllowN? && Decide(c, Run(c, before), e) then 1 else 0)
  }

  lemma {:induction false} GrantsAreCalls(c: Config, evs: seq<Event>)
    ensures GrantCount(c, evs) <= |evs|
  {
    if evs != [] {
      GrantsAreCalls(c, evs[..|evs| - 1]);
    }
  }

  function Began(e: Event): int {
    if e.AllowN? then e.created else e.now
  }

  // The clock never goes back, within a call or from one call to the next.
  predicate ClockMonotone(evs: seq<Event>) {
    && (forall i | 0 <= i < |evs| :: Began(evs[i]) <= evs[i].now)
    && (forall i, j | 0 <= i < j < |evs| :: evs[i].now <= Began(evs[j]))
  }

  predicate NotBefore(evs: seq<Event>, t: int) {
    forall i | 0 <= i < |evs| :: evs[i].now <= t
  }

  // ---- the arrival curve, over the unabridged history ----

  // What grant j and everything after it leave free at time t.
  function Headroom(c: Config, h: seq<Grant>, j: nat, t: int): real
    requires j < |h|
  {
    c.capacity as real + Accrued(c, h[j].at, t) - Total(h[j..]) as real
  }

  predicate Admissible(c: Config, h: seq<Grant>, n: int, t: int) {
    && n <= c.capacity
    && forall j: nat | j < |h| :: n as real <= Headroom(c, h, j, t)
  }

  // x is below every headroom and meets one of them, or is the capacity.
  ghost predicate Tight(c: Config, h: seq<Grant>, t: int, x: real) {
    && (forall j: nat | j < |h| :: x <= Headroom(c, h, j, t))
    && (x == c.capacity as real || exists j: nat :: j < |h| && x == Headroom(c, h, j, t))
  }

  // The rate is per second, the clock in nanoseconds.
  lemma AccruedPerSecond(c: Config, from: int, to: int)
    ensures Accrued(c, from, to) == c.rate * (to - from) as real / 1_000_000_000.0
  {
  }

  lemma AccruedSplits(c: Config, s: int, t: int, u: int)
    ensures Accrued(c, s, u) == Accrued(c, s, t) + Accrued(c, t, u)
  {
    var a, b := (t - s) as real, (u - t) as real;
    assert (u - s) as real == a + b;
    assert c.rate * (a + b) == c.rate * a + c.rate * b;
  }

  lemma AccruedGrows(c: Config, s: int, t: int)
    requires c.rate >= 0.0 && s <= t
    ensures Accrued(c, s, t) >= 0.0
  {
    assert c.rate * (t - s) as real >= 0.0;
  }

  // Refilling twice is refilling once.
  lemma RefillIsPathIndependent(c: Config, b: Bucket, t: int, u: int)
    requires c.rate >= 0.0 && t <= u
    ensures Refill(c, Refill(c, b, t), u) == Refill(c, b, u)
  {
    AccruedSplits(c, b.lastRefill, t, u);
    AccruedGrows(c, t, u);
  }

  lemma TightAdvances(c: Config, h: seq<Grant>, t: int, u: int, x: real)
    requires c.rate >= 0.0 && t <= u && Tight(c, h, t, x)
    ensures Tight(c, h, u, Refill(c, Bucket(x, t), u).tokens)
  {
    AccruedGrows(c, t, u);
    forall j: nat | j < |h|
      ensures Headroom(c, h, j, u) == Headroom(c, h, j, t) + Accrued(c, t, u)
    {
      AccruedSplits(c, h[j].at, t, u);
    }
  }

  lemma HeadroomAfterGrant(c: Config, h: seq<Grant>, g: Grant, j: nat)
    requires j <= |h|
    ensures Headroom(c, h + [g], j, g.at) ==
      (if j < |h| then Headroom(c, h, j, g.at) else c.capacity as real) - g.amount as real
  {
    TotalSnoc(h, g, j);
    if j == |h| {
      assert h[j..] == [];
    }
  }

  lemma TightAfterGrant(c: Config, h: seq<Grant>, g: Grant, x: real)
    requires Tight(c, h, g.at, x) && x <= c.capacity as real
    ensures Tight(c, h + [g], g.at, x - g.amount as real)
  {
    var y := x - g.amount as real;
    forall j: nat | j <= |h|
      ensures y <= Headroom(c, h + [g], j, g.at)
    {
      HeadroomAfterGrant(c, h, g, j);
    }
    if x == c.capacity as real {
      HeadroomAfterGrant(c, h, g, |h|);
      assert y == Headroom(c, h + [g], |h|, g.at);
    } else {
      var j: nat :| j < |h| && x == Headroom(c, h, j, g.at);
      HeadroomAfterGrant(c, h, g, j);
      assert y == Headroom(c, h + [g], j, g.at);
    }
  }

  lemma PrefixClock(evs: seq<Event>)
    requires evs != [] && ClockMonotone(evs)
    ensures ClockMonotone(evs[..|evs| - 1])
    ensures NotBefore(evs[..|evs| - 1], Began(evs[|evs| - 1]))
  {
    var n := |evs| - 1;
    assert forall i | 0 <= i < n :: evs[..n][i] == evs[i];
  }

  // The level of a bucket is exactly what the unabridged history leaves free.
  lemma {:induction false} LevelIsTight(c: Config, evs: seq<Event>, key: string, t: int)
    requires c.rate >= 0.0 && ClockMonotone(evs) && NotBefore(evs, t)
    ensures Tight(c, Grants(c, evs, key), t, Refill(c, Fetch(c, Run(c, evs), key, t), t).tokens)
    ensures key !in Run(c, evs) ==> Grants(c, evs, key) == []
  {
    if evs != [] {
      var before, e := evs[..|evs| - 1], evs[|evs| - 1];
      PrefixClock(evs);
      assert NotBefore(before, t) && NotBefore(before, e.now);
      LevelIsTight(c, before, key, t);
      if e.AllowN? && e.key == key {
        LevelIsTight(c, before, key, e.now);
        AbsentBucketIsFull(c, Run(c, before), e);
        var b := Refill(c, Fetch(c, Run(c, before), key, e.created), e.now);
        if Decide(c, Run(c, before), e) {
          TightAfterGrant(c, Grants(c, before, key), Grant(e.now, e.n), b.tokens);
        }
        TightAdvances(c, Grants(c, evs, key), e.now, t, Run(c, evs)[key].tokens);
      }
    }
  }

  // It does not matter that a missing bucket is dated before the refill that follows.
  lemma AbsentBucketIsFull(c: Config, s: Store, e: Event)
    requires c.rate >= 0.0 && e.AllowN? && e.created <= e.now
    ensures Refill(c, Fetch(c, s, e.key, e.created), e.now) == Refill(c, Fetch(c, s, e.key, e.now), e.now)
  {
    AccruedGrows(c, e.created, e.now);
  }

  lemma DecisionIsAdmissible(c: Config, evs: seq<Event>, e: Event)
    requires c.rate >= 0.0 && e.AllowN? && ClockMonotone(evs + [e])
    ensures Decide(c, Run(c, evs), e) <==> Admissible(c, Grants(c, evs, e.key), e.n, e.now)
  {
    assert (evs + [e])[..|evs|] == evs;
    PrefixClock(evs + [e]);
    assert NotBefore(evs, e.now);
    LevelIsTight(c, evs, e.key, e.now);
    AbsentBucketIsFull(c, Run(c, evs), e);
  }

  lemma HeadroomFits(c: Config, h: seq<Grant>, n: int, t: int)
    requires Admissible(c, h, n, t)
    ensures forall j: nat {:trigger Total(h[j..])} | j < |h| ::
      Total(h[j..]) as real + n as real <= c.capacity as real + c.rate * (t - h[j].at) as real / 1_000_000_000.0
  {
    forall j: nat | j < |h|
      ensures Total(h[j..]) as real + n as real <=
        c.capacity as real + c.rate * (t - h[j].at) as real / 1_000_000_000.0
    {
      assert n as real <= Headroom(c, h, j, t);
    }
  }

  lemma HeadroomExceeded(c: Config, h: seq<Grant>, n: int, t: int) returns (j: nat)
    requires !Admissible(c, h, n, t) && n <= c.capacity
    ensures j < |h| && Total(h[j..]) as real + n as real >
      c.capacity as real + c.rate * (t - h[j].at) as real / 1_000_000_000.0
  {
    j :| j < |h| && !(n as real <= Headroom(c, h, j, t));
  }

  lemma AdmissibleWrittenOut(c: Config, h: seq<Grant>, n: int, t: int, granted: bool)
    requires granted <==> Admissible(c, h, n, t)
    ensures granted <==>
      && n <= c.capacity
      && forall j: nat {:trigger Total(h[j..])} | j < |h| ::
           Total(h[j..]) as real + n as real <= c.capacity as real + c.rate * (t - h[j].at) as real / 1_000_000_000.0
  {
    if granted {
      HeadroomFits(c, h, n, t);
    } else if n <= c.capacity {
      var j := HeadroomExceeded(c, h, n, t);
    }
  }

  // Exactness: a call is granted if and only if it fits the capacity, and, together with
  // every earlier grant and all after that one, what the capacity and the rate allow.
  lemma DecisionIsExact(c: Config, evs: seq<Event>, e: Event)
    requires c.rate >= 0.0 && e.AllowN? && ClockMonotone(evs + [e])
    ensures var h := Grants(c, evs, e.key);
      Decide(c, Run(c, evs), e) <==>
        && e.n <= c.capacity
        && forall j: nat {:trigger Total(h[j..])} | j < |h| ::
             Total(h[j..]) as real + e.n as real <=
               c.capacity as real + c.rate * (e.now - h[j].at) as real / 1_000_000_000.0
  {
    DecisionIsAdmissible(c, evs, e);
    AdmissibleWrittenOut(c, Grants(c, evs, e.key), e.n, e.now, Decide(c, Run(c, evs), e));
  }

  // A bucket left alone for a second gains the rate, up to the capacity.
  lemma SecondGainsRate(c: Config, b: Bucket)
    ensures Refill(c, b, b.lastRefill + 1_000_000_000).tokens ==
      if b.tokens + c.rate > c.capacity as real then c.capacity as real else b.tokens + c.rate
  {
    assert c.rate * 1_000_000_000.0 / 1_000_000_000.0 == c.rate;
  }

  // ---- consequences ----

  predicate Paced(c: Config, h: seq<Grant>) {
    forall lo: nat, hi: nat | lo < hi <= |h| ::
      Total(h[lo..hi]) as real <= c.capacity as real + Accrued(c, h[lo].at, h[hi - 1].at)
  }

  lemma {:induction false} GrantsNotAfter(c: Config, evs: seq<Event>, key: string, t: int)
    requires NotBefore(evs, t)
    ensures forall g | g in Grants(c, evs, key) :: g.at <= t
  {
    if evs != [] {
      GrantsNotAfter(c, evs[..|evs| - 1], key, t);
    }
  }

  lemma PacedSnoc(c: Config, h: seq<Grant>, g: Grant)
    requires Paced(c, h) && Admissible(c, h, g.amount, g.at)
    requires Accrued(c, g.at, g.at) == 0.0
    ensures Paced(c, h + [g])
  {
    var h' := h + [g];
    forall lo: nat, hi: nat | lo < hi <= |h'|
      ensures Total(h'[lo..hi]) as real <= c.capacity as real + Accrued(c, h'[lo].at, h'[hi - 1].at)
    {
      if hi <= |h| {
        assert h'[lo..hi] == h[lo..hi];
      } else {
        TotalSnoc(h, g, lo);
        assert h'[lo..hi] == h'[lo..];
        if lo < |h| {
          assert g.amount as real <= Headroom(c, h, lo, g.at);
        }
      }
    }
  }

  lemma {:induction false} GrantsArePaced(c: Config, evs: seq<Event>, key: string)
    requires c.rate >= 0.0 && ClockMonotone(evs)
    ensures Paced(c, Grants(c, evs, key)) && Chronological(Grants(c, evs, key))
  {
    if evs != [] {
      var before, e := evs[..|evs| - 1], evs[|evs| - 1];
      PrefixClock(evs);
      GrantsArePaced(c, before, key);
      if e.AllowN? && e.key == key && Decide(c, Run(c, before), e) {
        assert evs == before + [e];
        DecisionIsAdmissible(c, before, e);
        PacedSnoc(c, Grants(c, before, key), Grant(e.now, e.n));
        assert NotBefore(before, e.now);
        GrantsNotAfter(c, before, key, e.now);
      }
    }
  }

  lemma AccruedWithin(c: Config, from: int, a: int, b: int, to: int)
    requires c.rate >= 0.0 && from <= a && b <= to
    ensures Accrued(c, a, b) <= Accrued(c, from, to)
  {
    AccruedSplits(c, from, a, to);
    AccruedSplits(c, a, b, to);
    AccruedGrows(c, from, a);
    AccruedGrows(c, b, to);
  }

  lemma AccruedInterval(c: Config, h: seq<Grant>, from: int, to: int)
    requires c.rate >= 0.0 && c.capacity >= 0 && from <= to && Paced(c, h) && Chronological(h)
    ensures GrantedWithin(h, from, to) as real <= c.capacity as real + Accrued(c, from, to)
  {
    var lo, hi := WithinIsContiguous(h, from, to);
    if lo < hi {
      assert h[lo] in h[lo..hi] && h[hi - 1] in h[lo..hi];
      AccruedWithin(c, from, h[lo].at, h[hi - 1].at, to);
    } else {
      assert h[lo..hi] == [];
      AccruedGrows(c, from, to);
    }
  }

  lemma IntervalOnKey(c: Config, evs: seq<Event>, key: string, from: int, to: int)
    requires c.rate >= 0.0 && c.capacity >= 0 && ClockMonotone(evs) && from <= to
    ensures GrantedWithin(Grants(c, evs, key), from, to) as real <= c.capacity as real + Accrued(c, from, to)
  {
    GrantsArePaced(c, evs, key);
    AccruedInterval(c, Grants(c, evs, key), from, to);
  }

  // No closed interval sees more than the capacity plus what accrues over its length.
  lemma IntervalBound(c: Config, evs: seq<Event>, key: string, from: int, to: int)
    requires c.rate >= 0.0 && c.capacity >= 0 && ClockMonotone(evs) && from <= to
    ensures GrantedWithin(Grants(c, evs, key), from, to) as real <=
      c.capacity as real + c.rate * (to - from) as real / 1_000_000_000.0
  {
    IntervalOnKey(c, evs, key, from, to);
    AccruedPerSecond(c, from, to);
  }

  lemma {:induction false} LevelIsNeverNegative(c: Config, evs: seq<Event>, key: string)
    requires c.rate >= 0.0 && c.capacity >= 0 && ClockMonotone(evs)
    ensures key in Run(c, evs) ==> Run(c, evs)[key].tokens >= 0.0
    ensures forall t | key in Run(c, evs) && NotBefore(evs, t) :: Run(c, evs)[key].lastRefill <= t
  {
    if evs != [] {
      var before, e := evs[..|evs| - 1], evs[|evs| - 1];
      PrefixClock(evs);
      LevelIsNeverNegative(c, before, key);
      assert NotBefore(before, Began(e));
      if e.AllowN? && e.key == key {
        var b := Fetch(c, Run(c, before), key, e.created);
        AccruedGrows(c, b.lastRefill, e.now);
      }
    }
  }

  // At one instant, a call for n succeeds exactly when Remaining answers at least n.
  lemma {:induction false} RemainingAgrees(c: Config, evs: seq<Event>, key: string, n: int, now: int)
    requires c.rate >= 0.0 && c.capacity >= 0 && ClockMonotone(evs) && NotBefore(evs, now)
    ensures Decide(c, Run(c, evs), AllowN(key, n, now, now)) <==> n <= RemainingAt(c, Run(c, evs), key, now)
  {
    LevelIsNeverNegative(c, evs, key);
    if key in Run(c, evs) {
      AccruedGrows(c, Run(c, evs)[key].lastRefill, now);
      assert Refill(c, Run(c, evs)[key], now).tokens >= 0.0;
    }
  }

  // A call that does not bear on key: a query, a call on another key, or a denied call.
  predicate Irrelevant(c: Config, s: Store, e: Event, key: string) {
    e.Remaining? || e.key != key || !Decide(c, s, e)
  }

  lemma DropOne(pre: seq<Event>, e: Event, post: seq<Event>)
    requires ClockMonotone(pre + [e] + post)
    ensures ClockMonotone(pre + post)
  {
    var all, cut := pre + [e] + post, pre + post;
    assert forall i | 0 <= i < |cut| :: cut[i] == all[if i < |pre| then i else i + 1];
  }

  lemma GrantsSnoc(c: Config, evs: seq<Event>, e: Event, key: string)
    ensures Grants(c, evs + [e], key) ==
      if e.AllowN? && e.key == key && Decide(c, Run(c, evs), e) then Grants(c, evs, key) + [Grant(e.now, e.n)]
      else Grants(c, evs, key)
  {
    assert (evs + [e])[..|evs|] == evs;
  }

  lemma {:induction false} SameGrantsWithout(c: Config, pre: seq<Event>, e: Event, post: seq<Event>, key: string)
    requires c.rate >= 0.0 && ClockMonotone(pre + [e] + post)
    requires Irrelevant(c, Run(c, pre), e, key)
    ensures Grants(c, pre + [e] + post, key) == Grants(c, pre + post, key)
  {
    DropOne(pre, e, post);
    if post == [] {
      assert pre + [e] + post == pre + [e] && pre + post == pre;
      GrantsSnoc(c, pre, e, key);
    } else {
      var p, last := post[..|post| - 1], post[|post| - 1];
      var all, cut := pre + [e] + p, pre + p;
      assert pre + [e] + post == all + [last] && pre + post == cut + [last];
      PrefixClock(all + [last]);
      assert (all + [last])[..|all|] == all;
      SameGrantsWithout(c, pre, e, p, key);
      GrantsSnoc(c, all, last, key);
      GrantsSnoc(c, cut, last, key);
      if last.AllowN? && last.key == key {
        DecisionIsAdmissible(c, all, last);
        DecisionIsAdmissible(c, cut, last);
      }
    }
  }

  // Deleting such a call from a run changes no later decision on key.
  lemma IrrelevantCallsDoNotMatter(c: Config, pre: seq<Event>, e: Event, post: seq<Event>, d: Event)
    requires c.rate >= 0.0 && d.AllowN? && ClockMonotone(pre + [e] + post + [d])
    requires Irrelevant(c, Run(c, pre), e, d.key)
    ensures Decide(c, Run(c, pre + [e] + post), d) <==> Decide(c, Run(c, pre + post), d)
  {
    var q := post + [d];
    assert pre + [e] + post + [d] == pre + [e] + q && pre + post + [d] == pre + q;
    DropOne(pre, e, q);
    PrefixClock(pre + [e] + q);
    assert (pre + [e] + q)[..|pre + [e] + q| - 1] == pre + [e] + post;
    SameGrantsWithout(c, pre, e, post, d.key);
    DecisionIsAdmissible(c, pre + [e] + post, d);
    DecisionIsAdmissible(c, pre + post, d);
  }

  // ---- the limiter itself ----

  class BucketState {
    var tokens: real
    var lastRefill: int

    constructor (tokens: real, lastRefill: int)
      ensures this.tokens == tokens && this.lastRefill == lastRefill
    {
      this.tokens, this.lastRefill := tokens, lastRefill;
    }

    ghost function Value(): Bucket
      reads this
    {
      Bucket(tokens, lastRefill)
    }

    method RefillTo(c: Config, now: int)
      modifies this
      ensures Value() == Refill(c, old(Value()), now)
    {
      tokens := tokens + Accrued(c, lastRefill, now);
      if tokens > c.capacity as real {
        tokens := c.capacity as real;
      }
      lastRefill := now;
    }

    method Take(n: int) returns (ok: bool)
      modifies this
      ensures ok <==> old(tokens) >= n as real
      ensures Value() == if ok then old(Value()).(tokens := old(tokens) - n as real) else old(Value())
    {
      ok := tokens >= n as real;
      if ok {
        tokens := tokens - n as real;
      }
    }
  }

  class TokenBucket {
    const config: Config
    var buckets: map<string, BucketState>
    ghost var states: set<BucketState>  // all of them

    // No two keys share a bucket.
    ghost predicate Valid()
      reads this
    {
      && (forall k | k in buckets :: buckets[k] in states)
      && forall k, l | k in buckets && l in buckets && k != l :: buckets[k] != buckets[l]
    }

    ghost function View(): Store
      requires Valid()
      reads this, states
    {
      map k | k in buckets :: buckets[k].Value()
    }

    constructor (rate: real, capacity: int)
      ensures Valid() && config == Config(rate, capacity) && states == {}
      ensures View() == Run(config, [])
    {
      config := Config(rate, capacity);
      buckets, states := map[], {};
    }

    // The key's bucket, made full if there is none.
    method StateOf(key: string, created: int) returns (state: BucketState)
      requires Valid()
      modifies this
      ensures Valid() && key in buckets && buckets[key] == state
      ensures state.Value() == Fetch(config, old(View()), key, created)
      ensures forall b | b in states && b !in old(states) :: fresh(b)
      ensures View() == old(View())[key := Fetch(config, old(View()), key, created)]
    {
      if key in buckets {
        state := buckets[key];
      } else {
        state := new BucketState(config.capacity as real, created);
        buckets, states := buckets[key := state], states + {state};
      }
    }

    twostate lemma OneChanged(key: string)
      requires old(allocated(this)) && old(Valid()) && unchanged(this) && key in buckets
      requires forall state | state in states && state != buckets[key] :: unchanged(state)
      ensures View() == old(View())[key := buckets[key].Value()]
    {
      assert View().Keys == old(View())[key := buckets[key].Value()].Keys;
      forall k | k in buckets && k != key
        ensures View()[k] == old(View())[k]
      {
        assert buckets[k] in states && buckets[k] != buckets[key];
      }
    }

    method Allow(key: string, created: int, now: int) returns (ok: bool)
      requires Valid()
      modifies this, states
      ensures Valid() && forall b | b in states && b !in old(states) :: fresh(b)
      ensures ok <==> Decide(config, old(View()), Event.AllowN(key, 1, created, now))
      ensures View() == Apply(config, old(View()), Event.AllowN(key, 1, created, now))
    {
      ok := AllowN(key, 1, created, now);
    }

    method AllowN(key: string, n: int, created: int, now: int) returns (ok: bool)
      requires Valid()
      modifies this, states
      ensures Valid() && forall b | b in states && b !in old(states) :: fresh(b)
      ensures ok <==> Decide(config, old(View()), Event.AllowN(key, n, created, now))
      ensures View() == Apply(config, old(View()), Event.AllowN(key, n, created, now))
    {
      var state := StateOf(key, created);
      label Found:
      state.RefillTo(config, now);
      ok := state.Take(n);
      OneChanged@Found(key);
    }

    method Remaining(key: string, now: int) returns (r: int)
      requires Valid()
      ensures r == RemainingAt(config, View(), key, now)
    {
      if key !in buckets {
        return config.capacity;
      }
      var state := buckets[key];
      assert View()[key] == state.Value();
      var tokens := state.tokens + Accrued(config, state.lastRefill, now);
      if tokens > config.capacity as real {
        tokens := config.capacity as real;
      }
      r := Truncate(tokens);
    }
  }
}
