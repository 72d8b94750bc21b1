// ratelimit/ratelimit.go, SlidingWindow: a log of granted instants per key, compacted in
// place on every call.
module SlidingWindowLimiter {

  datatype Config = Config(limit: int, window: int)

  type Store = map<string, seq<int>>

  datatype Event =
    | AllowN(key: string, n: int, now: int)
    | Remaining(key: string, now: int)

  // The entries strictly after the cutoff.
  function After(log: seq<int>, cutoff: int): seq<int> {
    if log == [] then []
    else
      var t := log[|log| - 1];
      After(log[..|log| - 1], cutoff) + (if t > cutoff then [t] else [])
  }

  function Repeat(t: int, n: int): seq<int> {
    if n <= 0 then [] else Repeat(t, n - 1) + [t]
  }

  function LogOf(s: Store, key: string): seq<int> {
    if key in s then s[key] else []
  }

  function Cutoff(c: Config, e: Event): int {
    e.now - c.window
  }

  predicate Decide(c: Config, s: Store, e: Event)
    requires e.AllowN?
  {
    |After(LogOf(s, e.key), Cutoff(c, e))| + e.n <= c.limit
  }

  // Queries compact the log too.
  function Apply(c: Config, s: Store, e: Event): Store {
    var kept := After(LogOf(s, e.key), Cutoff(c, e));
    s[e.key := if e.AllowN? && Decide(c, s, e) then kept + Repeat(e.now, e.n) else kept]
  }

  function RemainingAt(c: Config, s: Store, key: string, now: int): int {
    var left := c.limit - |After(LogOf(s, key), now - c.window)|;
    if left < 0 then 0 else left
  }

  // ---- whole runs ----

  function Run(c: Config, evs: seq<Event>): Store {
    if evs == [] then map[] else Apply(c, Run(c, evs[..|evs| - 1]), evs[|evs| - 1])
  }

  // Every instant granted on a key, never pruned.
  function Granted(c: Config, evs: seq<Event>, key: string): seq<int> {
    if evs == [] then []
    else
      var before, e := evs[..|evs| - 1], evs[|evs| - 1];
      if e.AllowN? && e.key == key && Decide(c, Run(c, before), e)
      then Granted(c, before, key) + Repeat(e.now, e.n)
      else Granted(c, before, key)
  }

  predicate ClockMonotone(evs: seq<Event>) {
    forall i, j | 0 <= i < j < |evs| :: evs[i].now <= evs[j].now
  }

  lemma RunSnoc(c: Config, evs: seq<Event>, e: Event, key: string)
    ensures Run(c, evs + [e]) == Apply(c, Run(c, evs), e)
    ensures Granted(c, evs + [e], key) ==
      if e.AllowN? && e.key == key && Decide(c, Run(c, evs), e) then Granted(c, evs, key) + Repeat(e.now, e.n)
      else Granted(c, evs, key)
  {
    assert (evs + [e])[..|evs|] == evs;
  }

  lemma AfterTake(log: seq<int>, i: nat, cutoff: int)
    requires i < |log|
    ensures After(log[..i + 1], cutoff) == After(log[..i], cutoff) + (if log[i] > cutoff then [log[i]] else [])
  {
    assert log[..i + 1][..i] == log[..i];
  }

  lemma {:induction false} AfterConcat(a: seq<int>, b: seq<int>, cutoff: int)
    ensures After(a + b, cutoff) == After(a, cutoff) + After(b, cutoff)
  {
    if b == [] {
      assert a + b == a;
    } else {
      AfterConcat(a, b[..|b| - 1], cutoff);
      assert (a + b)[..|a + b| - 1] == a + b[..|b| - 1];
    }
  }

  lemma {:induction false} AfterTwice(log: seq<int>, first: int, second: int)
    requires first <= second
    ensures After(After(log, first), second) == After(log, second)
  {
    if log != [] {
      var p, t := log[..|log| - 1], log[|log| - 1];
      AfterTwice(p, first, second);
      if t > first {
        AfterConcat(After(p, first), [t], second);
        assert [t][..0] == [];
      } else {
        assert After(log, first) == After(p, first);
      }
    }
  }

  lemma {:induction false} AfterRepeat(t: int, n: int, cutoff: int)
    requires t > cutoff
    ensures After(Repeat(t, n), cutoff) == Repeat(t, n)
  {
    if n > 0 {
      AfterRepeat(t, n - 1, cutoff);
      assert Repeat(t, n)[..|Repeat(t, n)| - 1] == Repeat(t, n - 1);
    }
  }

  // From now on, the log and the unpruned history look the same.
  lemma {:induction false} LogAgreesWithHistory(c: Config, evs: seq<Event>, key: string, cutoff: int)
    requires ClockMonotone(evs) && forall i | 0 <= i < |evs| :: Cutoff(c, evs[i]) <= cutoff
    ensures After(LogOf(Run(c, evs), key), cutoff) == After(Granted(c, evs, key), cutoff)
  {
    if evs != [] {
      var before, e := evs[..|evs| - 1], evs[|evs| - 1];
      assert evs == before + [e];
      LogAgreesWithHistory(c, before, key, cutoff);
      if e.key == key {
        var log := LogOf(Run(c, before), key);
        AfterTwice(log, Cutoff(c, e), cutoff);
        AfterConcat(After(log, Cutoff(c, e)), Repeat(e.now, if e.AllowN? then e.n else 0), cutoff);
        AfterConcat(Granted(c, before, key), Repeat(e.now, if e.AllowN? then e.n else 0), cutoff);
      }
    }
  }

  lemma CutoffsAdvance(c: Config, evs: seq<Event>, e: Event)
    requires ClockMonotone(evs + [e])
    ensures ClockMonotone(evs) && forall i | 0 <= i < |evs| :: Cutoff(c, evs[i]) <= Cutoff(c, e)
  {
    var all := evs + [e];
    assert forall i | 0 <= i < |evs| :: all[i] == evs[i] && all[i].now <= all[|evs|].now;
  }

  // The log is exactly what was granted after the last cutoff applied to it.
  lemma LogIsRecentHistory(c: Config, evs: seq<Event>, e: Event)
    requires c.window > 0 && ClockMonotone(evs + [e])
    ensures Run(c, evs + [e])[e.key] == After(Granted(c, evs + [e], e.key), Cutoff(c, e))
  {
    RunSnoc(c, evs, e, e.key);
    var log := LogOf(Run(c, evs), e.key);
    CutoffsAdvance(c, evs, e);
    LogAgreesWithHistory(c, evs, e.key, Cutoff(c, e));
    if e.AllowN? && Decide(c, Run(c, evs), e) {
      AfterConcat(Granted(c, evs, e.key), Repeat(e.now, e.n), Cutoff(c, e));
      AfterRepeat(e.now, e.n, Cutoff(c, e));
    }
  }

  // Every decision is the one that the unpruned history calls for.
  lemma DecisionOnFullHistory(c: Config, evs: seq<Event>, e: Event)
    requires e.AllowN? && ClockMonotone(evs + [e])
    ensures Decide(c, Run(c, evs), e) <==> |After(Granted(c, evs, e.key), Cutoff(c, e))| + e.n <= c.limit
  {
    CutoffsAdvance(c, evs, e);
    LogAgreesWithHistory(c, evs, e.key, Cutoff(c, e));
  }

  // ---- consequences ----

  // How many entries lie in the half-open interval (from, to].
  function CountIn(log: seq<int>, from: int, to: int): nat {
    if log == [] then 0
    else CountIn(log[..|log| - 1], from, to) + (if from < log[|log| - 1] <= to then 1 else 0)
  }

  lemma {:induction false} CountInRepeat(log: seq<int>, t: int, n: int, from: int, to: int)
    ensures CountIn(log + Repeat(t, n), from, to) == CountIn(log, from, to) + (if from < t <= to && n > 0 then n else 0)
  {
    if n <= 0 {
      assert log + Repeat(t, n) == log;
    } else {
      CountInRepeat(log, t, n - 1, from, to);
      var s := log + Repeat(t, n);
      assert s[..|s| - 1] == log + Repeat(t, n - 1);
    }
  }

  lemma {:induction false} CountIsAfter(log: seq<int>, from: int, to: int)
    requires forall i | 0 <= i < |log| :: log[i] <= to
    ensures CountIn(log, from, to) == |After(log, from)|
  {
    if log != [] {
      CountIsAfter(log[..|log| - 1], from, to);
    }
  }

  lemma {:induction false} RepeatHas(t: int, n: int)
    ensures forall i | 0 <= i < |Repeat(t, n)| :: Repeat(t, n)[i] == t
  {
    if n > 0 {
      RepeatHas(t, n - 1);
    }
  }

  lemma {:induction false} GrantedBy(c: Config, evs: seq<Event>, key: string, now: int)
    requires forall i | 0 <= i < |evs| :: evs[i].now <= now
    ensures forall i | 0 <= i < |Granted(c, evs, key)| :: Granted(c, evs, key)[i] <= now
  {
    if evs != [] {
      var e := evs[|evs| - 1];
      GrantedBy(c, evs[..|evs| - 1], key, now);
      RepeatHas(e.now, if e.AllowN? then e.n else 0);
    }
  }

  // Exactness: a call is granted if and only if it fits the limit together with all that
  // was granted in the window before it, (now - window, now].
  lemma DecisionIsExact(c: Config, evs: seq<Event>, e: Event)
    requires e.AllowN? && ClockMonotone(evs + [e])
    ensures Decide(c, Run(c, evs), e) <==>
      CountIn(Granted(c, evs, e.key), e.now - c.window, e.now) + e.n <= c.limit
  {
    var all := evs + [e];
    assert forall i | 0 <= i < |evs| :: all[i] == evs[i] && all[i].now <= all[|evs|].now;
    DecisionOnFullHistory(c, evs, e);
    GrantedBy(c, evs, e.key, e.now);
    CountIsAfter(Granted(c, evs, e.key), e.now - c.window, e.now);
  }

  lemma {:induction false} CountIsAtMostAfter(log: seq<int>, from: int, to: int, cutoff: int)
    requires cutoff <= from
    ensures CountIn(log, from, to) <= |After(log, cutoff)|
  {
    if log != [] {
      CountIsAtMostAfter(log[..|log| - 1], from, to, cutoff);
    }
  }

  // No half-open interval as long as the window sees more than the limit.
  lemma {:induction false} WindowBound(c: Config, evs: seq<Event>, key: string, from: int)
    requires c.limit >= 0 && c.window > 0 && ClockMonotone(evs)
    ensures CountIn(Granted(c, evs, key), from, from + c.window) <= c.limit
  {
    if evs != [] {
      var before, e := evs[..|evs| - 1], evs[|evs| - 1];
      WindowBound(c, before, key, from);
      assert evs == before + [e];
      RunSnoc(c, before, e, key);
      if e.AllowN? && e.key == key && Decide(c, Run(c, before), e) {
        DecisionOnFullHistory(c, before, e);
        WindowBoundStep(c, Granted(c, before, key), e, from);
      }
    }
  }

  lemma WindowBoundStep(c: Config, h: seq<int>, e: Event, from: int)
    requires e.AllowN? && CountIn(h, from, from + c.window) <= c.limit
    requires |After(h, Cutoff(c, e))| + e.n <= c.limit
    ensures CountIn(h + Repeat(e.now, e.n), from, from + c.window) <= c.limit
  {
    CountInRepeat(h, e.now, e.n, from, from + c.window);
    if from < e.now <= from + c.window {
      CountIsAtMostAfter(h, from, from + c.window, Cutoff(c, e));
    }
  }

  lemma {:induction false} AfterIsShorter(log: seq<int>, cutoff: int)
    ensures |After(log, cutoff)| <= |log|
  {
    if log != [] {
      AfterIsShorter(log[..|log| - 1], cutoff);
    }
  }

  lemma {:induction false} RepeatLength(t: int, n: int)
    ensures |Repeat(t, n)| == if n <= 0 then 0 else n
  {
    if n > 0 {
      RepeatLength(t, n - 1);
    }
  }

  lemma {:induction false} LogWithinLimit(c: Config, evs: seq<Event>, key: string)
    requires c.limit >= 0
    ensures |LogOf(Run(c, evs), key)| <= c.limit
  {
    if evs != [] {
      var before, e := evs[..|evs| - 1], evs[|evs| - 1];
      LogWithinLimit(c, before, key);
      AfterIsShorter(LogOf(Run(c, before), key), Cutoff(c, e));
      RepeatLength(e.now, if e.AllowN? then e.n else 0);
    }
  }

  // At one instant, a call for n succeeds exactly when Remaining answers at least n.
  lemma RemainingAgrees(c: Config, evs: seq<Event>, key: string, n: int, now: int)
    requires c.limit >= 0
    ensures Decide(c, Run(c, evs), AllowN(key, n, now)) <==> n <= RemainingAt(c, Run(c, evs), key, now)
  {
    LogWithinLimit(c, evs, key);
    AfterIsShorter(LogOf(Run(c, evs), key), now - c.window);
  }

  // A call that does not bear on key: a query, which prunes, a call on another key, or a
  // denied call.
  predicate Irrelevant(c: Config, s: Store, e: Event, key: string) {
    e.Remaining? || e.key != key || !Decide(c, s, e)
  }

  lemma {:induction false} SameGrantedWithout(c: Config, pre: seq<Event>, e: Event, post: seq<Event>, key: string)
    requires ClockMonotone(pre + [e] + post) && Irrelevant(c, Run(c, pre), e, key)
    ensures Granted(c, pre + [e] + post, key) == Granted(c, pre + post, key)
  {
    if post == [] {
      assert pre + [e] + post == pre + [e] && pre + post == pre;
      RunSnoc(c, pre, e, key);
    } else {
      var p, last := post[..|post| - 1], post[|post| - 1];
      var all, cut := pre + [e] + p, pre + p;
      assert pre + [e] + post == all + [last] && pre + post == cut + [last];
      DropOne(pre, e, post);
      assert forall i | 0 <= i < |all| :: (all + [last])[i] == all[i];
      SameGrantedWithout(c, pre, e, p, key);
      RunSnoc(c, all, last, key);
      RunSnoc(c, cut, last, key);
      if last.AllowN? && last.key == key {
        DecisionOnFullHistory(c, all, last);
        DecisionOnFullHistory(c, cut, last);
      }
    }
  }

  lemma DropOne(pre: seq<Event>, e: Event, post: seq<Event>)
    requires ClockMonotone(pre + [e] + post)
    ensures ClockMonotone(pre + post)
  {
    var all, cut := pre + [e] + post, pre + post;
    assert forall i | 0 <= i < |cut| :: cut[i] == all[if i < |pre| then i else i + 1];
  }

  // Deleting such a call from a run changes no later decision on key.
  lemma IrrelevantCallsDoNotMatter(c: Config, pre: seq<Event>, e: Event, post: seq<Event>, d: Event)
    requires d.AllowN? && ClockMonotone(pre + [e] + post + [d]) && Irrelevant(c, Run(c, pre), e, d.key)
    ensures Decide(c, Run(c, pre + [e] + post), d) <==> Decide(c, Run(c, pre + post), d)
  {
    var all, cut := pre + [e] + post, pre + post;
    assert pre + [e] + (post + [d]) == all + [d] && pre + (post + [d]) == cut + [d];
    DropOne(pre, e, post + [d]);
    assert forall i | 0 <= i < |all| :: (all + [d])[i] == all[i];
    SameGrantedWithout(c, pre, e, post, d.key);
    DecisionOnFullHistory(c, all, d);
    DecisionOnFullHistory(c, cut, d);
  }

  // ---- the limiter itself ----

  // A Go slice: a view of the first len elements of a backing array.
  datatype Slice = Slice(buf: array<int>, len: nat)

  ghost function Contents(s: Slice): seq<int>
    requires s.len <= s.buf.Length
    reads s.buf
  {
    s.buf[..s.len]
  }

  lemma UpdateTwice(s: Store, key: string, x: seq<int>, y: seq<int>)
    ensures s[key := x][key := y] == s[key := y]
  {
  }

  lemma SameButOne(s: Store, s': Store, key: string, x: seq<int>)
    requires s.Keys == s'.Keys && forall k | k in s && k != key :: s[k] == s'[k]
    ensures s[key := x] == s'[key := x]
  {
  }

  lemma PushedOnce(s: Store, key: string, t: int, n: nat)
    requires key in s
    ensures var x := s[key] + Repeat(t, n); s[key := x][key := x + [t]] == s[key := s[key] + Repeat(t, n + 1)]
  {
    var x := s[key] + Repeat(t, n);
    UpdateTwice(s, key, x, x + [t]);
    assert x + [t] == s[key] + Repeat(t, n + 1);
  }

  // Keeps what is after the cutoff, in the same backing array.
  method Compact(s: Slice, cutoff: int) returns (kept: Slice)
    requires s.len <= s.buf.Length
    modifies s.buf
    ensures kept.buf == s.buf && kept.len <= s.len
    ensures Contents(kept) == After(old(Contents(s)), cutoff)
  {
    var m := 0;
    ghost var entries := Contents(s);
    for i := 0 to s.len
      invariant m <= i
      invariant s.buf[..m] == After(entries[..i], cutoff)
      invariant forall j | i <= j < s.len :: s.buf[j] == entries[j]
    {
      var t := s.buf[i];
      ghost var kept := s.buf[..m];
      AfterTake(entries, i, cutoff);
      if t > cutoff {
        s.buf[m] := t;
        m := m + 1;
        assert s.buf[..m] == kept + [t];
      }
    }
    assert entries[..s.len] == entries;
    kept := Slice(s.buf, m);
  }

  // Go's append: in place while the backing array has room, into a larger one otherwise.
  method Append(s: Slice, t: int) returns (r: Slice)
    requires s.len <= s.buf.Length
    modifies s.buf
    ensures r.buf == s.buf || fresh(r.buf)
    ensures r.len == s.len + 1 <= r.buf.Length
    ensures Contents(r) == old(Contents(s)) + [t]
  {
    var buf := s.buf;
    if s.len == buf.Length {
      buf := new int[2 * s.len + 1];
      for i := 0 to s.len
        invariant Contents(s) == old(Contents(s))
        invariant buf[..i] == s.buf[..i]
      {
        buf[i] := s.buf[i];
      }
    }
    assert buf[..s.len] == s.buf[..s.len];
    buf[s.len] := t;
    r := Slice(buf, s.len + 1);
    assert r.buf[..r.len] == buf[..s.len] + [t];
  }

  class SlidingWindow {
    const config: Config
    var logs: map<string, Slice>
    ghost var bufs: set<array<int>>  // the backing arrays

    // No two keys share a backing array.
    ghost predicate Valid()
      reads this
    {
      && (forall k | k in logs :: logs[k].buf in bufs && logs[k].len <= logs[k].buf.Length)
      && (forall k, l | k in logs && l in logs && k != l :: logs[k].buf != logs[l].buf)
    }

    ghost function View(): Store
      reads this, bufs
      requires Valid()
    {
      map k | k in logs :: Contents(logs[k])
    }

    constructor (limit: int, window: int)
      ensures Valid() && config == Config(limit, window) && logs == map[] && bufs == {}
      ensures View() == Run(config, [])
    {
      config := Config(limit, window);
      logs, bufs := map[], {};
    }

    // The key's slice; an empty one, not yet in the map, if there is none.
    method Entries(key: string) returns (entries: Slice)
      requires Valid()
      ensures if key in logs then entries == logs[key] else fresh(entries.buf)
      ensures entries.len <= entries.buf.Length && Contents(entries) == LogOf(View(), key)
    {
      if key in logs {
        entries := logs[key];
      } else {
        var none := new int[0];
        entries := Slice(none, 0);
      }
    }

    method Put(key: string, s: Slice)
      requires Valid() && s.len <= s.buf.Length
      requires forall k | k in logs && k != key :: logs[k].buf != s.buf
      modifies this
      ensures Valid() && bufs == old(bufs) + {s.buf} && key in logs
      ensures View() == old(View())[key := Contents(s)]
    {
      logs, bufs := logs[key := s], bufs + {s.buf};
    }

    // Drops the key's expired entries.
    method Prune(key: string, cutoff: int) returns (len: nat)
      requires Valid()
      modifies this, bufs
      ensures Valid() && key in logs && forall buf | buf in bufs && buf !in old(bufs) :: fresh(buf)
      ensures View() == old(View())[key := After(LogOf(old(View()), key), cutoff)]
      ensures len == |View()[key]|
    {
      var entries := Entries(key);
      var valid := Compact(entries, cutoff);
      assert forall k | k in logs && k != key :: Contents(logs[k]) == old(Contents(logs[k]));
      SameButOne(View(), old(View()), key, Contents(valid));
      Put(key, valid);
      len := valid.len;
    }

    method Push(key: string, t: int)
      requires Valid() && key in logs
      modifies this, bufs
      ensures Valid() && key in logs && forall buf | buf in bufs && buf !in old(bufs) :: fresh(buf)
      ensures View() == old(View())[key := old(View())[key] + [t]]
    {
      var grown := Append(logs[key], t);
      assert forall k | k in logs && k != key :: Contents(logs[k]) == old(Contents(logs[k]));
      SameButOne(View(), old(View()), key, Contents(grown));
      Put(key, grown);
    }

    method PushAll(key: string, t: int, n: int)
      requires Valid() && key in logs
      modifies this, bufs
      ensures Valid() && key in logs && forall buf | buf in bufs && buf !in old(bufs) :: fresh(buf)
      ensures View() == old(View())[key := old(View())[key] + Repeat(t, n)]
    {
      ghost var was := View();
      var i := 0;
      assert was[key] + Repeat(t, 0) == was[key] && was[key := was[key]] == was;
      while i < n
        invariant 0 <= i && (i == 0 || i <= n)
        invariant Valid() && key in logs
        invariant forall buf | buf in bufs && buf !in old(bufs) :: fresh(buf)
        invariant View() == was[key := was[key] + Repeat(t, i)]
      {
        Push(key, t);
        PushedOnce(was, key, t, i);
        i := i + 1;
      }
    }

    method Allow(key: string, now: int) returns (ok: bool)
      requires Valid()
      modifies this, bufs
      ensures Valid() && forall buf | buf in bufs && buf !in old(bufs) :: fresh(buf)
      ensures ok <==> Decide(config, old(View()), Event.AllowN(key, 1, now))
      ensures View() == Apply(config, old(View()), Event.AllowN(key, 1, now))
    {
      ok := AllowN(key, 1, now);
    }

    method AllowN(key: string, n: int, now: int) returns (ok: bool)
      requires Valid()
      modifies this, bufs
      ensures Valid() && forall buf | buf in bufs && buf !in old(bufs) :: fresh(buf)
      ensures ok <==> Decide(config, old(View()), Event.AllowN(key, n, now))
      ensures View() == Apply(config, old(View()), Event.AllowN(key, n, now))
    {
      ghost var was := View();
      ghost var kept := After(LogOf(was, key), now - config.window);
      var len := Prune(key, now - config.window);
      ok := len + n <= config.limit;
      if ok {
        assert View()[key] == kept;
        PushAll(key, now, n);
        UpdateTwice(was, key, kept, kept + Repeat(now, n));
      }
    }

    method Remaining(key: string, now: int) returns (r: int)
      requires Valid()
      modifies this, bufs
      ensures Valid() && forall buf | buf in bufs && buf !in old(bufs) :: fresh(buf)
      ensures r == RemainingAt(config, old(View()), key, now)
      ensures View() == Apply(config, old(View()), Event.Remaining(key, now))
    {
      var len := Prune(key, now - config.window);
      r := config.limit - len;
      if r < 0 {
        r := 0;
      }
    }
  }
}
