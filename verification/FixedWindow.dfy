// ratelimit/ratelimit.go, FixedWindow: a counter per key, in windows anchored at the
// first call after the previous window has ended.
module FixedWindowLimiter {
  import opened Arithmetic
  import opened History
  import opened Options

  datatype Config = Config(limit: int, window: int)

  datatype Window = Window(count: int, windowEnd: int)

  type Store = map<string, Window>

  datatype Event =
    | AllowN(key: string, n: int, now: int)
    | Remaining(key: string, now: int)

  predicate Expired(s: Store, key: string, now: int) {
    key !in s || now > s[key].windowEnd
  }

  function Current(c: Config, s: Store, key: string, now: int): Window {
    if Expired(s, key, now) then Window(0, now + c.window) else s[key]
  }

  predicate Decide(c: Config, s: Store, e: Event)
    requires e.AllowN?
  {
    Current(c, s, e.key, e.now).count + e.n <= c.limit
  }

  // A denied call still opens a window when the last one has ended.
  function Apply(c: Config, s: Store, e: Event): Store {
    match e
    case Remaining(_, _) => s
    case AllowN(key, n, now) =>
      var w := Current(c, s, key, now);
      s[key := if w.count + n <= c.limit then w.(count := w.count + n) else w]
  }

  function RemainingAt(c: Config, s: Store, key: string, now: int): int {
    if Expired(s, key, now) then c.limit
    else if c.limit - s[key].count < 0 then 0
    else c.limit - s[key].count
  }

  // ---- whole runs ----

  function Run(c: Config, evs: seq<Event>): Store {
    if evs == [] then map[] else Apply(c, Run(c, evs[..|evs| - 1]), evs[|evs| - 1])
  }

  predicate Grantee(c: Config, before: seq<Event>, e: Event, key: string) {
    e.AllowN? && e.key == key && Decide(c, Run(c, before), e)
  }

  function Grants(c: Config, evs: seq<Event>, key: string): seq<Grant> {
    if evs == [] then []
    else
      var before, e := evs[..|evs| - 1], evs[|evs| - 1];
      if Grantee(c, before, e, key) then Grants(c, before, key) + [Grant(e.now, e.n)] else Grants(c, before, key)
  }

  predicate ClockMonotone(evs: seq<Event>) {
    forall i, j | 0 <= i < j < |evs| :: evs[i].now <= evs[j].now
  }

  predicate NonNegative(evs: seq<Event>) {
    forall i | 0 <= i < |evs| && evs[i].AllowN? :: evs[i].n >= 0
  }

  // ---- the windows behind the grants ----

  // Which window a grant fell into, counted from the first one opened on the key,
  // and where that window starts.
  datatype Mark = Mark(epoch: nat, start: int)

  ghost function Opened(c: Config, evs: seq<Event>, key: string): nat {
    if evs == [] then 0
    else
      var before, e := evs[..|evs| - 1], evs[|evs| - 1];
      Opened(c, before, key) +
      (if e.AllowN? && e.key == key && Expired(Run(c, before), key, e.now) then 1 else 0)
  }

  ghost function Marks(c: Config, evs: seq<Event>, key: string): seq<Mark> {
    if evs == [] then []
    else
      var before, e := evs[..|evs| - 1], evs[|evs| - 1];
      if Grantee(c, before, e, key)
      then Marks(c, before, key) + [Mark(Opened(c, evs, key), Run(c, evs)[key].windowEnd - c.window)]
      else Marks(c, before, key)
  }

  // From mark m to mark m', every window starts more than a window after the one before.
  ghost predicate Spaced(c: Config, m: Mark, m': Mark) {
    m.epoch <= m'.epoch && Times(c.window + 1, m'.epoch) - Times(c.window + 1, m.epoch) <= m'.start - m.start
  }

  // The grants from i on all fall into the epochs from m[i].epoch to cur.epoch; the last
  // of these has handed out count, and each of the others limit at most.
  ghost predicate CoveredFrom(c: Config, h: seq<Grant>, m: seq<Mark>, cur: Mark, count: int, i: nat)
    requires i < |h| == |m|
  {
    && Spaced(c, m[i], cur)
    && m[i].start <= h[i].at <= m[i].start + c.window
    && Total(h[i..]) <= Times(c.limit, cur.epoch) - Times(c.limit, m[i].epoch) + count
  }

  ghost predicate Covered(c: Config, h: seq<Grant>, m: seq<Mark>, cur: Mark, count: int) {
    |m| == |h| && forall i: nat | i < |h| :: CoveredFrom(c, h, m, cur, count, i)
  }

  // The same from grant lo to grant hi - 1.
  ghost predicate Pace(c: Config, h: seq<Grant>, m: seq<Mark>, lo: nat, hi: nat)
    requires lo < hi <= |h| == |m|
  {
    && Spaced(c, m[lo], m[hi - 1])
    && h[lo].at <= m[lo].start + c.window
    && m[hi - 1].start <= h[hi - 1].at
    && Total(h[lo..hi]) <= Times(c.limit, m[hi - 1].epoch) - Times(c.limit, m[lo].epoch) + c.limit
  }

  ghost predicate Paced(c: Config, h: seq<Grant>, m: seq<Mark>) {
    |m| == |h| && forall lo: nat, hi: nat | lo < hi <= |h| :: Pace(c, h, m, lo, hi)
  }

  lemma OpenNext(c: Config, h: seq<Grant>, m: seq<Mark>, cur: Mark, count: int, now: int)
    requires Covered(c, h, m, cur, count) && count <= c.limit && now > cur.start + c.window
    ensures Covered(c, h, m, Mark(cur.epoch + 1, now), 0)
  {
    var next := Mark(cur.epoch + 1, now);
    forall i: nat | i < |h|
      ensures CoveredFrom(c, h, m, next, 0, i)
    {
      assert CoveredFrom(c, h, m, cur, count, i);
    }
  }

  lemma GrantInWindow(c: Config, h: seq<Grant>, m: seq<Mark>, cur: Mark, count: int, g: Grant)
    requires Covered(c, h, m, cur, count) && 0 <= count && cur.start <= g.at <= cur.start + c.window
    ensures Covered(c, h + [g], m + [cur], cur, count + g.amount)
  {
    var h', m', count' := h + [g], m + [cur], count + g.amount;
    forall i: nat | i <= |h|
      ensures CoveredFrom(c, h', m', cur, count', i)
    {
      TotalSnoc(h, g, i);
      if i < |h| {
        assert CoveredFrom(c, h, m, cur, count, i);
      } else {
        assert h[i..] == [];
      }
    }
  }

  lemma PacedSnoc(c: Config, h: seq<Grant>, m: seq<Mark>, g: Grant, cur: Mark, count: int)
    requires Paced(c, h, m) && count <= c.limit && cur.start <= g.at
    requires Covered(c, h + [g], m + [cur], cur, count)
    ensures Paced(c, h + [g], m + [cur])
  {
    var h', m' := h + [g], m + [cur];
    forall lo: nat, hi: nat | lo < hi <= |h'|
      ensures Pace(c, h', m', lo, hi)
    {
      if hi <= |h| {
        assert h'[lo..hi] == h[lo..hi];
        assert Pace(c, h, m, lo, hi);
      } else {
        assert h'[lo..hi] == h'[lo..];
        assert CoveredFrom(c, h', m', cur, count, lo);
      }
    }
  }

  lemma TrackedGrant(c: Config, h: seq<Grant>, m: seq<Mark>, cur: Mark, count: int, g: Grant)
    requires Paced(c, h, m) && Covered(c, h, m, cur, count) && 0 <= count && count + g.amount <= c.limit
    requires cur.start <= g.at <= cur.start + c.window
    ensures Paced(c, h + [g], m + [cur]) && Covered(c, h + [g], m + [cur], cur, count + g.amount)
  {
    GrantInWindow(c, h, m, cur, count, g);
    PacedSnoc(c, h, m, g, cur, count + g.amount);
  }

  ghost function CurrentMark(c: Config, evs: seq<Event>, key: string): Mark
    requires key in Run(c, evs)
  {
    Mark(Opened(c, evs, key), Run(c, evs)[key].windowEnd - c.window)
  }

  // What every run keeps, on every key.
  ghost predicate Tracked(c: Config, evs: seq<Event>, key: string) {
    var s, h, m := Run(c, evs), Grants(c, evs, key), Marks(c, evs, key);
    && Paced(c, h, m)
    && if key !in s then h == []
       else 0 <= s[key].count <= c.limit && Covered(c, h, m, CurrentMark(c, evs, key), s[key].count)
  }

  lemma RunSnoc(c: Config, evs: seq<Event>, e: Event, key: string)
    ensures Run(c, evs + [e]) == Apply(c, Run(c, evs), e)
    ensures Grants(c, evs + [e], key) ==
      if Grantee(c, evs, e, key) then Grants(c, evs, key) + [Grant(e.now, e.n)] else Grants(c, evs, key)
    ensures Opened(c, evs + [e], key) == Opened(c, evs, key) +
      (if e.AllowN? && e.key == key && Expired(Run(c, evs), key, e.now) then 1 else 0)
    ensures Marks(c, evs + [e], key) ==
      if Grantee(c, evs, e, key) then Marks(c, evs, key) + [CurrentMark(c, evs + [e], key)] else Marks(c, evs, key)
  {
    assert (evs + [e])[..|evs|] == evs;
  }

  // Windows start and grants happen at clock readings.
  lemma {:induction false} ClockBounds(c: Config, evs: seq<Event>, key: string, now: int)
    requires forall i | 0 <= i < |evs| :: evs[i].now <= now
    ensures forall g | g in Grants(c, evs, key) :: g.at <= now
    ensures key in Run(c, evs) ==> Run(c, evs)[key].windowEnd - c.window <= now
  {
    if evs != [] {
      ClockBounds(c, evs[..|evs| - 1], key, now);
    }
  }

  lemma {:induction false} RunsAreChronological(c: Config, evs: seq<Event>, key: string)
    requires ClockMonotone(evs)
    ensures Chronological(Grants(c, evs, key))
  {
    if evs != [] {
      var before := evs[..|evs| - 1];
      RunsAreChronological(c, before, key);
      ClockBounds(c, before, key, evs[|evs| - 1].now);
    }
  }

  lemma {:induction false} RunsAreTracked(c: Config, evs: seq<Event>, key: string)
    requires c.limit >= 0 && c.window > 0 && ClockMonotone(evs) && NonNegative(evs)
    ensures Tracked(c, evs, key)
  {
    if evs != [] {
      var before, e := evs[..|evs| - 1], evs[|evs| - 1];
      assert evs == before + [e];
      RunsAreTracked(c, before, key);
      RunSnoc(c, before, e, key);
      if e.AllowN? && e.key == key {
        ClockBounds(c, before, key, e.now);
        TrackedStep(c, before, e);
      }
    }
  }

  // Before the call has its answer, the window it finds or opens covers the past.
  lemma WindowCovers(c: Config, before: seq<Event>, e: Event)
    requires c.limit >= 0 && c.window > 0 && e.AllowN? && Tracked(c, before, e.key)
    ensures Covered(c, Grants(c, before, e.key), Marks(c, before, e.key),
                    CurrentMark(c, before + [e], e.key), Current(c, Run(c, before), e.key, e.now).count)
  {
    var s, h, m := Run(c, before), Grants(c, before, e.key), Marks(c, before, e.key);
    RunSnoc(c, before, e, e.key);
    var cur := CurrentMark(c, before + [e], e.key);
    if e.key !in s {
      assert h == [] && m == [];
    } else if Expired(s, e.key, e.now) {
      var last := CurrentMark(c, before, e.key);
      assert cur == Mark(last.epoch + 1, e.now);
      OpenNext(c, h, m, last, s[e.key].count, e.now);
    } else {
      assert cur == CurrentMark(c, before, e.key);
    }
  }

  lemma TrackedStep(c: Config, before: seq<Event>, e: Event)
    requires c.limit >= 0 && c.window > 0 && e.AllowN? && e.n >= 0 && Tracked(c, before, e.key)
    requires e.key in Run(c, before) ==> Run(c, before)[e.key].windowEnd - c.window <= e.now
    ensures Tracked(c, before + [e], e.key)
  {
    var s, h, m := Run(c, before), Grants(c, before, e.key), Marks(c, before, e.key);
    RunSnoc(c, before, e, e.key);
    WindowCovers(c, before, e);
    var w, cur := Current(c, s, e.key, e.now), CurrentMark(c, before + [e], e.key);
    var s' := Run(c, before + [e]);
    if Decide(c, s, e) {
      assert s'[e.key] == w.(count := w.count + e.n);
      TrackedGrant(c, h, m, cur, w.count, Grant(e.now, e.n));
    } else {
      assert s'[e.key] == w;
    }
  }

  function CeilDiv(a: int, b: int): int
    requires b > 0
  {
    (a + b - 1) / b
  }

  lemma EpochsThatFit(k: nat, length: int, window: int)
    requires window > 0 && length > 0 && k * (window + 1) <= length + window
    ensures k <= CeilDiv(length, window)
  {
    assert k * (window + 1) == k * window + k;
    if k > 0 {
      DivisionBound(k, window, length + window - 1);
    } else {
      DivisionBound(0, window, length + window - 1);
    }
  }

  lemma OneMoreWindow(limit: int, k: int, q: int)
    requires limit >= 0 && k <= q
    ensures limit * k + limit <= limit * (q + 1)
  {
    ProductMonotone(limit, k + 1, q + 1);
    assert limit * (k + 1) == limit * k + limit;
  }

  lemma EpochsBetween(window: int, e: nat, e': nat, length: int)
    requires window > 0 && length > 0 && e <= e'
    requires Times(window + 1, e') - Times(window + 1, e) <= length + window
    ensures e' - e <= CeilDiv(length, window)
  {
    TimesDifference(window + 1, e, e');
    EpochsThatFit(e' - e, length, window);
  }

  lemma GrantsBetween(limit: int, e: nat, e': nat, q: int)
    requires limit >= 0 && e <= e' && e' - e <= q
    ensures Times(limit, e') - Times(limit, e) + limit <= limit * (q + 1)
  {
    TimesDifference(limit, e, e');
    OneMoreWindow(limit, e' - e, q);
  }

  lemma BurstArithmetic(c: Config, e: nat, e': nat, length: int)
    requires c.limit >= 0 && c.window > 0 && length > 0 && e <= e'
    requires Times(c.window + 1, e') - Times(c.window + 1, e) <= length + c.window
    ensures CeilDiv(length, c.window) >= 0
    ensures Times(c.limit, e') - Times(c.limit, e) + c.limit <= c.limit * (CeilDiv(length, c.window) + 1)
  {
    EpochsBetween(c.window, e, e', length);
    GrantsBetween(c.limit, e, e', CeilDiv(length, c.window));
  }

  lemma StretchBound(c: Config, h: seq<Grant>, m: seq<Mark>, lo: nat, hi: nat, from: int, to: int)
    requires c.limit >= 0 && c.window > 0 && from < to && lo < hi <= |h| == |m| && Pace(c, h, m, lo, hi)
    requires from <= h[lo].at && h[hi - 1].at <= to
    ensures Total(h[lo..hi]) <= c.limit * (CeilDiv(to - from, c.window) + 1)
  {
    BurstArithmetic(c, m[lo].epoch, m[hi - 1].epoch, to - from);
  }

  lemma PacedBound(c: Config, h: seq<Grant>, m: seq<Mark>, from: int, to: int)
    requires c.limit >= 0 && c.window > 0 && from < to && Paced(c, h, m) && Chronological(h)
    ensures GrantedWithin(h, from, to) <= c.limit * (CeilDiv(to - from, c.window) + 1)
  {
    var lo, hi := WithinIsContiguous(h, from, to);
    if lo < hi {
      assert h[lo] in h[lo..hi] && h[hi - 1] in h[lo..hi];
      assert Pace(c, h, m, lo, hi);
      StretchBound(c, h, m, lo, hi, from, to);
    } else {
      assert h[lo..hi] == [];
      ProductMonotone(c.limit, 0, CeilDiv(to - from, c.window) + 1);
    }
  }

  // A closed interval of any length sees at most one window's worth per window length
  // begun, and one more.
  lemma BurstBound(c: Config, evs: seq<Event>, key: string, from: int, to: int)
    requires c.limit >= 0 && c.window > 0 && ClockMonotone(evs) && NonNegative(evs) && from < to
    ensures GrantedWithin(Grants(c, evs, key), from, to) <= c.limit * ((to - from + c.window - 1) / c.window + 1)
  {
    RunsAreTracked(c, evs, key);
    RunsAreChronological(c, evs, key);
    PacedBound(c, Grants(c, evs, key), Marks(c, evs, key), from, to);
  }

  // In an interval as long as a window, at most twice the limit.
  lemma WindowLengthBurst(c: Config, evs: seq<Event>, key: string, from: int)
    requires c.limit >= 0 && c.window > 0 && ClockMonotone(evs) && NonNegative(evs)
    ensures GrantedWithin(Grants(c, evs, key), from, from + c.window) <= 2 * c.limit
  {
    BurstBound(c, evs, key, from, from + c.window);
    assert CeilDiv(c.window, c.window) == 1;
  }

  // And twice the limit does pass, however long the window: at its last instant and one
  // nanosecond later.
  lemma DoubleBurstHappens(c: Config, key: string)
    requires c.limit >= 0 && c.window > 0
    ensures var evs := [AllowN(key, 0, 0), AllowN(key, c.limit, c.window), AllowN(key, c.limit, c.window + 1)];
      GrantedWithin(Grants(c, evs, key), c.window, c.window + 1) == 2 * c.limit
  {
    var e0, e1, e2 := AllowN(key, 0, 0), AllowN(key, c.limit, c.window), AllowN(key, c.limit, c.window + 1);
    var g0, g1, g2 := Grant(0, 0), Grant(c.window, c.limit), Grant(c.window + 1, c.limit);
    RunSnoc(c, [], e0, key);
    RunSnoc(c, [] + [e0], e1, key);
    RunSnoc(c, [] + [e0] + [e1], e2, key);
    assert [e0, e1, e2] == [] + [e0] + [e1] + [e2];
    assert Grants(c, [e0, e1, e2], key) == [] + [g0] + [g1] + [g2];
    DoubleBurstTotal(c.window, g0, g1, g2);
  }

  lemma DoubleBurstTotal(window: int, g0: Grant, g1: Grant, g2: Grant)
    requires g0.amount == 0 && g1.at == window && g2.at == window + 1
    ensures GrantedWithin([] + [g0] + [g1] + [g2], window, window + 1) == g1.amount + g2.amount
  {
    WithinSnoc([], g0, window, window + 1);
    WithinSnoc([] + [g0], g1, window, window + 1);
    WithinSnoc([] + [g0] + [g1], g2, window, window + 1);
  }

  // ---- exactness ----

  // When the last window on a key was opened, going by the calls alone: by a call that
  // finds none, or comes after its end.
  function LastOpened(c: Config, evs: seq<Event>, key: string): Option<int> {
    if evs == [] then None
    else
      var e, last := evs[|evs| - 1], LastOpened(c, evs[..|evs| - 1], key);
      if e.AllowN? && e.key == key && (last.None? || e.now > last.value + c.window) then Some(e.now) else last
  }

  lemma {:induction false} WindowIsLastOpened(c: Config, evs: seq<Event>, key: string)
    ensures key in Run(c, evs) <==> LastOpened(c, evs, key).Some?
    ensures key in Run(c, evs) ==> Run(c, evs)[key].windowEnd == LastOpened(c, evs, key).value + c.window
  {
    if evs != [] {
      WindowIsLastOpened(c, evs[..|evs| - 1], key);
    }
  }

  lemma {:induction false} NoGrantsYet(c: Config, evs: seq<Event>, key: string)
    requires LastOpened(c, evs, key).None?
    ensures Grants(c, evs, key) == []
  {
    if evs != [] {
      NoGrantsYet(c, evs[..|evs| - 1], key);
      WindowIsLastOpened(c, evs, key);
    }
  }

  // What a call does to the window last opened, and to the grants.
  lemma CallOpens(c: Config, before: seq<Event>, e: Event, key: string)
    requires e.AllowN? && e.key == key
    ensures var s, last := Run(c, before), LastOpened(c, before, key);
      && (Expired(s, key, e.now) <==> last.None? || e.now > last.value + c.window)
      && LastOpened(c, before + [e], key) == (if Expired(s, key, e.now) then Some(e.now) else last)
      && Run(c, before + [e])[key].count ==
           (if Expired(s, key, e.now) then 0 else s[key].count) + (if Decide(c, s, e) then e.n else 0)
  {
    WindowIsLastOpened(c, before, key);
    RunSnoc(c, before, e, key);
    assert (before + [e])[..|before|] == before;
  }

  lemma {:induction false} GrantsWhileOpen(c: Config, evs: seq<Event>, key: string)
    requires c.window >= 0
    ensures LastOpened(c, evs, key).Some? ==>
      forall g | g in Grants(c, evs, key) :: g.at <= LastOpened(c, evs, key).value + c.window
  {
    if evs != [] {
      var before, e := evs[..|evs| - 1], evs[|evs| - 1];
      assert evs == before + [e];
      GrantsWhileOpen(c, before, key);
      RunSnoc(c, before, e, key);
      if e.AllowN? && e.key == key {
        CallOpens(c, before, e, key);
        if LastOpened(c, before, key).None? {
          NoGrantsYet(c, before, key);
        }
      }
    }
  }

  lemma PrefixClock(evs: seq<Event>, to: int)
    requires evs != [] && ClockMonotone(evs) && forall i | 0 <= i < |evs| :: evs[i].now <= to
    ensures var before, e := evs[..|evs| - 1], evs[|evs| - 1];
      ClockMonotone(before) && e.now <= to && forall i | 0 <= i < |before| :: before[i].now <= e.now
  {
  }

  // The window holds what was granted since it opened.
  lemma {:induction false} CountIsExact(c: Config, evs: seq<Event>, key: string, to: int)
    requires c.window >= 0 && ClockMonotone(evs) && forall i | 0 <= i < |evs| :: evs[i].now <= to
    ensures var start := LastOpened(c, evs, key);
      start.Some? ==>
        && key in Run(c, evs) && start.value <= to
        && Run(c, evs)[key].count == GrantedWithin(Grants(c, evs, key), start.value, to)
  {
    WindowIsLastOpened(c, evs, key);
    if evs != [] {
      var before, e := evs[..|evs| - 1], evs[|evs| - 1];
      assert evs == before + [e];
      PrefixClock(evs, to);
      CountIsExact(c, before, key, to);
      CountIsExact(c, before, key, e.now);
      RunSnoc(c, before, e, key);
      if e.AllowN? && e.key == key {
        CountAfterCall(c, before, e, key, to);
      }
    }
  }

  lemma CountAfterCall(c: Config, before: seq<Event>, e: Event, key: string, to: int)
    requires c.window >= 0 && e.AllowN? && e.key == key && e.now <= to
    requires var start := LastOpened(c, before, key);
      start.Some? ==>
        && key in Run(c, before) && start.value <= e.now
        && Run(c, before)[key].count == GrantedWithin(Grants(c, before, key), start.value, to)
    ensures var evs := before + [e]; var start := LastOpened(c, evs, key);
      start.Some? && start.value <= to && key in Run(c, evs) &&
        Run(c, evs)[key].count == GrantedWithin(Grants(c, evs, key), start.value, to)
  {
    var h, start := Grants(c, before, key), LastOpened(c, before, key);
    CallOpens(c, before, e, key);
    RunSnoc(c, before, e, key);
    if Expired(Run(c, before), key, e.now) {
      if start.None? {
        NoGrantsYet(c, before, key);
      }
      GrantsWhileOpen(c, before, key);
      NothingWithin(h, e.now, to);
      WithinSnoc(h, Grant(e.now, e.n), e.now, to);
    } else {
      WithinSnoc(h, Grant(e.now, e.n), start.value, to);
    }
  }

  // Exactness: while a window lasts, a call is granted if and only if it fits the limit
  // together with what was granted since that window opened; and by itself otherwise.
  lemma DecisionIsExact(c: Config, evs: seq<Event>, e: Event)
    requires c.window >= 0 && e.AllowN? && ClockMonotone(evs + [e])
    ensures var h, start := Grants(c, evs, e.key), LastOpened(c, evs, e.key);
      Decide(c, Run(c, evs), e) <==>
        if start.Some? && e.now <= start.value + c.window
        then GrantedWithin(h, start.value, e.now) + e.n <= c.limit
        else e.n <= c.limit
  {
    var all := evs + [e];
    assert all[..|evs|] == evs && forall i | 0 <= i < |all| :: all[i].now <= all[|evs|].now;
    PrefixClock(all, e.now);
    WindowIsLastOpened(c, evs, e.key);
    CountIsExact(c, evs, e.key, e.now);
  }

  // ---- denied calls ----

  // Whether e was called between pre and post makes a difference to d.
  predicate Matters(c: Config, pre: seq<Event>, e: Event, post: seq<Event>, d: Event) {
    && d.AllowN? && ClockMonotone(pre + [e] + post + [d])
    && (Decide(c, Run(c, pre + [e] + post), d) != Decide(c, Run(c, pre + post), d))
  }

  lemma {:induction false} SameRunAfter(c: Config, p: seq<Event>, q: seq<Event>, post: seq<Event>)
    requires Run(c, p) == Run(c, q)
    ensures Run(c, p + post) == Run(c, q + post)
  {
    if post == [] {
      assert p + post == p && q + post == q;
    } else {
      var n := |post| - 1;
      SameRunAfter(c, p, q, post[..n]);
      assert (p + post)[..|p| + n] == p + post[..n] && (q + post)[..|q| + n] == q + post[..n];
    }
  }

  // While its window lasts, a denied call leaves everything as it was.
  lemma DeniedInWindow(c: Config, s: Store, e: Event)
    requires e.AllowN? && !Expired(s, e.key, e.now) && !Decide(c, s, e)
    ensures Apply(c, s, e) == s
  {
  }

  // The calls that tell whether a window was opened at e.now: one for the whole limit at
  // the last instant of that window, and one more right after it.
  function Full(c: Config, e: Event): Event {
    AllowN(e.key, c.limit, e.now + c.window)
  }

  function Probe(c: Config, e: Event): Event {
    AllowN(e.key, 1, e.now + c.window + 1)
  }

  lemma DeniedOpensWindow(c: Config, s: Store, e: Event)
    requires c.limit > 0 && c.window > 0 && e.AllowN? && Expired(s, e.key, e.now) && !Decide(c, s, e)
    ensures Decide(c, Apply(c, Apply(c, s, e), Full(c, e)), Probe(c, e))
    ensures !Decide(c, Apply(c, s, Full(c, e)), Probe(c, e))
  {
    assert Apply(c, s, e)[e.key] == Window(0, e.now + c.window);
    assert Apply(c, s, Full(c, e))[e.key] == Window(c.limit, e.now + 2 * c.window);
  }

  lemma LaterIsMonotone(evs: seq<Event>, e: Event)
    requires ClockMonotone(evs) && forall i | 0 <= i < |evs| :: evs[i].now <= e.now
    ensures ClockMonotone(evs + [e])
  {
    var all := evs + [e];
    assert forall i | 0 <= i < |evs| :: all[i] == evs[i];
  }

  lemma ExpiredMatters(c: Config, pre: seq<Event>, e: Event)
    requires c.limit > 0 && c.window > 0 && e.AllowN? && ClockMonotone(pre + [e])
    requires Expired(Run(c, pre), e.key, e.now) && !Decide(c, Run(c, pre), e)
    ensures Matters(c, pre, e, [Full(c, e)], Probe(c, e))
  {
    var all := pre + [e];
    assert forall i | 0 <= i < |all| :: all[i].now <= all[|pre|].now;
    LaterIsMonotone(all, Full(c, e));
    LaterIsMonotone(all + [Full(c, e)], Probe(c, e));
    RunSnoc(c, pre, e, e.key);
    RunSnoc(c, all, Full(c, e), e.key);
    RunSnoc(c, pre, Full(c, e), e.key);
    DeniedOpensWindow(c, Run(c, pre), e);
  }

  // Unlike in the other limiters, a denied call can change what comes after: exactly if the
  // last window has ended, for then it opens one, and the next one comes sooner.
  lemma {:induction false} DeniedCallMattersIff(c: Config, pre: seq<Event>, e: Event)
    requires c.limit > 0 && c.window > 0 && e.AllowN? && ClockMonotone(pre + [e]) && !Decide(c, Run(c, pre), e)
    ensures (exists post, d :: Matters(c, pre, e, post, d)) <==> Expired(Run(c, pre), e.key, e.now)
  {
    if Expired(Run(c, pre), e.key, e.now) {
      ExpiredMatters(c, pre, e);
    } else {
      RunSnoc(c, pre, e, e.key);
      DeniedInWindow(c, Run(c, pre), e);
      forall post
        ensures Run(c, pre + [e] + post) == Run(c, pre + post)
      {
        SameRunAfter(c, pre + [e], pre, post);
      }
    }
  }

  // At one instant, a call for n succeeds exactly when Remaining answers at least n.
  lemma {:induction false} RemainingAgrees(c: Config, evs: seq<Event>, key: string, n: int, now: int)
    requires c.limit >= 0
    ensures Decide(c, Run(c, evs), AllowN(key, n, now)) <==> n <= RemainingAt(c, Run(c, evs), key, now)
  {
    CountWithinLimit(c, evs, key);
  }

  lemma {:induction false} CountWithinLimit(c: Config, evs: seq<Event>, key: string)
    requires c.limit >= 0
    ensures key in Run(c, evs) ==> Run(c, evs)[key].count <= c.limit
  {
    if evs != [] {
      CountWithinLimit(c, evs[..|evs| - 1], key);
    }
  }

  // ---- the limiter itself ----

  class WindowState {
    var count: int
    var windowEnd: int

    constructor (count: int, windowEnd: int)
      ensures this.count == count && this.windowEnd == windowEnd
    {
      this.count, this.windowEnd := count, windowEnd;
    }

    ghost function Value(): Window
      reads this
    {
      Window(count, windowEnd)
    }
  }

  class FixedWindow {
    const config: Config
    var windows: map<string, WindowState>
    ghost var states: set<WindowState>  // all that there have been

    // No two keys share a window.
    ghost predicate Valid()
      reads this
    {
      && (forall k | k in windows :: windows[k] in states)
      && forall k, l | k in windows && l in windows && k != l :: windows[k] != windows[l]
    }

    ghost function View(): Store
      requires Valid()
      reads this, states
    {
      map k | k in windows :: windows[k].Value()
    }

    constructor (limit: int, window: int)
      ensures Valid() && config == Config(limit, window) && states == {}
      ensures View() == Run(config, [])
    {
      config := Config(limit, window);
      windows, states := map[], {};
    }

    // The key's window, a new one if the last has ended.
    method StateAt(key: string, now: int) returns (state: WindowState)
      requires Valid()
      modifies this
      ensures Valid() && key in windows && windows[key] == state
      ensures forall w | w in states && w !in old(states) :: fresh(w)
      ensures state.Value() == Current(config, old(View()), key, now)
      ensures View() == old(View())[key := Current(config, old(View()), key, now)]
    {
      if key !in windows || now > windows[key].windowEnd {
        var next := new WindowState(0, now + config.window);
        windows, states := windows[key := next], states + {next};
      }
      state := windows[key];
    }

    twostate lemma OneChanged(key: string)
      requires old(allocated(this)) && old(Valid()) && unchanged(this) && key in windows
      requires forall state | state in states && state != windows[key] :: unchanged(state)
      ensures View() == old(View())[key := windows[key].Value()]
    {
      assert View().Keys == old(View())[key := windows[key].Value()].Keys;
      forall k | k in windows && k != key
        ensures View()[k] == old(View())[k]
      {
        assert windows[k] in states && windows[k] != windows[key];
      }
    }

    method Allow(key: string, now: int) returns (ok: bool)
      requires Valid()
      modifies this, states
      ensures Valid() && forall w | w in states && w !in old(states) :: fresh(w)
      ensures ok <==> Decide(config, old(View()), Event.AllowN(key, 1, now))
      ensures View() == Apply(config, old(View()), Event.AllowN(key, 1, now))
    {
      ok := AllowN(key, 1, now);
    }

    method AllowN(key: string, n: int, now: int) returns (ok: bool)
      requires Valid()
      modifies this, states
      ensures Valid() && forall w | w in states && w !in old(states) :: fresh(w)
      ensures ok <==> Decide(config, old(View()), Event.AllowN(key, n, now))
      ensures View() == Apply(config, old(View()), Event.AllowN(key, n, now))
    {
      var state := StateAt(key, now);
      label Found:
      ok := state.count + n <= config.limit;
      if ok {
        state.count := state.count + n;
      }
      OneChanged@Found(key);
    }

    method Remaining(key: string, now: int) returns (r: int)
      requires Valid()
      ensures r == RemainingAt(config, View(), key, now)
    {
      if key !in windows || now > windows[key].windowEnd {
        return config.limit;
      }
      r := config.limit - windows[key].count;
      if r < 0 {
        r := 0;
      }
    }
  }
}
