// What a limiter has granted on one key, and how much of it falls into an interval.
module History {

  datatype Grant = Grant(at: int, amount: int)

  function Total(h: seq<Grant>): int {
    if h == [] then 0 else Total(h[..|h| - 1]) + h[|h| - 1].amount
  }

  predicate Chronological(h: seq<Grant>) {
    forall i, j | 0 <= i < j < |h| :: h[i].at <= h[j].at
  }

  // The amount granted in the closed interval [from, to].
  function GrantedWithin(h: seq<Grant>, from: int, to: int): int {
    if h == [] then 0
    else
      var last := h[|h| - 1];
      GrantedWithin(h[..|h| - 1], from, to) + (if from <= last.at <= to then last.amount else 0)
  }

  lemma TotalSnoc(h: seq<Grant>, g: Grant, j: nat)
    requires j <= |h|
    ensures (h + [g])[j..] == h[j..] + [g]
    ensures Total((h + [g])[j..]) == Total(h[j..]) + g.amount
  {
    assert (h[j..] + [g])[..|h| - j] == h[j..];
  }

  lemma WithinSnoc(h: seq<Grant>, g: Grant, from: int, to: int)
    ensures GrantedWithin(h + [g], from, to) ==
      GrantedWithin(h, from, to) + (if from <= g.at <= to then g.amount else 0)
  {
    assert (h + [g])[..|h|] == h;
  }

  lemma {:induction false} NothingWithin(h: seq<Grant>, from: int, to: int)
    requires forall g | g in h :: !(from <= g.at <= to)
    ensures GrantedWithin(h, from, to) == 0
  {
    if h != [] {
      NothingWithin(h[..|h| - 1], from, to);
    }
  }

  lemma {:induction false} DropLate(h: seq<Grant>, from: int, to: int) returns (hi: nat)
    requires Chronological(h)
    ensures hi <= |h| && GrantedWithin(h, from, to) == GrantedWithin(h[..hi], from, to)
    ensures forall g | g in h[..hi] :: g.at <= to
  {
    hi := |h|;
    assert h[..hi] == h;
    if h != [] && to < h[|h| - 1].at {
      var p := h[..|h| - 1];
      hi := DropLate(p, from, to);
      assert p[..hi] == h[..hi];
    }
  }

  lemma {:induction false} DropEarly(h: seq<Grant>, from: int, to: int) returns (lo: nat)
    requires Chronological(h) && forall g | g in h :: g.at <= to
    ensures lo <= |h| && GrantedWithin(h, from, to) == Total(h[lo..])
    ensures forall g | g in h[lo..] :: from <= g.at
  {
    if h == [] {
      lo := 0;
    } else {
      var p, g := h[..|h| - 1], h[|h| - 1];
      assert h == p + [g];
      if g.at < from {
        NothingWithin(h, from, to);
        lo := |h|;
      } else {
        lo := DropEarly(p, from, to);
        TotalSnoc(p, g, lo);
      }
    }
  }

  // In a chronological history the grants of an interval are one contiguous stretch.
  lemma WithinIsContiguous(h: seq<Grant>, from: int, to: int) returns (lo: nat, hi: nat)
    requires Chronological(h)
    ensures lo <= hi <= |h| && GrantedWithin(h, from, to) == Total(h[lo..hi])
    ensures forall g | g in h[lo..hi] :: from <= g.at <= to
  {
    hi := DropLate(h, from, to);
    lo := DropEarly(h[..hi], from, to);
    assert h[..hi][lo..] == h[lo..hi];
    assert forall g | g in h[lo..hi] :: g in h[..hi];
  }
}
