// retry/retry.go, Execute: retries with exponential backoff. Errors are their messages.
module Retrying {
  import opened Arithmetic
  import opened Numbers
  import opened Options
  import opened Text

  datatype Policy = Policy(
    maxRetries: int,
    initialBackoff: int,
    maxBackoff: int,
    multiplier: real,
    jitter: bool,
    retryableErrors: seq<string>,
    retryIf: Option<string -> bool>)

  // What the outside world answers: the protected function, call by call; the state of the
  // context before each attempt and during each wait; and the random numbers.
  datatype World = World(
    fn: nat -> Option<string>,
    cancelled: nat -> Option<string>,
    interrupted: nat -> Option<string>,
    rand: nat -> real)

  ghost predicate Retryable(p: Policy, err: string) {
    match p.retryIf
    case Some(f) => f(err)
    case None => p.retryableErrors == [] || exists pattern | pattern in p.retryableErrors :: Occurs(err, pattern)
  }

  method Contains(s: string, sub: string) returns (found: bool)
    ensures found <==> Occurs(s, sub)
  {
    var i := 0;
    while i + |sub| <= |s|
      invariant forall j | 0 <= j < i :: !OccursAt(s, sub, j)
    {
      if s[i..i + |sub|] == sub {
        assert OccursAt(s, sub, i);
        return true;
      }
      i := i + 1;
    }
    found := false;
  }

  method IsRetryable(p: Policy, err: string) returns (r: bool)
    ensures r <==> Retryable(p, err)
    ensures p.retryIf.Some? ==> r == p.retryIf.value(err)
    ensures p.retryIf.None? && p.retryableErrors == [] ==> r
    ensures p.retryIf.None? && p.retryableErrors != [] ==>
      (r <==> exists pattern :: pattern in p.retryableErrors && Occurs(err, pattern))
  {
    if p.retryIf.Some? {
      return p.retryIf.value(err);
    }
    for i := 0 to |p.retryableErrors|
      invariant forall j | 0 <= j < i :: !Occurs(err, p.retryableErrors[j])
    {
      var found := Contains(err, p.retryableErrors[i]);
      if found {
        return true;
      }
    }
    r := |p.retryableErrors| == 0;
  }

  // ---- backoff ----

  function Quarter(x: int): int {
    if x >= 0 then x / 4 else -((-x) / 4)
  }

  // One round of growth.
  function Scale(p: Policy, backoff: int): int {
    Truncate(backoff as real * p.multiplier)
  }

  // The backoff after k more rounds of growth; reaching the cap ends them.
  function Grow(p: Policy, backoff: int, k: nat): int
    decreases k
  {
    if k == 0 then backoff
    else
      var next := Scale(p, backoff);
      if next > p.maxBackoff then p.maxBackoff else Grow(p, next, k - 1)
  }

  function Backoff(p: Policy, attempt: nat): int {
    Grow(p, p.initialBackoff, attempt)
  }

  function RandInt(min: int, max: int, r: real): int {
    if max <= min then min else min + Truncate(r * (max - min) as real)
  }

  function Delay(p: Policy, attempt: nat, r: real): int {
    var backoff := Backoff(p, attempt);
    if p.jitter then backoff + RandInt(0, Quarter(backoff), r) else backoff
  }

  lemma {:induction false} GrowIsCapped(p: Policy, backoff: int, k: nat)
    ensures Grow(p, backoff, k) <= Max(backoff, p.maxBackoff)
    decreases k
  {
    if k > 0 {
      var next := Scale(p, backoff);
      if next <= p.maxBackoff {
        GrowIsCapped(p, next, k - 1);
      }
    }
  }

  lemma RandIntBound(max: int, r: real)
    requires 0.0 <= r <= 1.0
    ensures 0 <= RandInt(0, max, r) <= Max(max, 0)
  {
    if max > 0 {
      var x := max as real;
      assert 0.0 <= r * x <= x;
    }
  }

  // No wait is longer than five quarters of the larger of the two settings.
  lemma DelayBound(p: Policy, attempt: nat, r: real)
    requires 0.0 <= r <= 1.0
    ensures 4 * Delay(p, attempt, r) <= 5 * Max(Max(p.initialBackoff, p.maxBackoff), 0)
  {
    GrowIsCapped(p, p.initialBackoff, attempt);
    RandIntBound(Quarter(Backoff(p, attempt)), r);
  }

  // Without jitter, no wait exceeds MaxBackoff exactly when the first one does not.
  lemma UnjitteredWithinCapIff(p: Policy)
    requires !p.jitter
    ensures (forall attempt: nat, r: real :: Delay(p, attempt, r) <= p.maxBackoff) <==> p.initialBackoff <= p.maxBackoff
  {
    if p.initialBackoff <= p.maxBackoff {
      forall attempt: nat, r: real
        ensures Delay(p, attempt, r) <= p.maxBackoff
      {
        GrowIsCapped(p, p.initialBackoff, attempt);
      }
    } else {
      assert Delay(p, 0, 0.0) == p.initialBackoff;
    }
  }

  // With jitter, no random number takes a wait above MaxBackoff exactly when a quarter of
  // the backoff still fits below it.
  lemma JitteredWithinCapIff(p: Policy, attempt: nat)
    requires p.jitter
    ensures (forall r | 0.0 <= r <= 1.0 :: Delay(p, attempt, r) <= p.maxBackoff)
       <==> Backoff(p, attempt) + Max(Quarter(Backoff(p, attempt)), 0) <= p.maxBackoff
  {
    var q := Quarter(Backoff(p, attempt));
    forall r | 0.0 <= r <= 1.0
      ensures RandInt(0, q, r) <= Max(q, 0)
    {
      RandIntBound(q, r);
    }
    assert RandInt(0, q, 1.0) == Max(q, 0);
    assert Delay(p, attempt, 1.0) == Backoff(p, attempt) + Max(q, 0);
  }

  // DefaultPolicy, with more retries.
  function PatientPolicy(maxRetries: int): Policy {
    Policy(maxRetries, 100_000_000, 5_000_000_000, 2.0, true, [], None)
  }

  lemma Doubling(p: Policy, backoff: int, k: nat)
    requires p.multiplier == 2.0 && 0 <= backoff
    ensures Grow(p, backoff, k + 1) == if 2 * backoff > p.maxBackoff then p.maxBackoff else Grow(p, 2 * backoff, k)
  {
    assert backoff as real * 2.0 == (2 * backoff) as real;
  }

  // Its seventh wait can take a quarter more than its MaxBackoff of five seconds.
  lemma PatientPolicyExceedsCap(maxRetries: int)
    ensures Delay(PatientPolicy(maxRetries), 6, 1.0) == 6_250_000_000 > PatientPolicy(maxRetries).maxBackoff
  {
    var p := PatientPolicy(maxRetries);
    Doubling(p, 100_000_000, 5);
    Doubling(p, 200_000_000, 4);
    Doubling(p, 400_000_000, 3);
    Doubling(p, 800_000_000, 2);
    Doubling(p, 1_600_000_000, 1);
    Doubling(p, 3_200_000_000, 0);
  }

  lemma ScaleGrows(p: Policy, backoff: int)
    requires p.multiplier >= 1.0 && 0 <= backoff
    ensures Scale(p, backoff) >= backoff
  {
    var x := backoff as real;
    assert x * p.multiplier - x == x * (p.multiplier - 1.0) >= 0.0;
  }

  lemma {:induction false} GrowIsMonotone(p: Policy, backoff: int, k: nat)
    requires p.multiplier >= 1.0 && 0 <= backoff <= p.maxBackoff
    ensures Grow(p, backoff, k) <= Grow(p, backoff, k + 1)
    decreases k
  {
    var next := Scale(p, backoff);
    ScaleGrows(p, backoff);
    if k > 0 && next <= p.maxBackoff {
      GrowIsMonotone(p, next, k - 1);
    }
  }

  // The backoff never shrinks, exactly when it starts within its cap: the first wait is not
  // capped.
  lemma BackoffNeverShrinksIff(p: Policy)
    requires p.multiplier >= 1.0 && 0 <= p.initialBackoff
    ensures (forall k: nat :: Backoff(p, k) <= Backoff(p, k + 1)) <==> p.initialBackoff <= p.maxBackoff
  {
    if p.initialBackoff <= p.maxBackoff {
      forall k: nat
        ensures Backoff(p, k) <= Backoff(p, k + 1)
      {
        GrowIsMonotone(p, p.initialBackoff, k);
      }
    } else {
      ScaleGrows(p, p.initialBackoff);
      assert Backoff(p, 0) > Backoff(p, 0 + 1);
    }
  }

  // Every backoff is the one before, scaled by the multiplier, or the cap.
  lemma GrowsByMultiplier(p: Policy, attempt: nat)
    requires p.multiplier >= 1.0 && 0 <= p.initialBackoff && 0 <= p.maxBackoff
    ensures Backoff(p, 0) == p.initialBackoff && Backoff(p, attempt) >= 0
    ensures var next := Scale(p, Backoff(p, attempt));
      Backoff(p, attempt + 1) == if next > p.maxBackoff then p.maxBackoff else next
  {
    GrowOnceMore(p, p.initialBackoff, attempt);
  }

  lemma {:induction false} GrowOnceMore(p: Policy, backoff: int, k: nat)
    requires p.multiplier >= 1.0 && 0 <= backoff && 0 <= p.maxBackoff
    ensures Grow(p, backoff, k) >= 0
    ensures var next := Scale(p, Grow(p, backoff, k));
      Grow(p, backoff, k + 1) == if next > p.maxBackoff then p.maxBackoff else next
    decreases k
  {
    if k > 0 {
      ScaleGrows(p, backoff);
      ScaleGrows(p, p.maxBackoff);
      if Scale(p, backoff) <= p.maxBackoff {
        GrowOnceMore(p, Scale(p, backoff), k - 1);
      }
    }
  }

  // Scaling multiplies and rounds down.
  lemma ScaleIsFloor(p: Policy, backoff: int)
    requires p.multiplier >= 1.0 && 0 <= backoff
    ensures Scale(p, backoff) == (backoff as real * p.multiplier).Floor
  {
    assert backoff as real * p.multiplier >= 0.0;
  }

  // The jitter adds up to a quarter of the backoff, and can add all of it or nothing.
  lemma JitterRange(p: Policy, attempt: nat, r: real)
    requires 0.0 <= r <= 1.0
    ensures var backoff := Backoff(p, attempt);
      if p.jitter then
        && backoff <= Delay(p, attempt, r) <= backoff + Max(backoff / 4, 0)
        && Delay(p, attempt, 0.0) == backoff && Delay(p, attempt, 1.0) == backoff + Max(backoff / 4, 0)
      else Delay(p, attempt, r) == backoff
  {
    RandIntBound(Quarter(Backoff(p, attempt)), r);
  }

  // ---- the loop ----

  // Call k failed in a way that the policy retries.
  ghost predicate FailedRetryably(p: Policy, w: World, k: nat) {
    w.fn(k).Some? && Retryable(p, w.fn(k).value)
  }

  method NextDelay(p: Policy, attempt: nat, r: real) returns (backoff: int)
    ensures backoff == Delay(p, attempt, r)
  {
    backoff := p.initialBackoff;
    var i := 0;
    while i < attempt
      invariant i <= attempt && Grow(p, backoff, attempt - i) == Backoff(p, attempt)
    {
      backoff := Scale(p, backoff);
      if backoff > p.maxBackoff {
        backoff := p.maxBackoff;
        break;
      }
      i := i + 1;
    }
    assert backoff == Backoff(p, attempt);
    if p.jitter {
      backoff := backoff + RandInt(0, Quarter(backoff), r);
    }
  }

  method Execute(p: Policy, w: World) returns (err: Option<string>, calls: nat, waits: seq<int>)
    // fn runs at most maxRetries + 1 times, never in a cancelled context, and again only
    // after a retryable failure and an undisturbed wait
    ensures calls <= Max(p.maxRetries + 1, 0)
    ensures forall k: nat | k < calls :: w.cancelled(k).None?
    ensures forall k: nat | k + 1 < calls :: FailedRetryably(p, w, k) && w.interrupted(k).None?
    // the waits are the ones the policy sets
    ensures forall k | 0 <= k < |waits| :: waits[k] == Delay(p, k, w.rand(k))
    // and there are four ways to stop
    ensures
      || (p.maxRetries < 0 && calls == 0 && waits == [] && err == None)
      || (calls > 0 && |waits| == calls - 1 && err == w.fn(calls - 1) &&
          (err.None? || calls == p.maxRetries + 1 || !Retryable(p, err.value)))
      || (calls <= p.maxRetries && |waits| == calls && err == w.cancelled(calls) && err.Some? &&
          (calls > 0 ==> FailedRetryably(p, w, calls - 1) && w.interrupted(calls - 1).None?))
      || (0 < calls <= p.maxRetries && |waits| == calls && err == w.interrupted(calls - 1) && err.Some? &&
          FailedRetryably(p, w, calls - 1))
    // nil means success, and success means nil
    ensures p.maxRetries >= 0 ==> (err.None? <==> calls > 0 && w.fn(calls - 1).None?)
  {
    var lastErr: Option<string> := None;
    calls, waits := 0, [];
    var attempt: nat := 0;
    while attempt <= p.maxRetries
      invariant attempt == calls == |waits| <= Max(p.maxRetries, 0)
      invariant forall k: nat | k < calls :: w.cancelled(k).None? && FailedRetryably(p, w, k) && w.interrupted(k).None?
      invariant forall k | 0 <= k < |waits| :: waits[k] == Delay(p, k, w.rand(k))
      invariant p.maxRetries < 0 ==> lastErr == None
      decreases p.maxRetries - attempt
    {
      if w.cancelled(attempt).Some? {
        return w.cancelled(attempt), calls, waits;
      }
      err := w.fn(calls);
      calls := calls + 1;
      if err.None? {
        return;
      }
      lastErr := err;
      var retryable := IsRetryable(p, err.value);
      if attempt >= p.maxRetries || !retryable {
        return;
      }

      var backoff := NextDelay(p, attempt, w.rand(attempt));
      waits := waits + [backoff];
      if w.interrupted(attempt).Some? {
        return w.interrupted(attempt), calls, waits;
      }
      attempt := attempt + 1;
    }
    err := lastErr;
  }
}
