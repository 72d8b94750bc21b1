// ratelimit/ratelimit.go, Quota and itoa: amounts used per tenant and resource, as 64-bit
// integers that wrap around.
module QuotaTracker {
  import opened Numbers
  import opened Options

  type Table = map<string, map<string, int>>

  datatype Book = Book(usage: Table, limits: Table)

  datatype QuotaExceededError =
    QuotaExceededError(tenant: string, resource: string, limit: int, used: int, requested: int)

  datatype Event =
    | SetLimit(tenant: string, resource: string, limit: int)
    | Consume(tenant: string, resource: string, amount: int)
    | Reset(tenant: string)

  function Row(t: Table, tenant: string): map<string, int> {
    if tenant in t then t[tenant] else map[]
  }

  function Usage(b: Book, tenant: string, resource: string): int {
    var row := Row(b.usage, tenant);
    if resource in row then row[resource] else 0
  }

  function Limit(b: Book, tenant: string, resource: string): Option<int> {
    var row := Row(b.limits, tenant);
    if resource in row then Some(row[resource]) else None
  }

  predicate Accepts(b: Book, tenant: string, resource: string, amount: int) {
    match Limit(b, tenant, resource)
    case None => true
    case Some(limit) => Wrap64(Usage(b, tenant, resource) + amount) <= limit
  }

  // Usage is only booked against a limit.
  function Apply(b: Book, e: Event): Book {
    match e
    case SetLimit(tenant, resource, limit) =>
      b.(limits := b.limits[tenant := Row(b.limits, tenant)[resource := limit]])
    case Consume(tenant, resource, amount) =>
      if Limit(b, tenant, resource).Some? && Accepts(b, tenant, resource, amount)
      then b.(usage := b.usage[tenant := Row(b.usage, tenant)[resource := Wrap64(Usage(b, tenant, resource) + amount)]])
      else b
    case Reset(tenant) => b.(usage := b.usage - {tenant})
  }

  function Run(b: Book, evs: seq<Event>): Book {
    if evs == [] then b else Apply(Run(b, evs[..|evs| - 1]), evs[|evs| - 1])
  }

  // ---- what a limit is worth ----

  lemma WrapIsIdentity(x: int)
    requires IsInt64(x)
    ensures Wrap64(x) == x
  {
  }

  // A call gets past its limit exactly when the sum wraps around.
  lemma OverLimitIffOverflow(b: Book, tenant: string, resource: string, amount: int)
    requires Limit(b, tenant, resource).Some?
    requires 0 <= Usage(b, tenant, resource) <= Limit(b, tenant, resource).value <= MAX_INT64
    requires 0 <= amount <= MAX_INT64
    ensures var sum := Usage(b, tenant, resource) + amount;
      (Accepts(b, tenant, resource, amount) && sum > Limit(b, tenant, resource).value) <==> sum > MAX_INT64
  {
    var sum := Usage(b, tenant, resource) + amount;
    if sum > MAX_INT64 {
      assert Wrap64(sum) == sum - 0x1_0000_0000_0000_0000;
    } else {
      WrapIsIdentity(sum);
    }
  }

  // A call whose sum fits 64 bits is accepted just when it keeps within the limit, and
  // without a limit always.
  lemma AcceptedIff(b: Book, tenant: string, resource: string, amount: int)
    requires IsInt64(Usage(b, tenant, resource) + amount)
    ensures Accepts(b, tenant, resource, amount) <==>
      match Limit(b, tenant, resource)
      case None => true
      case Some(limit) => Usage(b, tenant, resource) + amount <= limit
  {
    WrapIsIdentity(Usage(b, tenant, resource) + amount);
  }

  // What each call changes: one limit, one usage, or the usages of one tenant.
  lemma SetLimitSetsOne(b: Book, tenant: string, resource: string, limit: int, t: string, r: string)
    ensures var b' := Apply(b, SetLimit(tenant, resource, limit));
      && Limit(b', t, r) == (if t == tenant && r == resource then Some(limit) else Limit(b, t, r))
      && Usage(b', t, r) == Usage(b, t, r)
  {
  }

  lemma ConsumeBooksOne(b: Book, tenant: string, resource: string, amount: int, t: string, r: string)
    requires IsInt64(Usage(b, tenant, resource) + amount)
    ensures var b' := Apply(b, Consume(tenant, resource, amount));
      var limit, sum := Limit(b, tenant, resource), Usage(b, tenant, resource) + amount;
      var booked := limit.Some? && sum <= limit.value;
      && Limit(b', t, r) == Limit(b, t, r)
      && Usage(b', t, r) == Usage(b, t, r) + (if booked && t == tenant && r == resource then amount else 0)
  {
    WrapIsIdentity(Usage(b, tenant, resource) + amount);
  }

  lemma ResetForgetsOne(b: Book, tenant: string, t: string, r: string)
    ensures var b' := Apply(b, Reset(tenant));
      && Limit(b', t, r) == Limit(b, t, r)
      && Usage(b', t, r) == (if t == tenant then 0 else Usage(b, t, r))
  {
  }

  // What was accepted on a tenant's resource in a run.
  function Consumed(b: Book, evs: seq<Event>, tenant: string, resource: string): int {
    if evs == [] then 0
    else
      var before, e := evs[..|evs| - 1], evs[|evs| - 1];
      Consumed(b, before, tenant, resource) +
      (if e.Consume? && e.tenant == tenant && e.resource == resource &&
          Accepts(Run(b, before), tenant, resource, e.amount)
       then e.amount else 0)
  }

  // How many calls were accepted, of all tenants and resources.
  function AcceptCount(b: Book, evs: seq<Event>): nat {
    if evs == [] then 0
    else
      var before, e := evs[..|evs| - 1], evs[|evs| - 1];
      AcceptCount(b, before) +
      (if e.Consume? && Accepts(Run(b, before), e.tenant, e.resource, e.amount) then 1 else 0)
  }

  // The tenant is not reset, its limit on the resource stays, and no amount can overflow.
  predicate Quiet(e: Event, tenant: string, resource: string, limit: int) {
    && (e.Reset? ==> e.tenant != tenant)
    && (e.SetLimit? ==> !(e.tenant == tenant && e.resource == resource))
    && (e.Consume? && e.tenant == tenant && e.resource == resource ==> 0 <= e.amount <= MAX_INT64 - limit)
  }

  // Between resets, a fixed limit bounds everything accepted, and usage is the exact sum.
  lemma {:induction false} LimitHolds(b: Book, evs: seq<Event>, tenant: string, resource: string, limit: int)
    requires Limit(b, tenant, resource) == Some(limit) && 0 <= Usage(b, tenant, resource) <= limit <= MAX_INT64
    requires forall e | e in evs :: Quiet(e, tenant, resource, limit)
    ensures Limit(Run(b, evs), tenant, resource) == Some(limit)
    ensures Usage(Run(b, evs), tenant, resource) == Usage(b, tenant, resource) + Consumed(b, evs, tenant, resource)
    ensures Usage(b, tenant, resource) <= Usage(Run(b, evs), tenant, resource) <= limit
  {
    if evs != [] {
      var before, e := evs[..|evs| - 1], evs[|evs| - 1];
      LimitHolds(b, before, tenant, resource, limit);
      QuietStep(Run(b, before), e, tenant, resource, limit);
    }
  }

  lemma QuietStep(b: Book, e: Event, tenant: string, resource: string, limit: int)
    requires Limit(b, tenant, resource) == Some(limit) && 0 <= Usage(b, tenant, resource) <= limit <= MAX_INT64
    requires Quiet(e, tenant, resource, limit)
    ensures Limit(Apply(b, e), tenant, resource) == Some(limit)
    ensures Usage(b, tenant, resource) <= Usage(Apply(b, e), tenant, resource) <= limit
    ensures Usage(Apply(b, e), tenant, resource) == Usage(b, tenant, resource) +
      if e.Consume? && e.tenant == tenant && e.resource == resource && Accepts(b, tenant, resource, e.amount)
      then e.amount else 0
  {
    if e.Consume? && e.tenant == tenant && e.resource == resource {
      WrapIsIdentity(Usage(b, tenant, resource) + e.amount);
    }
  }

  class Quota {
    var usage: Table
    var limits: Table

    ghost function View(): Book
      reads this
    {
      Book(usage, limits)
    }

    constructor ()
      ensures View() == Book(map[], map[])
    {
      usage, limits := map[], map[];
    }

    method SetLimit(tenant: string, resource: string, limit: int)
      modifies this
      ensures View() == Apply(old(View()), Event.SetLimit(tenant, resource, limit))
    {
      if tenant !in limits {
        limits := limits[tenant := map[]];
      }
      limits := limits[tenant := limits[tenant][resource := limit]];
    }

    method Consume(tenant: string, resource: string, amount: int) returns (err: Option<QuotaExceededError>)
      modifies this
      ensures err.None? <==> Accepts(old(View()), tenant, resource, amount)
      ensures err.Some? ==>
        && Limit(old(View()), tenant, resource) == Some(err.value.limit)
        && err.value.used == Usage(old(View()), tenant, resource)
        && (err.value.tenant, err.value.resource, err.value.requested) == (tenant, resource, amount)
      ensures View() == Apply(old(View()), Event.Consume(tenant, resource, amount))
    {
      if tenant !in limits || resource !in limits[tenant] {
        return None;
      }
      var limit := limits[tenant][resource];
      var used := 0;
      if tenant in usage && resource in usage[tenant] {
        used := usage[tenant][resource];
      }
      if Wrap64(used + amount) > limit {
        return Some(QuotaExceededError(tenant, resource, limit, used, amount));
      }
      if tenant !in usage {
        usage := usage[tenant := map[]];
      }
      usage := usage[tenant := usage[tenant][resource := Wrap64(used + amount)]];
      err := None;
    }

    method Reset(tenant: string)
      modifies this
      ensures View() == Apply(old(View()), Event.Reset(tenant))
    {
      usage := usage - {tenant};
    }
  }

  // ---- itoa ----

  function Digit(d: int): char
    requires 0 <= d < 10
  {
    '0' + d as char
  }

  function Digits(n: int): string {
    if n <= 0 then "" else Digits(n / 10) + [Digit(n % 10)]
  }

  function Text(v: int): string {
    if v == 0 then "0" else if v < 0 then "-" + Digits(Wrap64(-v)) else Digits(v)
  }

  lemma DigitsOneByOne(n: int, digits: string)
    requires n > 0
    ensures Digits(n / 10) + ([Digit(n % 10)] + digits) == Digits(n) + digits
  {
    assert Digits(n) == Digits(n / 10) + [Digit(n % 10)];
  }

  // The loop of itoa.
  method PrependDigits(v: int) returns (digits: string)
    ensures digits == Digits(v)
  {
    var rest := v;
    digits := "";
    while rest > 0
      invariant Digits(v) == Digits(rest) + digits
      decreases rest
    {
      DigitsOneByOne(rest, digits);
      digits := [Digit(rest % 10)] + digits;
      rest := rest / 10;
    }
    assert Digits(rest) == "";
  }

  method Itoa(v: int) returns (s: string)
    requires IsInt64(v)
    ensures s == Text(v)
  {
    if v == 0 {
      return "0";
    }
    var negative := v < 0;
    var digits := PrependDigits(if negative then Wrap64(-v) else v);
    s := if negative then "-" + digits else digits;
  }

  function Parse(s: string): int {
    if s != "" && s[0] == '-' then -ValueOf(s[1..]) else ValueOf(s)
  }

  lemma {:induction false} DigitsReadBack(n: nat)
    ensures ValueOf(Digits(n)) == n
    ensures n > 0 ==> Digits(n) != "" && Digits(n)[0] != '-'
  {
    if n > 0 {
      DigitsReadBack(n / 10);
      var d := [Digit(n % 10)];
      assert (Digits(n / 10) + d)[..|Digits(n / 10)|] == Digits(n / 10);
    }
  }

  lemma ParseNegative(digits: string)
    ensures Parse("-" + digits) == -ValueOf(digits)
  {
    assert ("-" + digits)[1..] == digits;
  }

  lemma NegativeReadsBack(v: int)
    requires MIN_INT64 < v < 0
    ensures Parse(Text(v)) == v
  {
    WrapIsIdentity(-v);
    var digits := Digits(-v);
    assert ValueOf(digits) == -v by {
      DigitsReadBack(-v);
    }
    ParseNegative(digits);
  }

  // Its negation wraps around to itself, so it has no digits.
  lemma LeastHasNoDigits()
    ensures Text(MIN_INT64) == "-" && Parse("-") == 0
  {
    assert Wrap64(-MIN_INT64) == MIN_INT64;
    assert Digits(MIN_INT64) == "" && "-" + "" == "-" && "-"[1..] == "";
  }

  // The text reads back as the number, except for the least one.
  lemma TextReadsBack(v: int)
    requires IsInt64(v)
    ensures Parse(Text(v)) == v <==> v != MIN_INT64
  {
    if v == MIN_INT64 {
      LeastHasNoDigits();
    } else if v < 0 {
      NegativeReadsBack(v);
    } else if v > 0 {
      DigitsReadBack(v);
    } else {
      assert "0"[..0] == "";
    }
  }
}
