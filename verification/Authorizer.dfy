// auth/authorizer.go, RBACAuthorizer: first match among the policies, by priority.
module Authorization {
  import opened Options
  import opened Patterns

  // Any other effect than these two is never looked at.
  datatype Effect = Allow | Deny | Other(name: string)

  datatype Policy = Policy(
    name: string, action: string, roles: seq<string>, permissions: seq<string>, effect: Effect, priority: int)

  datatype Identity = Identity(roles: seq<string>, permissions: seq<string>)

  datatype Request = Request(identity: Identity, action: string, resource: string)

  datatype Decision = Permitted | DeniedBy(policy: string) | NoMatchingPolicy | IdentityRequired

  function FullAction(r: Request): string {
    if r.resource != "" then r.action + ":" + r.resource else r.action
  }

  predicate RoleFits(required: string, role: string) {
    required == role || required == "*"
  }

  predicate PermissionFits(required: string, permission: string) {
    Matches(required, permission) || required == "*"
  }

  // A required role "*" stands for any role, of which the identity must have one.
  predicate IdentityMatches(id: Identity, p: Policy) {
    || (exists i, j | 0 <= i < |p.roles| && 0 <= j < |id.roles| :: RoleFits(p.roles[i], id.roles[j]))
    || (exists i, j | 0 <= i < |p.permissions| && 0 <= j < |id.permissions| ::
          PermissionFits(p.permissions[i], id.permissions[j]))
    || (p.roles == [] && p.permissions == [])
  }

  predicate Applicable(r: Request, p: Policy) {
    && (Matches(p.action, FullAction(r)) || Matches(p.action, r.action))
    && IdentityMatches(r.identity, p)
    && !p.effect.Other?
  }

  function Verdict(p: Policy): Decision
    requires !p.effect.Other?
  {
    if p.effect.Allow? then Permitted else DeniedBy(p.name)
  }

  function FirstMatch(s: seq<Policy>, r: Request, k: nat): Decision
    decreases |s| - k
  {
    if k >= |s| then NoMatchingPolicy
    else if Applicable(r, s[k]) then Verdict(s[k])
    else FirstMatch(s, r, k + 1)
  }

  function Swap(s: seq<Policy>, i: nat, j: nat): seq<Policy>
    requires i < |s| && j < |s|
  {
    s[i := s[j]][j := s[i]]
  }

  function Compared(s: seq<Policy>, i: nat, j: nat): seq<Policy>
    requires i < |s| && j < |s|
  {
    if s[j].priority > s[i].priority then Swap(s, i, j) else s
  }

  // The exchange sort, from its position (i, j) on.
  function Exchange(s: seq<Policy>, i: nat, j: nat): seq<Policy>
    requires i < j
    decreases |s| - i, |s| - j
  {
    if i >= |s| then s
    else if j >= |s| then Exchange(s, i + 1, i + 2)
    else Exchange(Compared(s, i, j), i, j + 1)
  }

  function Sorted(s: seq<Policy>): seq<Policy> {
    Exchange(s, 0, 1)
  }

  function Decide(ps: seq<Policy>, r: Request): Decision {
    FirstMatch(Sorted(ps), r, 0)
  }

  // ---- who and what a policy is about ----

  // Roles alone: one that the identity has, or any it has for "*"; without them, anyone.
  lemma RolesMatch(id: Identity, p: Policy)
    requires p.permissions == []
    ensures IdentityMatches(id, p) <==>
      || p.roles == []
      || ("*" in p.roles && id.roles != [])
      || exists role :: role in id.roles && role in p.roles
  {
    if role :| role in id.roles && role in p.roles {
      var i :| 0 <= i < |p.roles| && p.roles[i] == role;
      var j :| 0 <= j < |id.roles| && id.roles[j] == role;
      assert RoleFits(p.roles[i], id.roles[j]);
    }
    if "*" in p.roles && id.roles != [] {
      var i :| 0 <= i < |p.roles| && p.roles[i] == "*";
      assert RoleFits(p.roles[i], id.roles[0]);
    }
    if i, j :| 0 <= i < |p.roles| && 0 <= j < |id.roles| && RoleFits(p.roles[i], id.roles[j]) {
      assert p.roles[i] in p.roles && id.roles[j] in id.roles;
    }
  }

  // Permissions alone: one that the identity has and that matches.
  lemma PermissionsMatch(id: Identity, p: Policy)
    requires p.roles == []
    ensures IdentityMatches(id, p) <==>
      || p.permissions == []
      || exists required, held ::
           required in p.permissions && held in id.permissions && (required == "*" || Matches(required, held))
  {
    if required, held :|
      required in p.permissions && held in id.permissions && (required == "*" || Matches(required, held))
    {
      var i :| 0 <= i < |p.permissions| && p.permissions[i] == required;
      var j :| 0 <= j < |id.permissions| && id.permissions[j] == held;
      assert PermissionFits(p.permissions[i], id.permissions[j]);
    }
  }

  // Both: either will do, and no one who has neither is let in.
  lemma EitherMatches(id: Identity, p: Policy)
    requires p.roles != [] && p.permissions != []
    ensures IdentityMatches(id, p) <==>
      IdentityMatches(id, p.(permissions := [])) || IdentityMatches(id, p.(roles := []))
  {
  }

  // A policy for a literal action is for that action, with or without its resource, and
  // applies only if it allows or denies.
  lemma LiteralAppliesIff(r: Request, p: Policy)
    requires '*' !in p.action
    ensures Applicable(r, p) <==>
      && (p.action == r.action || (r.resource != "" && p.action == r.action + ":" + r.resource))
      && IdentityMatches(r.identity, p)
      && (p.effect == Allow || p.effect == Deny)
  {
  }

  // ---- the sort ----

  predicate Descending(s: seq<Policy>) {
    forall i, j | 0 <= i < j < |s| :: s[i].priority >= s[j].priority
  }

  lemma SwapPermutes(s: seq<Policy>, i: nat, j: nat)
    requires i < |s| && j < |s|
    ensures multiset(Swap(s, i, j)) == multiset(s)
  {
  }

  // What the sort has achieved at position (i, j).
  predicate SortedSoFar(s: seq<Policy>, i: nat, j: nat) {
    && (forall x, y | 0 <= x < i && x < y < |s| :: s[x].priority >= s[y].priority)
    && (forall y | i < y < j && y < |s| :: s[i].priority >= s[y].priority)
  }

  lemma ExchangeStep(s: seq<Policy>, i: nat, j: nat)
    requires i < j < |s| && SortedSoFar(s, i, j)
    ensures SortedSoFar(Compared(s, i, j), i, j + 1)
  {
    if s[j].priority > s[i].priority {
      var s' := Swap(s, i, j);
      forall x, y | 0 <= x < i && x < y < |s'|
        ensures s'[x].priority >= s'[y].priority
      {
        assert s[x].priority >= s[y].priority && s[x].priority >= s[i].priority && s[x].priority >= s[j].priority;
      }
    }
  }

  lemma {:induction false} ExchangeSorts(s: seq<Policy>, i: nat, j: nat)
    requires i < j && SortedSoFar(s, i, j)
    ensures Descending(Exchange(s, i, j))
    decreases |s| - i, |s| - j
  {
    if i < |s| {
      if j >= |s| {
        ExchangeSorts(s, i + 1, i + 2);
      } else {
        ExchangeStep(s, i, j);
        ExchangeSorts(Compared(s, i, j), i, j + 1);
      }
    }
  }

  lemma {:induction false} ExchangePermutes(s: seq<Policy>, i: nat, j: nat)
    requires i < j
    ensures multiset(Exchange(s, i, j)) == multiset(s)
    decreases |s| - i, |s| - j
  {
    if i < |s| {
      if j >= |s| {
        ExchangePermutes(s, i + 1, i + 2);
      } else {
        SwapPermutes(s, i, j);
        ExchangePermutes(Compared(s, i, j), i, j + 1);
      }
    }
  }

  lemma {:induction false} ExchangeKeepsDescending(s: seq<Policy>, i: nat, j: nat)
    requires i < j && Descending(s)
    ensures Exchange(s, i, j) == s
    decreases |s| - i, |s| - j
  {
    if i < |s| {
      if j >= |s| {
        ExchangeKeepsDescending(s, i + 1, i + 2);
      } else {
        ExchangeKeepsDescending(s, i, j + 1);
      }
    }
  }

  lemma SortPermutes(ps: seq<Policy>)
    ensures Descending(Sorted(ps)) && multiset(Sorted(ps)) == multiset(ps)
    ensures forall p :: p in Sorted(ps) <==> p in ps
  {
    ExchangeSorts(ps, 0, 1);
    ExchangePermutes(ps, 0, 1);
    assert forall p :: p in Sorted(ps) <==> p in multiset(Sorted(ps));
    assert forall p :: p in ps <==> p in multiset(ps);
  }

  // ---- the decision ----

  // The applicable policies that no other applicable one outranks.
  predicate Top(ps: seq<Policy>, r: Request, p: Policy) {
    p in ps && Applicable(r, p) && forall q | q in ps && Applicable(r, q) :: q.priority <= p.priority
  }

  predicate TopAgrees(ps: seq<Policy>, r: Request) {
    forall p, q | p in ps && q in ps && Top(ps, r, p) && Top(ps, r, q) :: p.effect == q.effect
  }

  lemma {:induction false} FirstMatchIsFirst(s: seq<Policy>, r: Request, k: nat) returns (i: nat)
    ensures k <= i
    ensures forall j | k <= j < i && j < |s| :: !Applicable(r, s[j])
    ensures if i < |s| then Applicable(r, s[i]) && FirstMatch(s, r, k) == Verdict(s[i])
            else FirstMatch(s, r, k) == NoMatchingPolicy
    decreases |s| - k
  {
    i := k;
    if k < |s| && !Applicable(r, s[k]) {
      i := FirstMatchIsFirst(s, r, k + 1);
    }
  }

  // The decision is the verdict of a top policy; without one, there is no permission.
  lemma DecisionIsTop(ps: seq<Policy>, r: Request)
    ensures if exists p :: p in ps && Applicable(r, p)
            then exists p :: Top(ps, r, p) && Decide(ps, r) == if p.effect == Allow then Permitted else DeniedBy(p.name)
            else Decide(ps, r) == NoMatchingPolicy
  {
    var s := Sorted(ps);
    SortPermutes(ps);
    var i := FirstMatchIsFirst(s, r, 0);
    if i < |s| {
      assert s[i] in ps;
      forall q | q in ps && Applicable(r, q)
        ensures q.priority <= s[i].priority
      {
        assert q in s;
        var j :| 0 <= j < |s| && s[j] == q;
      }
      assert Top(ps, r, s[i]);
    } else {
      forall p | p in ps
        ensures !Applicable(r, p)
      {
        assert p in s;
      }
    }
  }

  predicate SameApplicable(ps: seq<Policy>, qs: seq<Policy>, r: Request) {
    && (forall p | p in ps && Applicable(r, p) :: p in qs)
    && (forall q | q in qs && Applicable(r, q) :: q in ps)
  }

  // When the top policies agree, neither the order of insertion nor any inapplicable
  // policy has a say.
  lemma OrderDoesNotMatter(ps: seq<Policy>, qs: seq<Policy>, r: Request)
    requires TopAgrees(ps, r) && SameApplicable(ps, qs, r)
    ensures Decide(ps, r).Permitted? <==> Decide(qs, r).Permitted?
    ensures Decide(ps, r).NoMatchingPolicy? <==> Decide(qs, r).NoMatchingPolicy?
  {
    DecisionIsTop(ps, r);
    DecisionIsTop(qs, r);
    if p :| p in ps && Applicable(r, p) {
      var p' :| Top(ps, r, p') && Decide(ps, r) == Verdict(p');
      var q' :| Top(qs, r, q') && Decide(qs, r) == Verdict(q');
      assert Top(ps, r, q');
    }
  }

  lemma PermutationsShareApplicable(ps: seq<Policy>, qs: seq<Policy>, r: Request)
    requires multiset(ps) == multiset(qs)
    ensures SameApplicable(ps, qs, r)
  {
    assert forall p :: p in ps <==> p in multiset(ps);
    assert forall p :: p in qs <==> p in multiset(qs);
  }

  lemma InapplicablePolicyDoesNotMatter(ps: seq<Policy>, i: nat, x: Policy, r: Request)
    requires i <= |ps| && TopAgrees(ps, r) && !Applicable(r, x)
    ensures Decide(ps[..i] + [x] + ps[i..], r).Permitted? <==> Decide(ps, r).Permitted?
  {
    var qs := ps[..i] + [x] + ps[i..];
    forall p | p in ps
      ensures p in qs
    {
      assert ps == ps[..i] + ps[i..];
    }
    OrderDoesNotMatter(ps, qs, r);
  }

  // Exchanging the deciding policy for a later one of the same rank.
  lemma SwapDecides(s: seq<Policy>, r: Request, i: nat, j: nat)
    requires Descending(s) && i < j < |s| && s[i].priority == s[j].priority
    requires Applicable(r, s[j]) && forall k | 0 <= k < i :: !Applicable(r, s[k])
    ensures Decide(Swap(s, i, j), r) == Verdict(s[j])
  {
    var s' := Swap(s, i, j);
    assert forall k | 0 <= k < |s| :: s'[k].priority == s[k].priority;
    assert Descending(s');
    ExchangeKeepsDescending(s', 0, 1);
    assert forall k | 0 <= k < i :: s'[k] == s[k];
    var k := FirstMatchIsFirst(s', r, 0);
    assert s'[i] == s[j] && k == i;
  }

  // A top policy with another effect than the deciding one comes later, and ties with it.
  lemma RivalIsLater(ps: seq<Policy>, r: Request, i: nat, g: Policy) returns (j: nat)
    requires var s := Sorted(ps);
      i < |s| && Applicable(r, s[i]) && forall k | 0 <= k < i :: !Applicable(r, s[k])
    requires Top(ps, r, g) && g.effect != Sorted(ps)[i].effect
    ensures var s := Sorted(ps); i < j < |s| && s[j] == g && s[i].priority == g.priority
  {
    var s := Sorted(ps);
    SortPermutes(ps);
    assert g in s && s[i] in ps;
    j :| 0 <= j < |s| && s[j] == g;
  }

  // The deciding policy, and a later one that ties with it and disagrees.
  lemma TiedRival(ps: seq<Policy>, r: Request) returns (i: nat, j: nat)
    requires !TopAgrees(ps, r)
    ensures var s := Sorted(ps);
      && i < j < |s| && s[i].priority == s[j].priority && s[i].effect != s[j].effect
      && Applicable(r, s[i]) && Applicable(r, s[j]) && (forall k | 0 <= k < i :: !Applicable(r, s[k]))
      && Decide(ps, r) == Verdict(s[i])
  {
    var s := Sorted(ps);
    i := FirstMatchIsFirst(s, r, 0);
    var p, q :| p in ps && q in ps && Top(ps, r, p) && Top(ps, r, q) && p.effect != q.effect;
    assert i < |s| by {
      SortPermutes(ps);
      assert p in s;
    }
    j := RivalIsLater(ps, r, i, if s[i].effect == p.effect then q else p);
  }

  // Two orders of insertion that decide differently.
  lemma TieBrokenByOrder(ps: seq<Policy>, r: Request) returns (qs: seq<Policy>)
    requires !TopAgrees(ps, r)
    ensures multiset(qs) == multiset(ps)
    ensures Decide(ps, r).Permitted? != Decide(qs, r).Permitted?
  {
    var i, j := TiedRival(ps, r);
    var s := Sorted(ps);
    SortPermutes(ps);
    SwapDecides(s, r, i, j);
    SwapPermutes(s, i, j);
    qs := Swap(s, i, j);
  }

  // The decision is the same for every order of insertion exactly when the top policies
  // agree.
  lemma OrderIndependentIff(ps: seq<Policy>, r: Request)
    ensures (forall qs | multiset(qs) == multiset(ps) :: Decide(qs, r).Permitted? == Decide(ps, r).Permitted?)
       <==> TopAgrees(ps, r)
  {
    if TopAgrees(ps, r) {
      forall qs | multiset(qs) == multiset(ps)
        ensures Decide(qs, r).Permitted? == Decide(ps, r).Permitted?
      {
        PermutationsShareApplicable(ps, qs, r);
        OrderDoesNotMatter(ps, qs, r);
      }
    } else {
      var qs := TieBrokenByOrder(ps, r);
      assert multiset(qs) == multiset(ps);
    }
  }

  // ---- how a tie turns ----

  // One pass of the exchanges: what it brings to the front, and what it leaves behind.
  function Front(cur: Policy, rest: seq<Policy>): Policy
    decreases |rest|
  {
    if rest == [] then cur
    else Front(if rest[0].priority > cur.priority then rest[0] else cur, rest[1..])
  }

  function Behind(cur: Policy, rest: seq<Policy>): (left: seq<Policy>)
    ensures |left| == |rest|
    decreases |rest|
  {
    if rest == [] then []
    else if rest[0].priority > cur.priority then [cur] + Behind(rest[0], rest[1..])
    else [rest[0]] + Behind(cur, rest[1..])
  }

  // The sort, pass by pass.
  function Passes(s: seq<Policy>): seq<Policy>
    decreases |s|
  {
    if s == [] then [] else [Front(s[0], s[1..])] + Passes(Behind(s[0], s[1..]))
  }

  // Where the exchanges lead from position (i, j).
  function PassesFrom(s: seq<Policy>, i: nat, j: nat): seq<Policy>
    requires i < j <= |s|
  {
    s[..i] + [Front(s[i], s[j..])] + Passes(s[i + 1..j] + Behind(s[i], s[j..]))
  }

  lemma WithinPass(s: seq<Policy>, i: nat, j: nat)
    requires i < j < |s|
    ensures PassesFrom(Compared(s, i, j), i, j + 1) == PassesFrom(s, i, j)
  {
    var t := Compared(s, i, j);
    assert s[j..][0] == s[j] && s[j..][1..] == s[j + 1..] == t[j + 1..] && t[..i] == s[..i];
    assert t[i + 1..j + 1] == s[i + 1..j] + [t[j]];
    assert t[i + 1..j + 1] + Behind(t[i], t[j + 1..]) == s[i + 1..j] + Behind(s[i], s[j..]);
  }

  lemma NextPass(s: seq<Policy>, i: nat)
    requires i + 1 < |s|
    ensures PassesFrom(s, i, |s|) == PassesFrom(s, i + 1, i + 2)
  {
    var t := s[i + 1..];
    assert s[i + 1..|s|] + Behind(s[i], s[|s|..]) == t && s[..i + 1] == s[..i] + [s[i]];
    assert t[0] == s[i + 1] && t[1..] == s[i + 2..];
    assert s[i + 2..i + 2] + Behind(s[i + 1], s[i + 2..]) == Behind(t[0], t[1..]);
    assert PassesFrom(s, i + 1, i + 2) == s[..i + 1] + Passes(t);
  }

  lemma LastPass(s: seq<Policy>, i: nat)
    requires i + 1 == |s|
    ensures PassesFrom(s, i, |s|) == s
  {
    assert s[i + 1..|s|] + Behind(s[i], s[|s|..]) == [] && s == s[..i] + [s[i]];
  }

  lemma {:induction false} ExchangeIsPasses(s: seq<Policy>, i: nat, j: nat, t: seq<Policy>)
    requires i < j <= |s| && t == PassesFrom(s, i, j)
    ensures Exchange(s, i, j) == t
    decreases |s| - i, |s| - j
  {
    if j < |s| {
      WithinPass(s, i, j);
      ExchangeIsPasses(Compared(s, i, j), i, j + 1, t);
    } else if i + 1 < |s| {
      NextPass(s, i);
      ExchangeIsPasses(s, i + 1, i + 2, t);
    } else {
      LastPass(s, i);
      assert Exchange(s, i + 1, i + 2) == s;
    }
  }

  lemma SortedIsPasses(ps: seq<Policy>)
    ensures Sorted(ps) == Passes(ps)
  {
    if ps != [] {
      ExchangeIsPasses(ps, 0, 1, PassesFrom(ps, 0, 1));
      assert ps[1..1] + Behind(ps[0], ps[1..]) == Behind(ps[0], ps[1..]);
      assert ps[..0] == [];
    }
  }

  lemma SumsSwap(a: multiset<Policy>, b: multiset<Policy>, c: multiset<Policy>)
    ensures a + (b + c) == b + (a + c)
  {
  }

  lemma {:induction false} FrontIsGreatest(cur: Policy, rest: seq<Policy>)
    ensures var m := Front(cur, rest);
      m.priority >= cur.priority && forall p | p in rest :: m.priority >= p.priority
    ensures var m := Front(cur, rest); multiset{m} + multiset(Behind(cur, rest)) == multiset{cur} + multiset(rest)
    decreases |rest|
  {
    if rest != [] {
      var first, others := rest[0], rest[1..];
      assert rest == [first] + others && multiset(rest) == multiset{first} + multiset(others);
      if first.priority > cur.priority {
        FrontIsGreatest(first, others);
        assert multiset(Behind(cur, rest)) == multiset{cur} + multiset(Behind(first, others));
        SumsSwap(multiset{Front(first, others)}, multiset{cur}, multiset(Behind(first, others)));
      } else {
        FrontIsGreatest(cur, others);
        assert multiset(Behind(cur, rest)) == multiset{first} + multiset(Behind(cur, others));
        SumsSwap(multiset{Front(cur, others)}, multiset{first}, multiset(Behind(cur, others)));
        SumsSwap(multiset{first}, multiset{cur}, multiset(others));
      }
    }
  }

  lemma {:induction false} PassWithOneMore(cur: Policy, rest: seq<Policy>, x: Policy)
    ensures var m, left := Front(cur, rest), Behind(cur, rest);
      if x.priority > m.priority then Front(cur, rest + [x]) == x && Behind(cur, rest + [x]) == left + [m]
      else Front(cur, rest + [x]) == m && Behind(cur, rest + [x]) == left + [x]
    decreases |rest|
  {
    if rest == [] {
      assert rest + [x] == [x] && [x][1..] == [];
    } else {
      assert (rest + [x])[0] == rest[0] && (rest + [x])[1..] == rest[1..] + [x];
      PassWithOneMore(if rest[0].priority > cur.priority then rest[0] else cur, rest[1..], x);
    }
  }

  // The policies of one priority, in order.
  function Level(s: seq<Policy>, priority: int): seq<Policy> {
    if s == [] then []
    else (if s[0].priority == priority then [s[0]] else []) + Level(s[1..], priority)
  }

  function Rotated(s: seq<Policy>, m: nat): seq<Policy>
    requires m <= |s|
  {
    s[m..] + s[..m]
  }

  function Turned(s: seq<Policy>): seq<Policy> {
    if s == [] then [] else Rotated(s, 1)
  }

  lemma {:induction false} LevelIsEmpty(s: seq<Policy>, priority: int)
    requires forall p | p in s :: p.priority < priority
    ensures Level(s, priority) == []
  {
    if s != [] {
      assert s[0] in s;
      LevelIsEmpty(s[1..], priority);
    }
  }

  lemma BehindIsBelow(s: seq<Policy>)
    requires s != []
    ensures Front(s[0], s[1..]) in s
    ensures forall p | p in Behind(s[0], s[1..]) :: p in s && p.priority <= Front(s[0], s[1..]).priority
  {
    var m, left := Front(s[0], s[1..]), Behind(s[0], s[1..]);
    FrontIsGreatest(s[0], s[1..]);
    assert s == [s[0]] + s[1..];
    assert m in multiset{m} + multiset(left) && m in multiset(s);
    forall p | p in left
      ensures p in s && p.priority <= m.priority
    {
      assert p in multiset{m} + multiset(left) && p in multiset(s);
    }
  }

  lemma {:induction false} PassesPermute(s: seq<Policy>)
    ensures multiset(Passes(s)) == multiset(s)
    decreases |s|
  {
    if s != [] {
      FrontIsGreatest(s[0], s[1..]);
      PassesPermute(Behind(s[0], s[1..]));
      assert s == [s[0]] + s[1..];
    }
  }

  lemma LowPassesHaveNoLevel(s: seq<Policy>, priority: int)
    requires forall p | p in s :: p.priority < priority
    ensures Level(Passes(s), priority) == []
  {
    PassesPermute(s);
    forall p | p in Passes(s)
      ensures p.priority < priority
    {
      assert p in multiset(Passes(s)) && p in multiset(s);
    }
    LevelIsEmpty(Passes(s), priority);
  }

  function Only(p: Policy, priority: int): seq<Policy> {
    if p.priority == priority then [p] else []
  }

  lemma NoneInFront(p: Policy, s: seq<Policy>, priority: int)
    requires p.priority != priority
    ensures Only(p, priority) + s == s
  {
  }

  lemma LevelOfPasses(s: seq<Policy>, priority: int)
    requires s != []
    ensures var m, left := Front(s[0], s[1..]), Behind(s[0], s[1..]);
      Level(Passes(s), priority) == Only(m, priority) + Level(Passes(left), priority)
  {
    var m, left := Front(s[0], s[1..]), Behind(s[0], s[1..]);
    assert ([m] + Passes(left))[1..] == Passes(left);
  }

  lemma LevelWithOneMore(s: seq<Policy>, x: Policy, priority: int)
    requires s != []
    ensures var m, left := Front(s[0], s[1..]), Behind(s[0], s[1..]);
      Level(Passes(s + [x]), priority) ==
        if x.priority > m.priority then Only(x, priority) + Level(Passes(left + [m]), priority)
        else Only(m, priority) + Level(Passes(left + [x]), priority)
  {
    var t := s + [x];
    PassWithOneMore(s[0], s[1..], x);
    assert t[0] == s[0] && t[1..] == s[1..] + [x];
    LevelOfPasses(t, priority);
  }

  lemma TurnedCons(p: Policy, s: seq<Policy>)
    ensures Turned([p] + s) == s + [p]
  {
  }

  lemma LevelOfOne(x: Policy, priority: int)
    ensures Level(Passes([x]), priority) == Only(x, priority)
  {
    assert [x][1..] == [] && Passes([x]) == [x];
  }

  lemma OnlyOfTop(s: seq<Policy>, y: Policy)
    requires forall p | p in s :: p.priority < y.priority
    ensures Level(Passes(s), y.priority) == [] && Level(Passes(s + [y]), y.priority) == [y]
  {
    LowPassesHaveNoLevel(s, y.priority);
    if s == [] {
      assert s + [y] == [y];
      LevelOfOne(y, y.priority);
    } else {
      var m, left := Front(s[0], s[1..]), Behind(s[0], s[1..]);
      BehindIsBelow(s);
      LevelWithOneMore(s, y, y.priority);
      LowPassesHaveNoLevel(left + [m], y.priority);
    }
  }

  lemma Regrouped(a: seq<Policy>, b: seq<Policy>, c: seq<Policy>)
    ensures a + b + c == a + (b + c)
  {
  }

  // A policy of the top priority that comes last stays last in its priority.
  lemma {:induction false} LastOfTopStaysLast(s: seq<Policy>, y: Policy)
    requires forall p | p in s :: p.priority <= y.priority
    ensures Level(Passes(s + [y]), y.priority) == Level(Passes(s), y.priority) + [y]
    decreases |s|
  {
    if s == [] || Front(s[0], s[1..]).priority < y.priority {
      if s != [] {
        FrontIsGreatest(s[0], s[1..]);
        assert s == [s[0]] + s[1..];
      }
      OnlyOfTop(s, y);
    } else {
      var m, left := Front(s[0], s[1..]), Behind(s[0], s[1..]);
      BehindIsBelow(s);
      LevelOfPasses(s, y.priority);
      LevelWithOneMore(s, y, y.priority);
      Regrouped(Only(m, y.priority), Level(Passes(left), y.priority), [y]);
      LastOfTopStaysLast(left, y);
    }
  }

  // A higher policy that comes last turns every lower priority by one.
  lemma {:induction false} HigherOneTurnsLevel(s: seq<Policy>, x: Policy, priority: int)
    requires x.priority > priority
    ensures Level(Passes(s + [x]), priority) == Turned(Level(Passes(s), priority))
    decreases |s|
  {
    if s == [] {
      assert s + [x] == [x];
      LevelOfOne(x, priority);
    } else {
      var m, left := Front(s[0], s[1..]), Behind(s[0], s[1..]);
      LevelOfPasses(s, priority);
      LevelWithOneMore(s, x, priority);
      if x.priority <= m.priority {
        NoneInFront(m, Level(Passes(left), priority), priority);
        NoneInFront(m, Level(Passes(left + [x]), priority), priority);
        HigherOneTurnsLevel(left, x, priority);
      } else {
        NoneInFront(x, Level(Passes(left + [m]), priority), priority);
        FrontTurnsLevel(s, priority);
      }
    }
  }

  // The same once the higher one is in front, and the front of s comes last.
  lemma {:induction false} FrontTurnsLevel(s: seq<Policy>, priority: int)
    requires s != []
    ensures var m, left := Front(s[0], s[1..]), Behind(s[0], s[1..]);
      Level(Passes(left + [m]), priority) == Turned(Only(m, priority) + Level(Passes(left), priority))
    decreases |s|, 0
  {
    var m, left := Front(s[0], s[1..]), Behind(s[0], s[1..]);
    BehindIsBelow(s);
    if m.priority > priority {
      HigherOneTurnsLevel(left, m, priority);
      NoneInFront(m, Level(Passes(left), priority), priority);
    } else if m.priority == priority {
      LastOfTopStaysLast(left, m);
      TurnedCons(m, Level(Passes(left), priority));
    } else {
      LowPassesHaveNoLevel(left, priority);
      LowPassesHaveNoLevel(left + [m], priority);
    }
  }

  function Copies(x: Policy, m: nat): seq<Policy> {
    if m == 0 then [] else Copies(x, m - 1) + [x]
  }

  lemma RotatedOnce(s: seq<Policy>, m: nat)
    requires m < |s|
    ensures Turned(Rotated(s, m)) == Rotated(s, m + 1)
  {
    assert Rotated(s, m)[1..] == s[m + 1..] + s[..m] && Rotated(s, m)[..1] == [s[m]];
    assert s[..m] + [s[m]] == s[..m + 1];
  }

  lemma HigherOneTurnsSorted(ps: seq<Policy>, x: Policy, priority: int)
    requires x.priority > priority
    ensures Level(Sorted(ps + [x]), priority) == Turned(Level(Sorted(ps), priority))
  {
    SortedIsPasses(ps);
    SortedIsPasses(ps + [x]);
    HigherOneTurnsLevel(ps, x, priority);
  }

  lemma OneMoreCopyTurns(ps: seq<Policy>, x: Policy, priority: int, level: seq<Policy>, m: nat)
    requires x.priority > priority && m < |level| && Level(Sorted(ps), priority) == Rotated(level, m)
    ensures Level(Sorted(ps + [x]), priority) == Rotated(level, m + 1)
  {
    HigherOneTurnsSorted(ps, x, priority);
    RotatedOnce(level, m);
  }

  // The sort is not stable: m copies of a higher policy turn every lower priority by m.
  lemma {:induction false} CopiesTurnLevel(ps: seq<Policy>, x: Policy, priority: int, m: nat)
    requires x.priority > priority && m <= |Level(Sorted(ps), priority)|
    ensures Level(Sorted(ps + Copies(x, m)), priority) == Rotated(Level(Sorted(ps), priority), m)
  {
    if m == 0 {
      assert ps + Copies(x, 0) == ps;
    } else {
      var before := ps + Copies(x, m - 1);
      CopiesTurnLevel(ps, x, priority, m - 1);
      OneMoreCopyTurns(before, x, priority, Level(Sorted(ps), priority), m - 1);
      assert ps + Copies(x, m) == before + [x];
    }
  }

  lemma {:induction false} FirstMatchFrom(s: seq<Policy>, r: Request, k: nat)
    requires k <= |s|
    ensures FirstMatch(s, r, k) == FirstMatch(s[k..], r, 0)
    decreases |s| - k
  {
    if k < |s| {
      FirstMatchFrom(s, r, k + 1);
      FirstMatchFrom(s[k..], r, 1);
      assert s[k..][1..] == s[k + 1..];
    }
  }

  lemma FirstMatchOfCons(p: Policy, s: seq<Policy>, r: Request)
    ensures FirstMatch([p] + s, r, 0) == if Applicable(r, p) then Verdict(p) else FirstMatch(s, r, 0)
  {
    FirstMatchFrom([p] + s, r, 1);
    assert ([p] + s)[1..] == s;
  }

  // Among sorted policies, the top priority that applies decides alone.
  lemma {:induction false} LevelDecides(s: seq<Policy>, r: Request, p: Policy)
    requires Descending(s) && p in s && Applicable(r, p)
    requires forall q | q in s && Applicable(r, q) :: q.priority <= p.priority
    ensures FirstMatch(s, r, 0) == FirstMatch(Level(s, p.priority), r, 0)
  {
    var first, rest := s[0], s[1..];
    assert s == [first] + rest && Level(s, p.priority) == Only(first, p.priority) + Level(rest, p.priority);
    FirstMatchOfCons(first, rest, r);
    FirstMatchOfCons(first, Level(rest, p.priority), r);
    assert [] + Level(rest, p.priority) == Level(rest, p.priority);
    if !Applicable(r, first) {
      assert p in rest;
      LevelDecides(rest, r, p);
    } else {
      var i :| 0 <= i < |s| && s[i] == p;
      assert first.priority == p.priority;
    }
  }

  lemma {:induction false} LevelHas(s: seq<Policy>, priority: int)
    ensures forall p :: p in Level(s, priority) <==> p in s && p.priority == priority
  {
    if s != [] {
      assert s == [s[0]] + s[1..];
      LevelHas(s[1..], priority);
    }
  }

  lemma TopLevelDecides(ps: seq<Policy>, r: Request, p: Policy)
    requires Top(ps, r, p)
    ensures Decide(ps, r) == FirstMatch(Level(Sorted(ps), p.priority), r, 0)
    ensures p in Level(Sorted(ps), p.priority)
  {
    SortPermutes(ps);
    LevelHas(Sorted(ps), p.priority);
    LevelDecides(Sorted(ps), r, p);
  }

  lemma {:induction false} CopiesAreSame(x: Policy, m: nat)
    ensures forall p | p in Copies(x, m) :: p == x
  {
    if m > 0 {
      CopiesAreSame(x, m - 1);
    }
  }

  // Any top policy can be made to decide, by enough copies of a higher one that does not
  // apply.
  lemma CopiesMakeDecide(ps: seq<Policy>, r: Request, p: Policy, x: Policy) returns (m: nat)
    requires Top(ps, r, p) && !Applicable(r, x) && x.priority > p.priority
    ensures Decide(ps + Copies(x, m), r) == Verdict(p)
  {
    TopLevelDecides(ps, r, p);
    var l := Level(Sorted(ps), p.priority);
    m :| 0 <= m < |l| && l[m] == p;
    CopiesTurnLevel(ps, x, p.priority, m);
    CopiesAreSame(x, m);
    assert Top(ps + Copies(x, m), r, p);
    TopLevelDecides(ps + Copies(x, m), r, p);
    assert Rotated(l, m)[0] == p;
  }

  // Policies that do not apply have no say exactly when the top policies agree: otherwise,
  // copies of any single higher one are enough to change the decision.
  lemma InapplicablePoliciesDoNotMatterIff(ps: seq<Policy>, r: Request, x: Policy)
    requires !Applicable(r, x) && forall p | Top(ps, r, p) :: x.priority > p.priority
    ensures (forall m: nat :: Decide(ps + Copies(x, m), r).Permitted? == Decide(ps, r).Permitted?)
       <==> TopAgrees(ps, r)
  {
    if TopAgrees(ps, r) {
      forall m: nat
        ensures Decide(ps + Copies(x, m), r).Permitted? == Decide(ps, r).Permitted?
      {
        CopiesAreSame(x, m);
        OrderDoesNotMatter(ps, ps + Copies(x, m), r);
      }
    } else {
      var p, q :| Top(ps, r, p) && Top(ps, r, q) && p.effect != q.effect;
      var i := CopiesMakeDecide(ps, r, p, x);
      var j := CopiesMakeDecide(ps, r, q, x);
      assert Decide(ps + Copies(x, i), r).Permitted? != Decide(ps + Copies(x, j), r).Permitted?;
    }
  }

  // The least example: two policies, and one copy.
  lemma InapplicablePolicyFlipsTie(p: Policy, q: Policy, x: Policy, r: Request)
    requires Applicable(r, p) && p.effect.Allow? && Applicable(r, q) && q.effect.Deny? && p.priority == q.priority
    requires !Applicable(r, x) && x.priority > p.priority
    ensures Decide([p, q], r) == Permitted
    ensures Decide([p, q, x], r) == DeniedBy(q.name)
  {
    ExchangeKeepsDescending([p, q], 0, 1);
    calc {
      Sorted([p, q, x]);
      Exchange([p, q, x], 0, 2);
      { assert Swap([p, q, x], 0, 2) == [x, q, p]; }
      Exchange([x, q, p], 0, 3);
      { ExchangeKeepsDescending([x, q, p], 0, 3); }
      [x, q, p];
    }
    assert FirstMatch([x, q, p], r, 0) == FirstMatch([x, q, p], r, 1);
  }

  // ---- the authorizer itself ----

  method IdentityMatch(id: Identity, p: Policy) returns (r: bool)
    ensures r <==> IdentityMatches(id, p)
  {
    for i := 0 to |p.roles|
      invariant forall a, b | 0 <= a < i && 0 <= b < |id.roles| :: !RoleFits(p.roles[a], id.roles[b])
    {
      for j := 0 to |id.roles|
        invariant forall b | 0 <= b < j :: !RoleFits(p.roles[i], id.roles[b])
      {
        if p.roles[i] == id.roles[j] || p.roles[i] == "*" {
          assert RoleFits(p.roles[i], id.roles[j]);
          return true;
        }
      }
    }
    for i := 0 to |p.permissions|
      invariant forall a, b | 0 <= a < i && 0 <= b < |id.permissions| ::
        !PermissionFits(p.permissions[a], id.permissions[b])
    {
      for j := 0 to |id.permissions|
        invariant forall b | 0 <= b < j :: !PermissionFits(p.permissions[i], id.permissions[b])
      {
        var matched := MatchPattern(p.permissions[i], id.permissions[j]);
        if matched || p.permissions[i] == "*" {
          assert PermissionFits(p.permissions[i], id.permissions[j]);
          return true;
        }
      }
    }
    r := |p.roles| == 0 && |p.permissions| == 0;
  }

  method SortByPriority(a: array<Policy>)
    modifies a
    ensures a[..] == Sorted(old(a[..]))
  {
    var i := 0;
    while i < a.Length
      invariant 0 <= i <= a.Length
      invariant Exchange(a[..], i, i + 1) == Sorted(old(a[..]))
    {
      var j := i + 1;
      while j < a.Length
        invariant i < j <= a.Length
        invariant Exchange(a[..], i, j) == Sorted(old(a[..]))
      {
        if a[j].priority > a[i].priority {
          ghost var s := a[..];
          a[i], a[j] := a[j], a[i];
          assert a[..] == Swap(s, i, j);
        }
        j := j + 1;
      }
      i := i + 1;
    }
  }

  class RBACAuthorizer {
    var policies: seq<Policy>

    constructor ()
      ensures policies == []
    {
      policies := [];
    }

    method AddPolicy(p: Policy)
      modifies this
      ensures policies == old(policies) + [p]
    {
      policies := policies + [p];
    }

    method Authorize(identity: Option<Identity>, action: string, resource: string) returns (d: Decision)
      ensures d == if identity.None? then IdentityRequired
                   else Decide(policies, Request(identity.value, action, resource))
    {
      if identity.None? {
        return IdentityRequired;
      }
      ghost var r := Request(identity.value, action, resource);
      var ps := policies;
      var sorted := new Policy[|ps|](i requires 0 <= i < |ps| => ps[i]);
      assert sorted[..] == ps;
      SortByPriority(sorted);
      assert sorted[..] == Sorted(policies);
      var fullAction := if resource != "" then action + ":" + resource else action;
      for i := 0 to sorted.Length
        invariant sorted[..] == Sorted(policies)
        invariant FirstMatch(sorted[..], r, i) == Decide(policies, r)
      {
        var p := sorted[i];
        var full := MatchPattern(p.action, fullAction);
        var plain := MatchPattern(p.action, action);
        if !full && !plain {
          continue;
        }
        var matched := IdentityMatch(identity.value, p);
        if !matched {
          continue;
        }
        match p.effect {
          case Deny => return DeniedBy(p.name);
          case Allow => return Permitted;
          case Other(_) =>
        }
      }
      d := NoMatchingPolicy;
    }
  }
}
