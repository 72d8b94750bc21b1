// auth/authorizer.go, matchPattern: wildcard patterns, matched segment by segment.
module Patterns {
  import opened Text

  // An ordinary glob, anchored at both ends: '*' stands for any text, everything else,
  // '?' included, for itself.
  predicate Glob(p: string, v: string)
    decreases |p| + |v|
  {
    if p == "" then v == ""
    else if p[0] == '*' then Glob(p[1..], v) || (v != "" && Glob(p, v[1..]))
    else v != "" && p[0] == v[0] && Glob(p[1..], v[1..])
  }

  // What matchPattern decides.
  predicate Matches(p: string, v: string) {
    if '*' in p then Glob("*" + p + "*", v) else p == v
  }

  // The text around the wildcards.
  function Split(p: string): (parts: seq<string>)
    ensures parts != []
  {
    if p == "" then [""]
    else
      var rest := Split(p[1..]);
      if p[0] == '*' then [""] + rest else [[p[0]] + rest[0]] + rest[1..]
  }

  // The parts occur in v in this order, without overlap.
  ghost predicate Placeable(parts: seq<string>, v: string) {
    parts == [] || exists i :: OccursAt(v, parts[0], i) && Placeable(parts[1..], v[i + |parts[0]|..])
  }

  // ---- globs ----

  lemma {:induction false} StarGlob(q: string, v: string)
    ensures Glob("*" + q, v) <==> exists i :: 0 <= i <= |v| && Glob(q, v[i..])
    decreases |v|
  {
    var p := "*" + q;
    assert p[1..] == q && v[0..] == v;
    if v != "" {
      StarGlob(q, v[1..]);
      assert forall i | 0 <= i <= |v[1..]| :: v[1..][i..] == v[i + 1..];
      if i :| 0 <= i <= |v| && Glob(q, v[i..]) {
        if i > 0 {
          assert v[1..][i - 1..] == v[i..];
        }
      }
    }
  }

  lemma {:induction false} LiteralGlob(s: string, q: string, v: string)
    requires '*' !in s
    ensures Glob(s + q, v) <==> OccursAt(v, s, 0) && Glob(q, v[|s|..])
  {
    if s == "" {
      assert s + q == q && v[0..] == v;
    } else {
      assert (s + q)[0] == s[0] && (s + q)[1..] == s[1..] + q;
      if v != "" {
        LiteralGlob(s[1..], q, v[1..]);
        if |s| <= |v| {
          assert v[1..][|s[1..]|..] == v[|s|..];
          assert v[0..|s|] == [v[0]] + v[1..][0..|s| - 1];
        }
      }
    }
  }

  lemma {:induction false} EverythingGlob(v: string)
    ensures Glob("*", v)
    decreases |v|
  {
    if v != "" {
      EverythingGlob(v[1..]);
    }
  }

  lemma {:induction false} GlobMatchesItself(p: string)
    ensures Glob(p, p)
  {
    if p != "" {
      GlobMatchesItself(p[1..]);
      if p[0] == '*' {
        StarGlob(p[1..], p);
        assert p == "*" + p[1..];
      }
    }
  }

  lemma {:induction false} GlobConcat(p: string, v: string, q: string, w: string)
    requires Glob(p, v) && Glob(q, w)
    ensures Glob(p + q, v + w)
    decreases |p| + |v|
  {
    if p == "" {
      assert p + q == q && v + w == w;
    } else {
      assert (p + q)[1..] == p[1..] + q;
      if v != "" {
        assert (v + w)[1..] == v[1..] + w;
      }
      if p[0] == '*' {
        if Glob(p[1..], v) {
          GlobConcat(p[1..], v, q, w);
        } else {
          GlobConcat(p, v[1..], q, w);
        }
      } else {
        GlobConcat(p[1..], v[1..], q, w);
      }
    }
  }

  // Every ordinary, anchored match is accepted.
  lemma AnchoredMatchesAreAccepted(p: string, v: string)
    requires Glob(p, v)
    ensures Matches(p, v)
  {
    if '*' in p {
      assert Glob("*", "");
      GlobConcat("*", "", p, v);
      GlobConcat("*" + p, "" + v, "*", "");
      assert "" + v + "" == v;
    } else {
      LiteralGlob(p, "", v);
      assert p + "" == p;
    }
  }

  // ---- placements ----

  lemma PlaceableEarlier(parts: seq<string>, v: string, j: nat, k: nat)
    requires j <= k <= |v| && Placeable(parts, v[k..])
    ensures Placeable(parts, v[j..])
  {
    if parts != [] {
      var i :| OccursAt(v[k..], parts[0], i) && Placeable(parts[1..], v[k..][i + |parts[0]|..]);
      var i' := i + k - j;
      assert v[j..][i'..i' + |parts[0]|] == v[k..][i..i + |parts[0]|];
      assert v[j..][i' + |parts[0]|..] == v[k..][i + |parts[0]|..];
      assert OccursAt(v[j..], parts[0], i');
    }
  }

  lemma {:induction false} SplitAtFirstStar(p: string) returns (s: string, r: string)
    requires '*' in p
    ensures p == s + "*" + r && '*' !in s && |r| < |p| && Split(p) == [s] + Split(r)
  {
    if p[0] == '*' {
      s, r := "", p[1..];
    } else {
      s, r := SplitAtFirstStar(p[1..]);
      s := [p[0]] + s;
    }
  }

  lemma {:induction false} SplitLiteral(p: string)
    requires '*' !in p
    ensures Split(p) == [p]
  {
    if p != "" {
      SplitLiteral(p[1..]);
      assert [p[0]] + p[1..] == p;
    }
  }

  // "*" + s + q, for a literal s, matches where s can be placed and q matches what follows.
  lemma StarLiteralGlob(s: string, q: string, v: string)
    requires '*' !in s
    ensures Glob("*" + s + q, v) <==> exists i :: OccursAt(v, s, i) && Glob(q, v[i + |s|..])
  {
    assert "*" + s + q == "*" + (s + q);
    StarGlob(s + q, v);
    if i :| 0 <= i <= |v| && Glob(s + q, v[i..]) {
      LiteralGlob(s, q, v[i..]);
      assert v[i..][0..|s|] == v[i..i + |s|] && v[i..][|s|..] == v[i + |s|..];
      assert OccursAt(v, s, i);
    }
    if i :| OccursAt(v, s, i) && Glob(q, v[i + |s|..]) {
      assert v[i..][0..|s|] == v[i..i + |s|] && v[i..][|s|..] == v[i + |s|..];
      LiteralGlob(s, q, v[i..]);
      assert Glob(s + q, v[i..]);
    }
  }

  // A pattern's parts can be placed in v exactly when v matches it with both ends open.
  lemma {:induction false} PlaceableIffGlob(p: string, v: string)
    ensures Placeable(Split(p), v) <==> Glob("*" + p + "*", v)
    decreases |p|
  {
    if '*' in p {
      var s, r := SplitAtFirstStar(p);
      var q := "*" + r + "*";
      assert "*" + p + "*" == "*" + s + q;
      StarLiteralGlob(s, q, v);
      assert Split(p)[0] == s && Split(p)[1..] == Split(r);
      forall i | OccursAt(v, s, i)
        ensures Placeable(Split(r), v[i + |s|..]) <==> Glob(q, v[i + |s|..])
      {
        PlaceableIffGlob(r, v[i + |s|..]);
      }
    } else {
      SplitLiteral(p);
      StarLiteralGlob(p, "*", v);
      assert Split(p)[0] == p && Split(p)[1..] == [];
      if i :| OccursAt(v, p, i) {
        EverythingGlob(v[i + |p|..]);
        assert Glob("*" + p + "*", v);
        assert OccursAt(v, Split(p)[0], i) && Placeable(Split(p)[1..], v[i + |p|..]);
      }
    }
  }

  // Taking the leftmost place of a part leaves the most room for the others.
  lemma GreedyChoice(part: string, rest: seq<string>, v: string, i: nat)
    requires OccursAt(v, part, i) && forall j | 0 <= j < i :: !OccursAt(v, part, j)
    ensures Placeable([part] + rest, v) <==> Placeable(rest, v[i + |part|..])
  {
    var parts := [part] + rest;
    assert parts[0] == part && parts[1..] == rest;
    if Placeable(parts, v) {
      var k :| OccursAt(v, part, k) && Placeable(rest, v[k + |part|..]);
      PlaceableEarlier(rest, v, i + |part|, k + |part|);
    }
  }

  // ---- the matcher ----

  // strings.Index
  method Index(s: string, sub: string) returns (i: int)
    ensures i == -1 ==> !Occurs(s, sub)
    ensures i != -1 ==> OccursAt(s, sub, i) && forall j | 0 <= j < i :: !OccursAt(s, sub, j)
  {
    i := 0;
    while i + |sub| <= |s|
      invariant 0 <= i && forall j | 0 <= j < i :: !OccursAt(s, sub, j)
    {
      if s[i..i + |sub|] == sub {
        return;
      }
      i := i + 1;
    }
    i := -1;
  }

  method MatchPattern(pattern: string, value: string) returns (r: bool)
    ensures r <==> Matches(pattern, value)
  {
    if pattern == "*" || pattern == value {
      if pattern == "*" {
        EverythingGlob(value);
      } else {
        GlobMatchesItself(value);
      }
      AnchoredMatchesAreAccepted(pattern, value);
      return true;
    }
    if '*' in pattern {
      var parts := Split(pattern);
      PlaceableIffGlob(pattern, value);
      var index := 0;
      assert value[0..] == value && parts[0..] == parts;
      for k := 0 to |parts|
        invariant index <= |value|
        invariant Placeable(parts, value) <==> Placeable(parts[k..], value[index..])
      {
        var part, rest := parts[k], value[index..];
        assert parts[k..] == [part] + parts[k + 1..];
        if part == "" {
          GreedyChoice(part, parts[k + 1..], rest, 0);
          assert rest[0..] == rest;
          continue;
        }
        var found := Index(rest, part);
        if found == -1 {
          return false;
        }
        GreedyChoice(part, parts[k + 1..], rest, found);
        index := index + found + |part|;
        assert rest[found + |part|..] == value[index..];
      }
      return true;
    }
    r := false;
  }

  // ---- how far from an ordinary glob ----

  lemma {:induction false} OneStarIsEnough(q: string, v: string)
    requires Glob(q + "**", v)
    ensures Glob(q + "*", v)
    decreases |q| + |v|
  {
    var p := q + "**";
    if q == "" {
      assert q + "*" == "*";
      EverythingGlob(v);
    } else {
      assert p[1..] == q[1..] + "**" && (q + "*")[1..] == q[1..] + "*";
      if q[0] == '*' {
        if Glob(p[1..], v) {
          OneStarIsEnough(q[1..], v);
        } else {
          OneStarIsEnough(q, v[1..]);
        }
      } else {
        OneStarIsEnough(q[1..], v[1..]);
      }
    }
  }

  lemma {:induction false} LastLiteral(p: string, v: string)
    requires p != "" && p[|p| - 1] != '*' && Glob(p, v)
    ensures v != "" && v[|v| - 1] == p[|p| - 1]
    decreases |p| + |v|
  {
    if p[0] == '*' {
      if Glob(p[1..], v) {
        LastLiteral(p[1..], v);
      } else {
        LastLiteral(p, v[1..]);
      }
    } else if |p| > 1 {
      LastLiteral(p[1..], v[1..]);
    }
  }

  predicate OpenEnded(p: string) {
    '*' !in p || (p[0] == '*' && p[|p| - 1] == '*')
  }

  lemma OpenEndedMatchesAreAnchored(p: string, v: string)
    requires OpenEnded(p) && Matches(p, v)
    ensures Glob(p, v)
  {
    if '*' in p {
      StarGlob(p + "*", v);
      assert "*" + p + "*" == "*" + (p + "*");
      var i :| 0 <= i <= |v| && Glob(p + "*", v[i..]);
      var q := p[..|p| - 1];
      assert p + "*" == q + "**" && q + "*" == p;
      OneStarIsEnough(q, v[i..]);
      SkipIntoStar(p, v, i);
    } else {
      LiteralGlob(p, "", v);
      assert p + "" == p;
    }
  }

  lemma {:induction false} SkipIntoStar(p: string, v: string, i: nat)
    requires p != "" && p[0] == '*' && i <= |v| && Glob(p, v[i..])
    ensures Glob(p, v)
    decreases i
  {
    if i == 0 {
      assert v[0..] == v;
    } else {
      assert v[1..][i - 1..] == v[i..];
      SkipIntoStar(p, v[1..], i - 1);
    }
  }

  // A text that matchPattern accepts and the glob does not.
  lemma Overreach(p: string) returns (v: string)
    requires !OpenEnded(p)
    ensures Matches(p, v) && !Glob(p, v)
  {
    GlobMatchesItself(p);
    if p[0] != '*' {
      var d := if p[0] == 'a' then "b" else "a";
      v := d + p;
      EverythingGlob(d);
      GlobConcat("*", d, p, p);
      assert Glob("*", "");
      GlobConcat("*" + p, d + p, "*", "");
      assert d + p + "" == v;
    } else {
      var d := if p[|p| - 1] == 'a' then "b" else "a";
      v := p + d;
      EverythingGlob(d);
      assert Glob("*", "");
      GlobConcat("*", "", p, p);
      GlobConcat("*" + p, "" + p, "*", d);
      assert "" + p + d == v;
      if Glob(p, v) {
        LastLiteral(p, v);
      }
    }
  }

  // The matcher is an ordinary glob for exactly the patterns that are literal or have a
  // wildcard at both ends.
  lemma OrdinaryGlobIff(p: string)
    ensures (forall v :: Matches(p, v) <==> Glob(p, v)) <==> OpenEnded(p)
  {
    if OpenEnded(p) {
      forall v
        ensures Matches(p, v) <==> Glob(p, v)
      {
        if Glob(p, v) {
          AnchoredMatchesAreAccepted(p, v);
        }
        if Matches(p, v) {
          OpenEndedMatchesAreAnchored(p, v);
        }
      }
    } else {
      var v := Overreach(p);
      assert Matches(p, v) && !Glob(p, v);
    }
  }

  // ---- and from the documented one ----

  // As documented: '?' stands for any one character.
  predicate DocumentedGlob(p: string, v: string)
    decreases |p| + |v|
  {
    if p == "" then v == ""
    else if p[0] == '*' then DocumentedGlob(p[1..], v) || (v != "" && DocumentedGlob(p, v[1..]))
    else v != "" && (p[0] == v[0] || p[0] == '?') && DocumentedGlob(p[1..], v[1..])
  }

  lemma {:induction false} WithoutQuestionMark(p: string, v: string)
    requires '?' !in p
    ensures DocumentedGlob(p, v) <==> Glob(p, v)
    decreases |p| + |v|
  {
    if p != "" {
      if p[0] == '*' {
        WithoutQuestionMark(p[1..], v);
      }
      if v != "" {
        WithoutQuestionMark(if p[0] == '*' then p else p[1..], v[1..]);
      }
    }
  }

  // A text for the pattern: nothing for '*', and a letter for '?'.
  function Instance(p: string): string {
    if p == "" then ""
    else if p[0] == '*' then Instance(p[1..])
    else [if p[0] == '?' then 'a' else p[0]] + Instance(p[1..])
  }

  lemma {:induction false} InstanceMatches(p: string)
    ensures DocumentedGlob(p, Instance(p)) && '?' !in Instance(p)
  {
    if p != "" {
      InstanceMatches(p[1..]);
    }
  }

  lemma {:induction false} LiteralsOccur(p: string, v: string)
    requires Glob(p, v) && '?' in p
    ensures '?' in v
    decreases |p| + |v|
  {
    if p[0] == '*' {
      if Glob(p[1..], v) {
        LiteralsOccur(p[1..], v);
      } else {
        LiteralsOccur(p, v[1..]);
      }
    } else if p[0] != '?' {
      LiteralsOccur(p[1..], v[1..]);
    }
  }

  // A pattern with a '?' does not match what it should.
  lemma QuestionMarkFails(p: string)
    requires '?' in p
    ensures DocumentedGlob(p, Instance(p)) && !Matches(p, Instance(p))
  {
    var v := Instance(p);
    InstanceMatches(p);
    if '*' in p && Glob("*" + p + "*", v) {
      LiteralsOccur("*" + p + "*", v);
    }
  }

  // The matcher does as documented for exactly the patterns that have no '?' and are
  // literal or have a wildcard at both ends.
  lemma DocumentedGlobIff(p: string)
    ensures (forall v :: Matches(p, v) <==> DocumentedGlob(p, v)) <==> OpenEnded(p) && '?' !in p
  {
    if '?' in p {
      QuestionMarkFails(p);
    } else {
      forall v
        ensures DocumentedGlob(p, v) <==> Glob(p, v)
      {
        WithoutQuestionMark(p, v);
      }
      OrdinaryGlobIff(p);
    }
  }
}
