// Substrings, as Go's strings package and retry.contains see them.
module Text {

  predicate OccursAt(s: string, sub: string, i: int) {
    0 <= i <= |s| - |sub| && s[i..i + |sub|] == sub
  }

  ghost predicate Occurs(s: string, sub: string) {
    exists i :: OccursAt(s, sub, i)
  }

  // A text occurs where there is something before it and something after.
  lemma OccursIff(s: string, sub: string)
    ensures Occurs(s, sub) <==> exists a: string, b: string :: s == a + sub + b
  {
    if Occurs(s, sub) {
      var i :| OccursAt(s, sub, i);
      assert s == s[..i] + sub + s[i + |sub|..];
    }
    if a: string, b: string :| s == a + sub + b {
      assert s[|a|..|a| + |sub|] == sub;
      assert OccursAt(s, sub, |a|);
    }
  }
}
