// routing/routing.go, VersionResolver: the order of versions and the choice among them.
module Versions {
  import opened Numbers
  import opened Options

  predicate IsSeparator(c: char) {
    c == '.' || c == '-' || c == '+'
  }

  // The components of a version, given what has been read of the first one.
  function Scan(current: string, v: string): seq<string>
    decreases v
  {
    if v == "" then Flush(current)
    else if IsSeparator(v[0]) then Flush(current) + Scan("", v[1..])
    else Scan(current + [v[0]], v[1..])
  }

  function Flush(current: string): seq<string> {
    if current == "" then [] else [current]
  }

  function Split(v: string): seq<string> {
    Scan("", v)
  }

  method SplitVersion(v: string) returns (parts: seq<string>)
    ensures parts == Split(v)
  {
    parts := [];
    var current := "";
    for i := 0 to |v|
      invariant parts + Scan(current, v[i..]) == Split(v)
    {
      if IsSeparator(v[i]) {
        if current != "" {
          parts := parts + [current];
          current := "";
        }
      } else {
        current := current + [v[i]];
      }
    }
    if current != "" {
      parts := parts + [current];
    }
  }

  lemma {:induction false} SplitAtSeparator(current: string, a: string, c: char, b: string)
    requires IsSeparator(c)
    ensures Scan(current, a + [c] + b) == Scan(current, a) + Split(b)
    decreases a
  {
    var v := a + [c] + b;
    if a == "" {
      assert v[0] == c && v[1..] == b;
    } else {
      assert v[0] == a[0] && v[1..] == a[1..] + [c] + b;
      SplitAtSeparator(if IsSeparator(a[0]) then "" else current + [a[0]], a[1..], c, b);
    }
  }

  // ---- comparing components ----

  predicate IsDigit(c: char) {
    '0' <= c <= '9'
  }

  function DigitRun(s: string): (n: nat)
    ensures n <= |s|
  {
    if s == "" || !IsDigit(s[0]) then 0 else 1 + DigitRun(s[1..])
  }

  // Sscanf with "%d": the digits in front, if they fit.
  function ScanInt(s: string): Option<int> {
    var n := DigitRun(s);
    if n > 0 && ValueOf(s[..n]) <= MAX_INT64 then Some(ValueOf(s[..n])) else None
  }

  predicate Less(a: string, b: string) {
    b != "" && (a == "" || a[0] < b[0] || (a[0] == b[0] && Less(a[1..], b[1..])))
  }

  function CompareComponents(a: string, b: string): int {
    var an, bn := ScanInt(a), ScanInt(b);
    if an.Some? && bn.Some? then an.value - bn.value
    else if a == b then 0
    else if Less(b, a) then 1
    else -1
  }

  function CompareParts(ap: seq<string>, bp: seq<string>): int {
    if ap == [] || bp == [] then |ap| - |bp|
    else
      var d := CompareComponents(ap[0], bp[0]);
      if d != 0 then d else CompareParts(ap[1..], bp[1..])
  }

  function Compare(a: string, b: string): int {
    CompareParts(Split(a), Split(b))
  }

  method CompareVersions(a: string, b: string) returns (r: int)
    ensures r == Compare(a, b)
  {
    var ap := SplitVersion(a);
    var bp := SplitVersion(b);
    var i := 0;
    while i < |ap| && i < |bp|
      invariant i <= |ap| && i <= |bp| && CompareParts(ap[i..], bp[i..]) == Compare(a, b)
    {
      var an, bn := ScanInt(ap[i]), ScanInt(bp[i]);
      if an.Some? && bn.Some? {
        if an.value != bn.value {
          return an.value - bn.value;
        }
      } else if ap[i] != bp[i] {
        if Less(bp[i], ap[i]) {
          return 1;
        }
        return -1;
      }
      i := i + 1;
    }
    r := |ap| - |bp|;
  }

  // ---- the order ----

  // A component that starts with a digit has a number that fits.
  predicate Regular(s: string) {
    DigitRun(s) > 0 ==> ScanInt(s).Some?
  }

  predicate AllRegular(v: string) {
    forall s | s in Split(v) :: Regular(s)
  }

  lemma {:induction false} LessIsTotal(a: string, b: string)
    ensures a == b || Less(a, b) || Less(b, a)
    ensures !(Less(a, b) && Less(b, a)) && !Less(a, a)
  {
    if a != "" {
      if b != "" {
        LessIsTotal(a[1..], b[1..]);
        assert a[0] == b[0] && a[1..] == b[1..] ==> a == [b[0]] + b[1..];
      } else {
        LessIsTotal(a[1..], a[1..]);
      }
    }
  }

  lemma {:induction false} LessIsTransitive(a: string, b: string, c: string)
    requires Less(a, b) && Less(b, c)
    ensures Less(a, c)
  {
    if a != "" && a[0] == b[0] == c[0] {
      LessIsTransitive(a[1..], b[1..], c[1..]);
    }
  }

  lemma ComponentsOpposite(a: string, b: string)
    ensures CompareComponents(a, b) < 0 <==> CompareComponents(b, a) > 0
    ensures CompareComponents(a, b) == 0 <==> CompareComponents(b, a) == 0
  {
    LessIsTotal(a, b);
  }

  lemma ComponentsTransitive(a: string, b: string, c: string)
    requires Regular(a) && Regular(b) && Regular(c)
    requires CompareComponents(a, b) <= 0 && CompareComponents(b, c) <= 0
    ensures CompareComponents(a, c) <= 0
    ensures CompareComponents(a, b) < 0 || CompareComponents(b, c) < 0 ==> CompareComponents(a, c) < 0
  {
    LessIsTotal(a, b);
    LessIsTotal(b, c);
    LessIsTotal(a, c);
    if Less(a, b) && Less(b, c) {
      LessIsTransitive(a, b, c);
    }
  }

  lemma {:induction false} PartsOpposite(ap: seq<string>, bp: seq<string>)
    ensures CompareParts(ap, bp) < 0 <==> CompareParts(bp, ap) > 0
    ensures CompareParts(ap, bp) == 0 <==> CompareParts(bp, ap) == 0
  {
    if ap != [] && bp != [] {
      ComponentsOpposite(ap[0], bp[0]);
      PartsOpposite(ap[1..], bp[1..]);
    }
  }

  lemma {:induction false} PartsTransitive(ap: seq<string>, bp: seq<string>, cp: seq<string>)
    requires forall s | s in ap || s in bp || s in cp :: Regular(s)
    requires CompareParts(ap, bp) <= 0 && CompareParts(bp, cp) <= 0
    ensures CompareParts(ap, cp) <= 0
    ensures CompareParts(ap, bp) < 0 || CompareParts(bp, cp) < 0 ==> CompareParts(ap, cp) < 0
  {
    if ap != [] && bp != [] && cp != [] {
      ComponentsTransitive(ap[0], bp[0], cp[0]);
      if CompareComponents(ap[0], bp[0]) == 0 && CompareComponents(bp[0], cp[0]) == 0 {
        ComponentsOpposite(ap[0], bp[0]);
        ComponentsOpposite(bp[0], cp[0]);
        ComponentsTransitive(cp[0], bp[0], ap[0]);
        ComponentsOpposite(ap[0], cp[0]);
        PartsTransitive(ap[1..], bp[1..], cp[1..]);
      }
    }
  }

  // On regular versions the comparison is a total preorder.
  lemma CompareIsTotalPreorder(a: string, b: string, c: string)
    requires AllRegular(a) && AllRegular(b) && AllRegular(c)
    ensures Compare(a, b) <= 0 || Compare(b, a) <= 0
    ensures Compare(a, b) <= 0 && Compare(b, c) <= 0 ==> Compare(a, c) <= 0
    ensures Compare(a, b) < 0 <==> !(Compare(b, a) <= 0)
  {
    PartsOpposite(Split(a), Split(b));
    if Compare(a, b) <= 0 && Compare(b, c) <= 0 {
      PartsTransitive(Split(a), Split(b), Split(c));
    }
  }

  lemma {:induction false} CommonPrefix(common: seq<string>, ap: seq<string>, bp: seq<string>)
    ensures CompareParts(common + ap, common + bp) == CompareParts(ap, bp)
  {
    if common == [] {
      assert common + ap == ap && common + bp == bp;
    } else {
      LessIsTotal(common[0], common[0]);
      assert (common + ap)[1..] == common[1..] + ap && (common + bp)[1..] == common[1..] + bp;
      CommonPrefix(common[1..], ap, bp);
    }
  }

  // A prerelease is ordered after its release, where section 11 of Semantic Versioning
  // 2.0.0 has it before.
  lemma PrereleaseAboveRelease(v: string, pre: string)
    requires Split(pre) != []
    ensures Compare(v + "-" + pre, v) > 0
  {
    SplitAtSeparator("", v, '-', pre);
    assert Split(v) + [] == Split(v);
    CommonPrefix(Split(v), Split(pre), []);
  }

  // Build metadata, which that section ignores, counts like a prerelease.
  lemma BuildMetadataCounts(v: string, x: string)
    ensures Compare(v + "+" + x, v + "-" + x) == 0
  {
    SplitAtSeparator("", v, '-', x);
    SplitAtSeparator("", v, '+', x);
    var parts := Split(v) + Split(x);
    assert parts + [] == parts;
    CommonPrefix(parts, [], []);
  }

  function Pow10(k: nat): int {
    if k == 0 then 1 else 10 * Pow10(k - 1)
  }

  function Zeros(k: nat): string {
    if k == 0 then "" else Zeros(k - 1) + "0"
  }

  predicate AllDigits(s: string) {
    forall c | c in s :: IsDigit(c)
  }

  lemma {:induction false} DigitsAreOneComponent(current: string, s: string)
    requires AllDigits(s)
    ensures DigitRun(s) == |s| && Scan(current, s) == Flush(current + s)
    decreases s
  {
    if s == "" {
      assert current + s == current;
    } else {
      assert s[0] in s;
      DigitsAreOneComponent(current + [s[0]], s[1..]);
      assert current + [s[0]] + s[1..] == current + s;
    }
  }

  lemma {:induction false} FiveAndZeros(k: nat)
    ensures var s := "5" + Zeros(k); AllDigits(s) && ValueOf(s) == 5 * Pow10(k)
  {
    if k == 0 {
      assert "5" + Zeros(k) == "5" && "5"[..0] == "";
    } else {
      FiveAndZeros(k - 1);
      var t := "5" + Zeros(k - 1);
      assert "5" + Zeros(k) == t + "0" && (t + "0")[..|t|] == t;
    }
  }

  lemma OverflowingNumber(big: string)
    requires big == "5" + Zeros(19)
    ensures Split(big) == [big] && ScanInt(big) == None
  {
    FiveAndZeros(19);
    Pow10Of19();
    DigitsAreOneComponent("", big);
    assert "" + big == big && big[..|big|] == big;
  }

  // With a number that does not fit, the comparison goes in circles.
  lemma OverflowCycle()
    ensures var big := "5" + Zeros(19);
      Compare("9", "10") < 0 && Compare("10", big) < 0 && Compare(big, "9") < 0
  {
    var big := "5" + Zeros(19);
    OverflowingNumber(big);
    SmallNumbers();
    OverflowCompares(big);
  }

  lemma OverflowCompares(big: string)
    requires big != "" && big[0] == '5' && ScanInt(big) == None
    requires ScanInt("9") == Some(9) && ScanInt("10") == Some(10)
    ensures CompareComponents("9", "10") < 0 && CompareComponents("10", big) < 0 && CompareComponents(big, "9") < 0
  {
  }

  lemma Pow10Of19()
    ensures Pow10(19) == 10_000_000_000_000_000_000
  {
    assert Pow10(2) == 100;
    assert Pow10(4) == 10_000;
    assert Pow10(6) == 1_000_000;
    assert Pow10(8) == 100_000_000;
    assert Pow10(10) == 10_000_000_000;
    assert Pow10(12) == 1_000_000_000_000;
    assert Pow10(14) == 100_000_000_000_000;
    assert Pow10(16) == 10_000_000_000_000_000;
    assert Pow10(18) == 1_000_000_000_000_000_000;
  }

  lemma SmallNumbers()
    ensures ScanInt("9") == Some(9) && ScanInt("10") == Some(10)
    ensures Split("9") == ["9"] && Split("10") == ["10"]
  {
    DigitsAreOneComponent("", "9");
    DigitsAreOneComponent("", "10");
    assert "" + "9" == "9" && "" + "10" == "10";
    assert "9"[..1] == "9" && "9"[..0] == "";
    assert "10"[..2] == "10" && "10"[..1] == "1" && "1"[..0] == "";
    assert ValueOf("1") == 1;
  }

  // ---- exactly which versions upset the order ----

  predicate Plain(part: string) {
    part != "" && forall c | c in part :: !IsSeparator(c)
  }

  lemma {:induction false} PartsArePlain(current: string, v: string)
    requires forall c | c in current :: !IsSeparator(c)
    ensures forall part | part in Scan(current, v) :: Plain(part)
    decreases v
  {
    if v != "" {
      if IsSeparator(v[0]) {
        PartsArePlain("", v[1..]);
      } else {
        PartsArePlain(current + [v[0]], v[1..]);
      }
    }
  }

  lemma {:induction false} PlainIsOnePart(current: string, part: string)
    requires forall c | c in part :: !IsSeparator(c)
    ensures Scan(current, part) == Flush(current + part)
    decreases part
  {
    if part == "" {
      assert current + part == current;
    } else {
      assert part[0] in part;
      PlainIsOnePart(current + [part[0]], part[1..]);
      assert current + [part[0]] + part[1..] == current + part;
    }
  }

  // A version made of the given components.
  function Join(parts: seq<string>): string {
    if parts == [] then "" else parts[0] + "." + Join(parts[1..])
  }

  lemma {:induction false} JoinSplits(parts: seq<string>)
    requires forall part | part in parts :: Plain(part)
    ensures Split(Join(parts)) == parts
  {
    if parts != [] {
      var part := parts[0];
      assert part in parts;
      JoinSplits(parts[1..]);
      PlainIsOnePart("", part);
      assert "" + part == part;
      SplitAtSeparator("", part, '.', Join(parts[1..]));
    }
  }

  lemma {:induction false} ZerosAreZeros(k: nat)
    ensures |Zeros(k)| == k && ValueOf(Zeros(k)) == 0 && forall i | 0 <= i < k :: Zeros(k)[i] == '0'
  {
    if k > 0 {
      ZerosAreZeros(k - 1);
      assert Zeros(k)[..k - 1] == Zeros(k - 1);
    }
  }

  // Ten, behind so many zeros.
  function Ten(k: nat): string {
    Zeros(k) + "1" + "0"
  }

  lemma ValueOfSnoc(s: string, c: char)
    ensures ValueOf(s + [c]) == 10 * ValueOf(s) + (c as int - '0' as int)
  {
    assert (s + [c])[..|s|] == s;
  }

  lemma ScanAllDigits(s: string)
    requires s != "" && AllDigits(s) && ValueOf(s) <= MAX_INT64
    ensures ScanInt(s) == Some(ValueOf(s)) && Plain(s)
  {
    DigitsAreOneComponent("", s);
    assert s[..|s|] == s;
  }

  lemma TenIsTen(k: nat)
    ensures ScanInt(Ten(k)) == Some(10) && Plain(Ten(k))
  {
    ZerosAreZeros(k);
    ValueOfSnoc(Zeros(k), '1');
    ValueOfSnoc(Zeros(k) + "1", '0');
    ScanAllDigits(Ten(k));
  }

  lemma {:induction false} ZeroValue(s: string)
    requires forall i | 0 <= i < |s| :: s[i] == '0'
    ensures ValueOf(s) == 0
  {
    if s != "" {
      ZeroValue(s[..|s| - 1]);
    }
  }

  lemma {:induction false} ZerosAreLess(z: string, rest: string, s: string, j: nat)
    requires |s| <= |z| && forall i | 0 <= i < |z| :: z[i] == '0'
    requires j < DigitRun(s) && s[j] != '0'
    ensures Less(z + rest, s)
  {
    assert (z + rest)[0] == '0' && (z + rest)[1..] == z[1..] + rest;
    if s[0] == '0' {
      ZerosAreLess(z[1..], rest, s[1..], j - 1);
    }
  }

  lemma {:induction false} RunIsDigits(s: string, j: nat)
    requires j < DigitRun(s)
    ensures IsDigit(s[j])
  {
    if j > 0 {
      RunIsDigits(s[1..], j - 1);
    }
  }

  // Nine is less than ten, ten than s, and s than nine.
  lemma IrregularCycle(s: string)
    requires !Regular(s)
    ensures CompareComponents("9:", Ten(|s|)) < 0
    ensures CompareComponents(Ten(|s|), s) < 0 && CompareComponents(s, "9:") < 0
  {
    var n := DigitRun(s);
    var j: nat :| j < n && s[j] != '0' by {
      if forall i | 0 <= i < n :: s[i] == '0' {
        ZeroValue(s[..n]);
      }
    }
    TenIsTen(|s|);
    ZerosAreZeros(|s|);
    ZerosAreLess(Zeros(|s|), "10", s, j);
    assert Ten(|s|) == Zeros(|s|) + "10";
    NineIsNine();
    RunIsDigits(s, 0);
    assert n > 1 by {
      assert s[..1][..0] == "" && ValueOf(s[..1]) <= 9;
    }
    RunIsDigits(s, 1);
    LessIsTotal(s, "9:");
    LessIsTotal(Ten(|s|), s);
  }

  lemma NineIsNine()
    ensures ScanInt("9:") == Some(9) && Plain("9:")
  {
    assert DigitRun(":") == 0 && "9:"[1..] == ":" && "9:"[..1] == "9" && "9"[..0] == "";
  }

  // v keeps its place after everything that comes before what comes before v.
  ghost predicate Orderly(v: string) {
    forall a, b | AllRegular(a) && AllRegular(b) && Compare(a, b) < 0 && Compare(b, v) < 0 :: Compare(a, v) < 0
  }

  // Exactly the versions with a number that does not fit take part in a cycle.
  lemma OrderlyIffRegular(v: string)
    ensures Orderly(v) <==> AllRegular(v)
  {
    if AllRegular(v) {
      forall a, b | AllRegular(a) && AllRegular(b) && Compare(a, b) < 0 && Compare(b, v) < 0
        ensures Compare(a, v) < 0
      {
        PartsTransitive(Split(a), Split(b), Split(v));
      }
    } else {
      var i := FirstIrregular(Split(v));
      var a, b := Rivals(v, i);
      assert Compare(a, b) < 0 && Compare(b, v) < 0 && !(Compare(a, v) < 0);
    }
  }

  lemma {:induction false} FirstIrregular(parts: seq<string>) returns (i: nat)
    requires exists s | s in parts :: !Regular(s)
    ensures i < |parts| && !Regular(parts[i]) && forall s | s in parts[..i] :: Regular(s)
  {
    i := 0;
    if Regular(parts[0]) {
      i := FirstIrregular(parts[1..]);
      assert parts[..i + 1] == [parts[0]] + parts[1..][..i];
      i := i + 1;
    }
  }

  // Versions that share the components before the one that does not fit.
  lemma Rivals(v: string, i: nat) returns (a: string, b: string)
    requires i < |Split(v)| && !Regular(Split(v)[i]) && forall s | s in Split(v)[..i] :: Regular(s)
    ensures AllRegular(a) && AllRegular(b)
    ensures Compare(a, b) < 0 && Compare(b, v) < 0 && Compare(v, a) < 0 && Compare(a, v) > 0
  {
    var common, s, rest := Split(v)[..i], Split(v)[i], Split(v)[i..];
    var ap, bp := common + ["9:"], common + [Ten(|s|)];
    IrregularCycle(s);
    NineIsNine();
    TenIsTen(|s|);
    PartsArePlain("", v);
    assert forall part | part in common :: part in Split(v);
    JoinSplits(ap);
    JoinSplits(bp);
    a, b := Join(ap), Join(bp);
    assert Split(v) == common + rest && rest[0] == s;
    CommonPrefix(common, ["9:"], [Ten(|s|)]);
    CommonPrefix(common, [Ten(|s|)], rest);
    CommonPrefix(common, rest, ["9:"]);
    PartsOpposite(ap, Split(v));
  }

  // ---- constraints ----

  predicate MatchesConstraint(version: string, constraint: string) {
    var vParts, cParts := Split(version), Split(constraint);
    || version == constraint
    || (|constraint| == 1 && '1' <= constraint[0] <= '9' && |vParts| > 0 && vParts[0] == constraint)
    || (|cParts| == 2 && |vParts| >= 2 && cParts[0] == vParts[0] && cParts[1] == vParts[1])
  }

  // A digit is met by the versions of that major number, and by itself.
  lemma MajorConstraint(version: string, d: char)
    requires '1' <= d <= '9'
    ensures MatchesConstraint(version, [d]) <==> version == [d] || (Split(version) != [] && Split(version)[0] == [d])
  {
    PlainIsOnePart("", [d]);
    assert "" + [d] == [d];
  }

  // Two components are met by the versions that begin with them, and by themselves.
  lemma MinorConstraint(version: string, major: string, minor: string)
    requires Plain(major) && Plain(minor)
    ensures var constraint := major + "." + minor;
      MatchesConstraint(version, constraint) <==> version == constraint || [major, minor] <= Split(version)
  {
    PlainIsOnePart("", major);
    PlainIsOnePart("", minor);
    assert "" + major == major && "" + minor == minor;
    SplitAtSeparator("", major, '.', minor);
    assert Split(major + "." + minor) == [major, minor];
  }

  // Anything else is met by itself alone.
  lemma OtherConstraint(version: string, constraint: string)
    requires |Split(constraint)| != 2 && !(|constraint| == 1 && '1' <= constraint[0] <= '9')
    ensures MatchesConstraint(version, constraint) <==> version == constraint
  {
  }

  // ---- the resolver ----

  // No version comes after one that it exceeds.
  predicate Descending(s: seq<string>) {
    forall i, j | 0 <= i < j < |s| :: Compare(s[j], s[i]) <= 0
  }

  predicate Comparable(versions: seq<string>) {
    forall v | v in versions :: AllRegular(v)
  }

  method Insert(s: seq<string>, v: string) returns (r: seq<string>)
    ensures multiset(r) == multiset(s) + multiset{v}
    ensures Comparable(s) && AllRegular(v) && Descending(s) ==> Descending(r)
  {
    var k := 0;
    while k < |s| && Compare(s[k], v) > 0
      invariant k <= |s| && forall j | 0 <= j < k :: Compare(s[j], v) > 0
    {
      k := k + 1;
    }
    assert s == s[..k] + s[k..];
    r := s[..k] + [v] + s[k..];
    if Comparable(s) && AllRegular(v) && Descending(s) {
      InsertedDescending(s, v, k);
    }
  }

  // sort.Slice: some permutation, and in order if the comparison is one.
  method SortDescending(versions: seq<string>) returns (sorted: seq<string>)
    ensures multiset(sorted) == multiset(versions)
    ensures Comparable(versions) ==> Descending(sorted)
  {
    sorted := [];
    for i := 0 to |versions|
      invariant multiset(sorted) == multiset(versions[..i])
      invariant Comparable(versions) ==> Comparable(sorted) && Descending(sorted)
    {
      var next := Insert(sorted, versions[i]);
      assert versions[..i + 1] == versions[..i] + [versions[i]];
      assert forall v :: v in next <==> v in multiset(next);
      assert forall v :: v in sorted <==> v in multiset(sorted);
      sorted := next;
    }
    assert versions[..|versions|] == versions;
  }

  lemma InsertedDescending(s: seq<string>, v: string, k: nat)
    requires k <= |s| && Descending(s) && Comparable(s) && AllRegular(v)
    requires forall j | 0 <= j < k :: Compare(s[j], v) > 0
    requires k < |s| ==> Compare(s[k], v) <= 0
    ensures Descending(s[..k] + [v] + s[k..])
  {
    var r := s[..k] + [v] + s[k..];
    forall j | 0 <= j < |s|
      ensures j < k ==> Compare(v, s[j]) <= 0
      ensures j >= k ==> Compare(s[j], v) <= 0
    {
      CompareIsTotalPreorder(v, s[j], v);
      if j > k {
        CompareIsTotalPreorder(s[j], s[k], v);
      }
    }
  }

  datatype Resolution = Resolved(version: string) | NoVersions | NoMatch

  predicate Best(versions: seq<string>, v: string, constraint: string) {
    forall u | u in versions && MatchesConstraint(u, constraint) :: Compare(u, v) <= 0
  }

  class VersionResolver {
    var defaultVersion: string
    var versions: map<string, seq<string>>

    ghost function Registered(engine: string): seq<string>
      reads this
    {
      if engine in versions then versions[engine] else []
    }

    constructor (defaultVersion: string)
      ensures this.defaultVersion == defaultVersion && versions == map[]
    {
      this.defaultVersion, versions := defaultVersion, map[];
    }

    method RegisterVersion(engine: string, version: string)
      modifies this
      ensures defaultVersion == old(defaultVersion)
      ensures versions == old(versions)[engine := old(Registered(engine)) + [version]]
    {
      versions := versions[engine := (if engine in versions then versions[engine] else []) + [version]];
    }

    method Resolve(engine: string, constraint: string) returns (r: Resolution)
      ensures r.NoVersions? <==> Registered(engine) == []
      ensures r.Resolved? ==> r.version in Registered(engine)
      // without a constraint: the default if it is there, else the latest
      ensures (constraint == "" || constraint == "latest") && Registered(engine) != [] ==>
        && r.Resolved?
        && if defaultVersion != "" && defaultVersion in Registered(engine) then r.version == defaultVersion
           else Comparable(Registered(engine)) ==> forall u | u in Registered(engine) :: Compare(u, r.version) <= 0
      // with one: an error exactly if nothing matches, and otherwise the best match
      ensures constraint != "" && constraint != "latest" && Registered(engine) != [] ==>
        var wanted := if constraint[0] == 'v' then constraint[1..] else constraint;
        && (r.NoMatch? <==> forall v | v in Registered(engine) :: !MatchesConstraint(v, wanted))
        && (r.Resolved? ==> MatchesConstraint(r.version, wanted))
        && (r.Resolved? && Comparable(Registered(engine)) ==> Best(Registered(engine), r.version, wanted))
    {
      if engine !in versions || |versions[engine]| == 0 {
        return NoVersions;
      }
      ghost var vs := versions[engine];
      var sorted := SortDescending(versions[engine]);
      assert forall v :: v in sorted <==> v in multiset(sorted);
      assert forall v :: v in vs <==> v in multiset(vs);
      assert |sorted| == |multiset(sorted)| == |vs|;
      if constraint == "" || constraint == "latest" {
        if defaultVersion != "" {
          for i := 0 to |sorted|
            invariant defaultVersion !in sorted[..i]
          {
            if sorted[i] == defaultVersion {
              return Resolved(defaultVersion);
            }
          }
          assert sorted[..|sorted|] == sorted;
        }
        FirstIsBest(sorted, 0, "", vs);
        return Resolved(sorted[0]);
      }
      var wanted := constraint;
      if wanted[0] == 'v' {
        wanted := wanted[1..];
      }
      for i := 0 to |sorted|
        invariant forall j | 0 <= j < i :: !MatchesConstraint(sorted[j], wanted)
      {
        if MatchesConstraint(sorted[i], wanted) {
          assert sorted[i] in sorted;
          FirstIsBest(sorted, i, wanted, vs);
          return Resolved(sorted[i]);
        }
      }
      r := NoMatch;
    }
  }

  lemma FirstIsBest(sorted: seq<string>, i: nat, constraint: string, vs: seq<string>)
    requires i < |sorted| && (Comparable(vs) ==> Descending(sorted)) && forall v :: v in vs ==> v in sorted
    requires forall j | 0 <= j < i :: !MatchesConstraint(sorted[j], constraint)
    ensures Comparable(vs) ==> Best(vs, sorted[i], constraint)
    ensures Comparable(vs) && i == 0 ==> forall u | u in vs :: Compare(u, sorted[0]) <= 0
  {
    if Comparable(vs) {
      forall u | u in vs && (i == 0 || MatchesConstraint(u, constraint))
        ensures Compare(u, sorted[i]) <= 0
      {
        assert u in sorted;
        var j :| 0 <= j < |sorted| && sorted[j] == u;
        PartsOpposite(Split(u), Split(u));
      }
    }
  }
}
