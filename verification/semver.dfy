// internal/updater/github.go: comparing release tags.
module Semver {
  import opened Text

  function TrimPrefixV(s: string): string {
    if s != [] && s[0] == 'v' then s[1..] else s
  }

  // lessNumeric: shorter is smaller, then byte order.
  predicate LessNumeric(a: string, b: string) {
    if |a| != |b| then |a| < |b| else Less(a, b)
  }

  // The comparison of the components from position i on.
  function CompareFrom(a: seq<string>, b: seq<string>, i: nat): int
    decreases 3 - i
  {
    if i >= 3 || i >= |a| || i >= |b| then 0
    else if a[i] == b[i] then CompareFrom(a, b, i + 1)
    else if LessNumeric(a[i], b[i]) then -1
    else 1
  }

  function Compare(a: string, b: string): int {
    if a == b then 0
    else if a == "dev" || b == "dev" then 0
    else CompareFrom(Split(TrimPrefixV(a), '.'), Split(TrimPrefixV(b), '.'), 0)
  }

  method SemverCompare(a: string, b: string) returns (r: int)
    ensures r == Compare(a, b)
  {
    if a == b {
      return 0;
    }
    if a == "dev" || b == "dev" {
      return 0;
    }
    var as_, bs := Split(TrimPrefixV(a), '.'), Split(TrimPrefixV(b), '.');
    var i := 0;
    while i < 3 && i < |as_| && i < |bs|
      invariant 0 <= i <= 3
      invariant CompareFrom(as_, bs, i) == CompareFrom(as_, bs, 0)
    {
      if as_[i] == bs[i] {
        i := i + 1;
        continue;
      }
      if LessNumeric(as_[i], bs[i]) {
        return -1;
      }
      return 1;
    }
    r := 0;
  }

  // ---- well-formed versions -----------------------------------------------

  // A numeric identifier: digits, no leading zero (section 2 of Semantic Versioning 2.0.0).
  predicate Numeric(s: string) { s != [] && Digits(s) && (|s| > 1 ==> s[0] != '0') }

  datatype Version = Version(major: string, minor: string, patch: string) {
    predicate Valid() { Numeric(major) && Numeric(minor) && Numeric(patch) }

    function Tag(): string { ['v'] + (major + ['.'] + (minor + ['.'] + patch)) }
  }

  // Precedence: the numbers compared left to right (section 11).
  function Precedence(a: Version, b: Version): int
    requires a.Valid() && b.Valid()
  {
    if Num(a.major) != Num(b.major) then (if Num(a.major) < Num(b.major) then -1 else 1)
    else if Num(a.minor) != Num(b.minor) then (if Num(a.minor) < Num(b.minor) then -1 else 1)
    else if Num(a.patch) != Num(b.patch) then (if Num(a.patch) < Num(b.patch) then -1 else 1)
    else 0
  }

  lemma {:induction false} Pow10Mono(a: nat, b: nat)
    requires a <= b
    ensures Pow10(a) <= Pow10(b)
  {
    if a < b {
      Pow10Mono(a, b - 1);
    }
  }

  // More digits, larger number.
  lemma LongerIsLarger(a: string, b: string)
    requires Numeric(a) && Numeric(b) && |a| < |b|
    ensures Num(a) < Num(b)
  {
    NumBound(a);
    Pow10Mono(|a|, |b| - 1);
    assert DigitValue(b[0]) >= 1;
    MulMono(1, DigitValue(b[0]), Pow10(|b| - 1));
  }

  // On numbers of any length the text test is the numeric one.
  lemma LessNumericIsNumeric(a: string, b: string)
    requires Numeric(a) && Numeric(b)
    ensures LessNumeric(a, b) <==> Num(a) < Num(b)
    ensures a == b <==> Num(a) == Num(b)
  {
    if |a| < |b| {
      LongerIsLarger(a, b);
    } else if |b| < |a| {
      LongerIsLarger(b, a);
    } else {
      SameLengthOrder(a, b);
    }
  }

  lemma TagParts(v: Version)
    requires v.Valid()
    ensures Split(TrimPrefixV(v.Tag()), '.') == [v.major, v.minor, v.patch]
  {
    SplitHead(v.patch, [], '.');
    SplitHead(v.minor, v.patch, '.');
    SplitHead(v.major, v.minor + ['.'] + v.patch, '.');
    assert TrimPrefixV(v.Tag()) == v.major + ['.'] + (v.minor + ['.'] + v.patch);
  }

  // On well-formed tags semverCompare is the precedence of the numeric triples.
  lemma CompareIsPrecedence(a: Version, b: Version)
    requires a.Valid() && b.Valid()
    ensures Compare(a.Tag(), b.Tag()) == Precedence(a, b)
    ensures Compare(a.Tag(), b.Tag()) == 0 <==> a == b
  {
    TagParts(a);
    TagParts(b);
    LessNumericIsNumeric(a.major, b.major);
    LessNumericIsNumeric(a.minor, b.minor);
    LessNumericIsNumeric(a.patch, b.patch);
    assert a.Tag()[0] == 'v' && b.Tag()[0] == 'v';
    hide LessNumeric, Num, Split;
    var x, y := [a.major, a.minor, a.patch], [b.major, b.minor, b.patch];
    assert CompareFrom(x, y, 3) == 0;
    assert CompareFrom(x, y, 2) == if a.patch == b.patch then 0 else if LessNumeric(a.patch, b.patch) then -1 else 1;
    assert CompareFrom(x, y, 1) ==
           if a.minor == b.minor then CompareFrom(x, y, 2) else if LessNumeric(a.minor, b.minor) then -1 else 1;
    if a.Tag() == b.Tag() {
      assert x == y;
      assert x[0] == y[0] && x[1] == y[1] && x[2] == y[2];
    }
  }

  // Hence a total order.
  lemma TotalOrder(a: Version, b: Version, c: Version)
    requires a.Valid() && b.Valid() && c.Valid()
    ensures Compare(a.Tag(), b.Tag()) == -Compare(b.Tag(), a.Tag())
    ensures Compare(a.Tag(), b.Tag()) <= 0 && Compare(b.Tag(), c.Tag()) <= 0 ==> Compare(a.Tag(), c.Tag()) <= 0
    ensures Compare(a.Tag(), b.Tag()) < 0 && Compare(b.Tag(), c.Tag()) <= 0 ==> Compare(a.Tag(), c.Tag()) < 0
  {
    CompareIsPrecedence(a, b);
    CompareIsPrecedence(b, a);
    CompareIsPrecedence(b, c);
    CompareIsPrecedence(a, c);
    hide Compare, Num;
  }

  // A tag of any number of components, numeric or not.
  function TagOf(parts: seq<string>): string { ['v'] + Join(parts, '.') }

  predicate Parts(parts: seq<string>) { parts != [] && forall i | 0 <= i < |parts| :: '.' !in parts[i] }

  // The first of the first three components that differs decides ...
  lemma FirstDifferenceDecides(a: seq<string>, b: seq<string>, k: nat)
    requires Parts(a) && Parts(b) && k < 3 && k < |a| && k < |b|
    requires (forall i | 0 <= i < k :: a[i] == b[i]) && a[k] != b[k]
    ensures Compare(TagOf(a), TagOf(b)) == if LessNumeric(a[k], b[k]) then -1 else 1
  {
    SplitJoin(a, '.');
    SplitJoin(b, '.');
    assert TagOf(a)[1..] == Join(a, '.') && TagOf(b)[1..] == Join(b, '.');
    hide Split, Join, LessNumeric;
    assert CompareFrom(a, b, k) == if LessNumeric(a[k], b[k]) then -1 else 1;
    assert k > 0 ==> CompareFrom(a, b, k - 1) == CompareFrom(a, b, k);
    assert k > 1 ==> CompareFrom(a, b, k - 2) == CompareFrom(a, b, k - 1);
  }

  // ... and if none does, neither further components nor missing ones do.
  lemma NothingElseDecides(a: seq<string>, b: seq<string>)
    requires Parts(a) && Parts(b) && forall i | 0 <= i < 3 && i < |a| && i < |b| :: a[i] == b[i]
    ensures Compare(TagOf(a), TagOf(b)) == 0
  {
    SplitJoin(a, '.');
    SplitJoin(b, '.');
    assert TagOf(a)[1..] == Join(a, '.') && TagOf(b)[1..] == Join(b, '.');
    hide Split, Join, LessNumeric;
    assert CompareFrom(a, b, 3) == 0;
    assert CompareFrom(a, b, 2) == 0;
    assert CompareFrom(a, b, 1) == 0;
  }

  // A dev build compares equal to everything.
  lemma DevIsEqual(tag: string)
    ensures Compare("dev", tag) == 0 && Compare(tag, "dev") == 0
  {
  }

  // With leading zeros the text test is no longer numeric.
  lemma LeadingZerosMislead()
    ensures LessNumeric("9", "08") && Num("9") > Num("08") && !Numeric("08")
  {
    assert Num("9") == 9 * Pow10(0) + Num("9"[1..]);
    assert Num("08") == 0 * Pow10(1) + Num("08"[1..]);
    assert "08"[1..] == "8";
    assert Num("8") == 8 * Pow10(0) + Num("8"[1..]);
  }
}
