// internal/store/db.go: the migration runner.
//
// A migration's body and its row in schema_version commit together or not at
// all; an open may fail or crash anywhere and is retried later.
module Migrations {
  import opened Text

  // strconv.Atoi, without its 64-bit range.
  function Atoi(s: string): Option<int> {
    if s != [] && (s[0] == '+' || s[0] == '-') then
      (if s[1..] != [] && Digits(s[1..]) then Some((if s[0] == '-' then -1 else 1) * Num(s[1..])) else None)
    else if s != [] && Digits(s) then Some(Num(s))
    else None
  }

  // The version number in front of the first underscore.
  function VersionOf(name: string): Option<int> { Atoi(Before(name, '_')) }

  // sort.Strings
  function SortNames(names: seq<string>): seq<string> {
    if names == [] then [] else InsertName(SortNames(names[1..]), names[0])
  }

  lemma {:induction false} SortNamesSorts(names: seq<string>)
    ensures Sorted(SortNames(names))
    ensures forall m :: m in SortNames(names) <==> m in names
  {
    if names != [] {
      SortNamesSorts(names[1..]);
      InsertNameSorts(SortNames(names[1..]), names[0]);
    }
  }

  lemma {:induction false} InsertNameCount(names: seq<string>, n: string)
    ensures multiset(InsertName(names, n)) == multiset(names) + multiset{n}
  {
    if names != [] && !Less(n, names[0]) {
      InsertNameCount(names[1..], n);
      assert names == [names[0]] + names[1..];
    }
  }

  lemma {:induction false} SortNamesCount(names: seq<string>)
    ensures multiset(SortNames(names)) == multiset(names)
  {
    if names != [] {
      SortNamesCount(names[1..]);
      InsertNameCount(SortNames(names[1..]), names[0]);
      assert names == [names[0]] + names[1..];
    }
  }

  // Names like 0001_init.sql: numeric prefixes of one width, all different.
  ghost predicate WellNamed(names: seq<string>, width: nat) {
    && width > 0
    && (forall i | 0 <= i < |names| :: |Before(names[i], '_')| == width && Digits(Before(names[i], '_')))
    && (forall i, j | 0 <= i < j < |names| :: Before(names[i], '_') != Before(names[j], '_'))
  }

  lemma {:induction false} BeforeIsPrefix(s: string, sep: char)
    ensures |Before(s, sep)| <= |s| && s == Before(s, sep) + s[|Before(s, sep)|..]
  {
    if s != [] && s[0] != sep {
      BeforeIsPrefix(s[1..], sep);
    }
  }

  // Then byte order of the names is the order of the version numbers.
  lemma NameOrderIsNumeric(a: string, b: string, width: nat)
    requires width > 0
    requires |Before(a, '_')| == width && Digits(Before(a, '_'))
    requires |Before(b, '_')| == width && Digits(Before(b, '_'))
    requires Before(a, '_') != Before(b, '_')
    ensures VersionOf(a).Some? && VersionOf(b).Some?
    ensures Less(a, b) <==> VersionOf(a).value < VersionOf(b).value
    ensures VersionOf(a) != VersionOf(b)
  {
    var p, q := Before(a, '_'), Before(b, '_');
    BeforeIsPrefix(a, '_');
    BeforeIsPrefix(b, '_');
    LessConcat(p, a[width..], q, b[width..]);
    SameLengthOrder(p, q);
    assert IsDigit(p[0]) && IsDigit(q[0]);
  }

  // Signs are read, and nothing but digits may follow.
  lemma AtoiSigns()
    ensures Atoi("-12") == Some(-12) && Atoi("+12") == Some(12) && Atoi("0012") == Some(12)
    ensures Atoi("") == None && Atoi("-") == None && Atoi("1x") == None
  {
    assert "-12"[1..] == "12" && "+12"[1..] == "12" && "12" == Dec(12);
    NumDec(12);
    assert "0012" == Pad(12, 4) && Pow10(4) == 10000;
    NumPad(12, 4);
    assert !IsDigit("1x"[1]);
  }

  // Without one common width it is not: version 10 would come before version 9.
  lemma WidthMatters()
    ensures Less("10_b", "9_a") && VersionOf("10_b") == Some(10) && VersionOf("9_a") == Some(9)
  {
    assert Before("10_b", '_') == "10" && Before("9_a", '_') == "9";
    assert "10" == Dec(10) && "9" == Dec(9);
    NumDec(10);
    NumDec(9);
  }

  // The sorted list is in increasing version order.
  ghost predicate Increasing(names: seq<string>) {
    && (forall i | 0 <= i < |names| :: VersionOf(names[i]).Some?)
    && (forall i, j | 0 <= i < j < |names| :: VersionOf(names[i]).value < VersionOf(names[j]).value)
  }

  lemma WellNamedIncreasing(names: seq<string>, width: nat)
    requires WellNamed(names, width)
    ensures Increasing(SortNames(names)) && |SortNames(names)| == |names|
  {
    SortNamesSorts(names);
    SortNamesCount(names);
    var sorted := SortNames(names);
    assert |sorted| == |multiset(sorted)| == |multiset(names)| == |names|;
    DistinctPrefixes(names, sorted, width);
    SortedIsIncreasing(sorted, width);
  }

  lemma SortedIsIncreasing(sorted: seq<string>, width: nat)
    requires WellNamed(sorted, width) && Sorted(sorted)
    ensures Increasing(sorted)
  {
    hide VersionOf, Before, Less, Digits;
    forall i, j | 0 <= i < j < |sorted|
      ensures VersionOf(sorted[i]).Some? && VersionOf(sorted[j]).Some?
      ensures VersionOf(sorted[i]).value < VersionOf(sorted[j]).value
    {
      NameOrderIsNumeric(sorted[j], sorted[i], width);
    }
    forall i | 0 <= i < |sorted| ensures VersionOf(sorted[i]).Some? {
      PrefixIsNumber(sorted[i], width);
    }
  }

  lemma PrefixIsNumber(name: string, width: nat)
    requires width > 0 && |Before(name, '_')| == width && Digits(Before(name, '_'))
    ensures VersionOf(name).Some?
  {
    assert IsDigit(Before(name, '_')[0]);
  }

  // Sorting keeps every name once, so the prefixes stay distinct.
  lemma DistinctPrefixes(names: seq<string>, sorted: seq<string>, width: nat)
    requires WellNamed(names, width) && multiset(sorted) == multiset(names)
    ensures WellNamed(sorted, width)
  {
    hide Before, Digits;
    forall i | 0 <= i < |sorted| ensures sorted[i] in names {
      assert sorted[i] in multiset(sorted);
    }
    forall i, j | 0 <= i < j < |sorted| ensures Before(sorted[i], '_') != Before(sorted[j], '_') {
      if Before(sorted[i], '_') == Before(sorted[j], '_') {
        var a :| 0 <= a < |names| && names[a] == sorted[i];
        var b :| 0 <= b < |names| && names[b] == sorted[j];
        assert a == b;
        TwiceInMultiset(sorted, i, j);
        OnceInMultiset(names, a, width);
      }
    }
  }

  lemma TwiceInMultiset(s: seq<string>, i: nat, j: nat)
    requires i < j < |s| && s[i] == s[j]
    ensures multiset(s)[s[i]] >= 2
  {
    assert s == s[..i] + [s[i]] + s[i + 1..j] + [s[j]] + s[j + 1..];
  }

  lemma OnceInMultiset(names: seq<string>, a: nat, width: nat)
    requires WellNamed(names, width) && a < |names|
    ensures multiset(names)[names[a]] == 1
  {
    hide Before, Digits;
    assert names == names[..a] + [names[a]] + names[a + 1..];
    assert names[a] !in names[..a] && names[a] !in names[a + 1..];
  }

  // A name beyond the committed first part has a version not committed yet.
  lemma StillToApply(names: seq<string>, done: seq<string>, i: nat)
    requires Increasing(names) && done <= names && |done| <= i < |names|
    ensures forall j | 0 <= j < |done| :: VersionOf(done[j]) != VersionOf(names[i])
  {
    hide VersionOf;
    assert forall j | 0 <= j < |done| :: done[j] == names[j];
  }

  // ---- the code -----------------------------------------------------------

  // The steps of one migration: reading the file, and the transaction's statements.
  datatype TxStep = Read | Begin | Body | Record | Commit

  // Whether the table is created and the versions are listed, and what fails in
  // each migration.
  datatype OpenPlan = OpenPlan(create: bool, list: bool, migration: string -> set<TxStep>)

  ghost predicate Flawless(plan: OpenPlan) { plan.create && plan.list && forall n :: plan.migration(n) == {} }

  class SchemaDb {
    var executed: seq<string>    // migrations whose body has committed, in order
    var versions: set<int>       // schema_version

    constructor ()
      ensures executed == [] && versions == {}
    {
      executed, versions := [], {};
    }

    // Committed migrations and schema_version always tell the same story, and no
    // version was ever committed twice; true for any set of names.
    ghost predicate Valid()
      reads this
    {
      && (forall i | 0 <= i < |executed| :: VersionOf(executed[i]).Some?)
      && (forall i, j | 0 <= i < j < |executed| :: VersionOf(executed[i]) != VersionOf(executed[j]))
      && (forall v :: v in versions <==> exists i :: 0 <= i < |executed| && VersionOf(executed[i]) == Some(v))
    }

    // Body and version row in one transaction; PRIMARY KEY refuses a second row.
    method ApplyMigration(name: string, v: int, fails: set<TxStep>) returns (ok: bool)
      requires Valid() && VersionOf(name) == Some(v)
      modifies this
      ensures Valid()
      ensures ok <==> fails == {} && v !in old(versions)
      ensures ok ==> executed == old(executed) + [name] && versions == old(versions) + {v}
      ensures !ok ==> executed == old(executed) && versions == old(versions)
    {
      hide VersionOf;
      if Read in fails || Begin in fails {
        return false;
      }
      var txExecuted := executed + [name];
      if Body in fails {
        return false;
      }
      if v in versions || Record in fails {
        return false;
      }
      var txVersions := versions + {v};
      if Commit in fails {
        return false;
      }
      assert fails == {} by {
        if s: TxStep :| s in fails {
          match s
          case Read => case Begin => case Body => case Record => case Commit =>
        }
      }
      executed, versions := txExecuted, txVersions;
      assert executed[|executed| - 1] == name;
      assert forall i | 0 <= i < |old(executed)| :: executed[i] == old(executed)[i];
      ok := true;
    }

    // One open. `plan` is what fails in it; a crash is a failure that nobody reports.
    // On a sorted list with increasing versions it applies, in order, what is missing
    // up to the first migration that fails, and succeeds exactly when none does.
    method Migrate(files: seq<string>, plan: OpenPlan) returns (ok: bool)
      requires Valid()
      modifies this
      ensures Valid() && old(executed) <= executed && old(versions) <= versions
      ensures ok ==> forall n | n in files :: VersionOf(n).Some? && VersionOf(n).value in versions
      ensures !plan.create || !plan.list ==> !ok && executed == old(executed)
      ensures Increasing(SortNames(files)) && old(executed) <= SortNames(files) ==>
                var names := SortNames(files);
                && executed <= names
                && (forall i | |old(executed)| <= i < |executed| :: plan.migration(names[i]) == {})
                && (plan.create && plan.list && |executed| < |names| ==> plan.migration(names[|executed|]) != {})
                && (ok <==> plan.create && plan.list && executed == names)
    {
      hide VersionOf, SortNames;
      if !plan.create {
        return false;
      }
      var names := SortNames(files);
      var applied := versions;
      if !plan.list {
        return false;
      }
      ghost var good := Increasing(names) && old(executed) <= names;
      ghost var k := |old(executed)|;
      SortNamesSorts(files);
      for i := 0 to |names|
        invariant Valid() && old(executed) <= executed && old(versions) <= versions
        invariant forall j | 0 <= j < i :: VersionOf(names[j]).Some? && VersionOf(names[j]).value in versions
        invariant good ==> executed == names[..if i > k then i else k]
        invariant good ==> forall j | k <= j < i :: plan.migration(names[j]) == {}
      {
        var v := VersionOf(names[i]);
        if v.None? {
          return false;
        }
        if good && i >= k {
          StillToApply(names, old(executed), i);
        }
        if good && i < k {
          assert old(executed)[i] == names[i];
        }
        if v.value in applied {
          continue;
        }
        var done := ApplyMigration(names[i], v.value, plan.migration(names[i]));
        if !done {
          if good {
            StillToApply(names, executed, i);
          }
          return false;
        }
        if good {
          assert names[..i + 1] == names[..i] + [names[i]];
        }
      }
      ok := true;
    }

    // Any number of opens, each failing or crashing anywhere: what has committed
    // is a first part of the sorted list, each version once, in numeric order; and
    // all of it, once one of the opens was free of failures.
    method Opens(files: seq<string>, width: nat, plans: seq<OpenPlan>)
      requires Valid() && executed == [] && WellNamed(files, width)
      modifies this
      ensures Valid() && executed <= SortNames(files) && Increasing(executed)
      ensures (exists n :: 0 <= n < |plans| && Flawless(plans[n])) ==> executed == SortNames(files)
    {
      WellNamedIncreasing(files, width);
      hide WellNamed, SortNames, VersionOf, Increasing;
      for n := 0 to |plans|
        invariant Valid() && executed <= SortNames(files)
        invariant (exists m :: 0 <= m < n && Flawless(plans[m])) ==> executed == SortNames(files)
      {
        var _ := Migrate(files, plans[n]);
      }
      FirstPartIncreasing(SortNames(files), executed);
    }
  }

  lemma FirstPartIncreasing(names: seq<string>, done: seq<string>)
    requires Increasing(names) && done <= names
    ensures Increasing(done)
  {
    hide VersionOf;
    assert forall i | 0 <= i < |done| :: done[i] == names[i];
  }
}
