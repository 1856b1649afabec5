/**
 Migration name lists as the release controller reads them from a commit, and the two
 ways it compares them: `migrationSetsDiffer` (position by position) and
 `compareMigrationSets` (names of the current release that the target lacks).
*/
module MigrationSets {
  import opened Wrappers

  type Name = string

  /** Lexicographic order on code units, the default order of `Array.prototype.sort`. */
  predicate Leq(a: Name, b: Name) {
    |a| == 0 || (|b| > 0 && (a[0] < b[0] || (a[0] == b[0] && Leq(a[1..], b[1..]))))
  }

  lemma {:induction false} LeqTotal(a: Name, b: Name)
    ensures Leq(a, b) || Leq(b, a)
  {
    if |a| > 0 && |b| > 0 && a[0] == b[0] {
      LeqTotal(a[1..], b[1..]);
    }
  }

  lemma {:induction false} LeqAntisymmetric(a: Name, b: Name)
    requires Leq(a, b) && Leq(b, a)
    ensures a == b
  {
    if |a| > 0 && |b| > 0 {
      LeqAntisymmetric(a[1..], b[1..]);
      assert a == [a[0]] + a[1..] && b == [b[0]] + b[1..];
    }
  }

  lemma {:induction false} LeqTransitive(a: Name, b: Name, c: Name)
    requires Leq(a, b) && Leq(b, c)
    ensures Leq(a, c)
  {
    if |a| > 0 && a[0] == b[0] && b[0] == c[0] {
      LeqTransitive(a[1..], b[1..], c[1..]);
    }
  }

  /** The first character where the names differ is smaller in the first one. */
  predicate FirstDifferenceIsSmaller(a: Name, b: Name, i: nat) {
    i < |a| && i < |b| && a[..i] == b[..i] && a[i] < b[i]
  }

  /** One name comes before or equals another: it is a prefix, or smaller where the two first differ. */
  ghost predicate InDictionaryOrder(a: Name, b: Name) {
    a <= b || exists i: nat :: FirstDifferenceIsSmaller(a, b, i)
  }

  lemma DifferenceInRest(a: Name, b: Name, i: nat)
    requires |a| > 0 && |b| > 0 && a[0] == b[0]
    ensures FirstDifferenceIsSmaller(a[1..], b[1..], i) <==> FirstDifferenceIsSmaller(a, b, i + 1)
  {
    if i + 1 <= |a| && i + 1 <= |b| {
      assert a[..i + 1] == [a[0]] + a[1..][..i] && b[..i + 1] == [b[0]] + b[1..][..i];
    }
  }

  /** `Leq` is the dictionary order. */
  lemma {:induction false} LeqIsDictionaryOrder(a: Name, b: Name)
    ensures Leq(a, b) <==> InDictionaryOrder(a, b)
  {
    if |a| > 0 && |b| > 0 {
      if a[0] == b[0] {
        LeqIsDictionaryOrder(a[1..], b[1..]);
        assert a == [a[0]] + a[1..] && b == [b[0]] + b[1..];
        if i: nat :| FirstDifferenceIsSmaller(a[1..], b[1..], i) {
          DifferenceInRest(a, b, i);
        }
        if i: nat :| FirstDifferenceIsSmaller(a, b, i) {
          DifferenceInRest(a, b, i - 1);
        }
      } else {
        assert a[0] < b[0] ==> FirstDifferenceIsSmaller(a, b, 0);
        if i: nat :| FirstDifferenceIsSmaller(a, b, i) {
          assert i > 0 ==> a[..i][0] == b[..i][0];
        }
      }
    }
  }

  predicate Sorted(names: seq<Name>) {
    forall i, j :: 0 <= i < j < |names| ==> Leq(names[i], names[j])
  }

  predicate NoDuplicates(names: seq<Name>) {
    forall i, j :: 0 <= i < j < |names| ==> names[i] != names[j]
  }

  function NameSet(names: seq<Name>): set<Name> {
    set n | n in names
  }

  function Insert(name: Name, names: seq<Name>): seq<Name> {
    if names == [] || Leq(name, names[0]) then [name] + names
    else [names[0]] + Insert(name, names[1..])
  }

  /** The `.sort()` at the end of `readMigrationNamesAtRef`. */
  function SortNames(names: seq<Name>): seq<Name> {
    if names == [] then [] else Insert(names[0], SortNames(names[1..]))
  }

  lemma {:induction false} InsertAddsOne(name: Name, names: seq<Name>)
    ensures multiset(Insert(name, names)) == multiset(names) + multiset{name}
  {
    if names != [] {
      assert names == [names[0]] + names[1..];
      InsertAddsOne(name, names[1..]);
    }
  }

  lemma FirstBelowAll(first: Name, rest: seq<Name>)
    requires forall n :: n in rest ==> Leq(first, n)
    requires Sorted(rest)
    ensures Sorted([first] + rest)
  {
  }

  lemma {:induction false} InsertSorts(name: Name, names: seq<Name>)
    requires Sorted(names)
    ensures Sorted(Insert(name, names))
  {
    if names == [] {
    } else if Leq(name, names[0]) {
      forall j | 0 <= j < |names| ensures Leq(name, names[j]) {
        if j > 0 {
          LeqTransitive(name, names[0], names[j]);
        }
      }
    } else {
      LeqTotal(name, names[0]);
      InsertSorts(name, names[1..]);
      var rest := Insert(name, names[1..]);
      InsertAddsOne(name, names[1..]);
      forall n | n in rest ensures Leq(names[0], n) {
        assert n in multiset(rest);
      }
      FirstBelowAll(names[0], rest);
    }
  }

  /** Sorting orders the names and keeps each as often as it was there. */
  lemma {:induction false} SortNamesSorts(names: seq<Name>)
    ensures Sorted(SortNames(names))
    ensures multiset(SortNames(names)) == multiset(names)
  {
    if names != [] {
      assert names == [names[0]] + names[1..];
      SortNamesSorts(names[1..]);
      InsertSorts(names[0], SortNames(names[1..]));
      InsertAddsOne(names[0], SortNames(names[1..]));
    }
  }

  lemma SortKeepsNames(names: seq<Name>)
    ensures NameSet(SortNames(names)) == NameSet(names)
    ensures |SortNames(names)| == |names|
  {
    var r := SortNames(names);
    SortNamesSorts(names);
    assert |multiset(r)| == |multiset(names)|;
    forall n ensures n in r <==> n in names {
      assert n in r <==> n in multiset(r);
      assert n in names <==> n in multiset(names);
    }
  }

  lemma SortKeepsNoDuplicates(names: seq<Name>)
    requires NoDuplicates(names)
    ensures NoDuplicates(SortNames(names))
  {
    SortNamesSorts(names);
    forall n ensures multiset(SortNames(names))[n] <= 1 {
      DuplicateFreeCount(names, n);
    }
    SingleCountsAreDuplicateFree(SortNames(names));
  }

  lemma {:induction false} SingleCountsAreDuplicateFree(names: seq<Name>)
    requires forall n :: multiset(names)[n] <= 1
    ensures NoDuplicates(names)
  {
    if names != [] {
      assert names == [names[0]] + names[1..];
      assert multiset(names)[names[0]] == 1 + multiset(names[1..])[names[0]];
      forall n ensures multiset(names[1..])[n] <= 1 {
        assert multiset(names)[n] <= 1;
      }
      SingleCountsAreDuplicateFree(names[1..]);
    }
  }

  lemma {:induction false} DuplicateFreeCount(names: seq<Name>, n: Name)
    requires NoDuplicates(names)
    ensures multiset(names)[n] <= 1
  {
    if names != [] {
      assert names == [names[0]] + names[1..];
      DuplicateFreeCount(names[1..], n);
      if names[0] == n {
        assert n !in names[1..];
      }
    }
  }

  /** `migrationSetsDiffer`: the lengths differ, or some position holds different names. */
  predicate MigrationSetsDiffer(left: seq<Name>, right: seq<Name>) {
    |left| != |right| || exists i :: 0 <= i < |left| && left[i] != right[i]
  }

  /** The names `compareMigrationSets` finds missing from the target, in order. */
  function MissingFrom(current: seq<Name>, target: seq<Name>): (r: seq<Name>)
    ensures forall n :: n in r <==> n in current && n !in target
  {
    if current == [] then []
    else (if current[0] in target then [] else [current[0]]) + MissingFrom(current[1..], target)
  }

  /** The warning text of `compareMigrationSets`: the names it lists and how many more there are. */
  datatype Warning = Warning(listed: seq<Name>, more: nat)

  /** `compareMigrationSets`: no warning means that the target holds every current migration. */
  function CompareMigrationSets(current: seq<Name>, target: seq<Name>): (w: Option<Warning>)
    ensures w.None? <==> NameSet(current) <= NameSet(target)
    ensures w.Some? ==> 0 < |w.value.listed| <= 6
    ensures w.Some? && w.value.more > 0 ==> |w.value.listed| == 6
    ensures w.Some? ==> forall n :: n in w.value.listed ==> n in current && n !in target
  {
    var missing := MissingFrom(current, target);
    assert NameSet(current) <= NameSet(target) <==> missing == [] by {
      if missing != [] {
        assert missing[0] in missing;
        assert missing[0] in NameSet(current) && missing[0] !in NameSet(target);
      }
    }
    if |missing| == 0 then None
    else if |missing| > 6 then Some(Warning(missing[..6], |missing| - 6))
    else Some(Warning(missing, 0))
  }

  /** The missing names are those of one part of the list and then those of the other. */
  lemma {:induction false} MissingFromParts(a: seq<Name>, b: seq<Name>, target: seq<Name>)
    ensures MissingFrom(a + b, target) == MissingFrom(a, target) + MissingFrom(b, target)
  {
    if a == [] {
      assert a + b == b;
    } else {
      assert (a + b)[1..] == a[1..] + b;
      MissingFromParts(a[1..], b, target);
    }
  }

  lemma {:induction false} MissingOnce(current: seq<Name>, target: seq<Name>)
    requires NoDuplicates(current)
    ensures NoDuplicates(MissingFrom(current, target))
    ensures Sorted(current) ==> Sorted(MissingFrom(current, target))
  {
    if current != [] {
      assert current == [current[0]] + current[1..];
      MissingOnce(current[1..], target);
      var rest := MissingFrom(current[1..], target);
      assert current[0] !in current[1..];
      if Sorted(current) && current[0] !in target {
        forall n | n in rest ensures Leq(current[0], n) {
          var k :| 0 <= k < |current[1..]| && current[1..][k] == n;
          assert current[k + 1] == n;
        }
        FirstBelowAll(current[0], rest);
      }
    }
  }

  lemma {:induction false} SetOfDistinct(names: seq<Name>)
    requires NoDuplicates(names)
    ensures |NameSet(names)| == |names|
  {
    if names == [] {
      assert NameSet(names) == {};
    } else {
      SetOfDistinct(names[1..]);
      assert names[0] !in names[1..];
      assert NameSet(names) == NameSet(names[1..]) + {names[0]};
    }
  }

  /** What a sorted list begins with comes before all the rest of it. */
  lemma BeginningComesFirst(names: seq<Name>, k: nat, n: Name, m: Name)
    requires Sorted(names) && k <= |names|
    requires n in names[..k] && m in names && m !in names[..k]
    ensures Leq(n, m)
  {
    var rest := names[k..];
    assert names == names[..k] + rest;
    var i :| 0 <= i < k && names[..k][i] == n;
    var j :| 0 <= j < |rest| && rest[j] == m;
    assert names[i] == n && names[k + j] == m;
  }

  lemma MissingAreCounted(current: seq<Name>, target: seq<Name>)
    requires NoDuplicates(current)
    ensures |MissingFrom(current, target)| == |NameSet(current) - NameSet(target)|
  {
    var missing := MissingFrom(current, target);
    MissingOnce(current, target);
    SetOfDistinct(missing);
    assert NameSet(missing) == NameSet(current) - NameSet(target);
  }

  /**
   The warning's text is true: it lists the first of the missing names, in order, at most six
   of them, and says how many more there are.
  */
  lemma WarningCountsTheMissing(current: seq<Name>, target: seq<Name>)
    requires NoDuplicates(current) && Sorted(current)
    requires CompareMigrationSets(current, target).Some?
    ensures var warning, missing := CompareMigrationSets(current, target).value, NameSet(current) - NameSet(target);
      && |warning.listed| + warning.more == |missing|
      && |warning.listed| == (if |missing| < 6 then |missing| else 6)
      && NoDuplicates(warning.listed) && Sorted(warning.listed)
      && (forall n :: n in warning.listed ==> n in missing)
      && (forall n, m :: n in warning.listed && m in missing && m !in warning.listed ==> Leq(n, m))
  {
    var missing, listed := MissingFrom(current, target), CompareMigrationSets(current, target).value.listed;
    MissingOnce(current, target);
    MissingAreCounted(current, target);
    assert listed == missing[..|listed|];
    forall n, m | n in listed && m in missing && m !in listed ensures Leq(n, m) {
      BeginningComesFirst(missing, |listed|, n, m);
    }
  }

  /** Two sorted lists without duplicates that hold the same names are the same list. */
  lemma {:induction false} SortedListsAreTheirSets(a: seq<Name>, b: seq<Name>)
    requires Sorted(a) && NoDuplicates(a) && Sorted(b) && NoDuplicates(b)
    requires NameSet(a) == NameSet(b)
    ensures a == b
  {
    assert a != [] ==> a[0] in NameSet(b);
    assert b != [] ==> b[0] in NameSet(a);
    if a != [] {
      LeqTotal(a[0], a[0]);
      LeqTotal(b[0], b[0]);
      assert Leq(a[0], b[0]) && Leq(b[0], a[0]);
      LeqAntisymmetric(a[0], b[0]);
      assert a == [a[0]] + a[1..] && b == [b[0]] + b[1..];
      assert NameSet(a[1..]) == NameSet(a) - {a[0]};
      assert NameSet(b[1..]) == NameSet(b) - {b[0]};
      SortedListsAreTheirSets(a[1..], b[1..]);
    }
  }

  /**
   On the lists the controller reads (names of distinct directories, sorted), the
   positional test, the two one-way comparisons and set equality all agree.
  */
  lemma DifferExactlyWhenSetsDiffer(left: seq<Name>, right: seq<Name>)
    requires NoDuplicates(left) && NoDuplicates(right)
    ensures var l, r := SortNames(left), SortNames(right);
      && (!MigrationSetsDiffer(l, r) <==>
            CompareMigrationSets(l, r).None? && CompareMigrationSets(r, l).None?)
      && (!MigrationSetsDiffer(l, r) <==> NameSet(left) == NameSet(right))
  {
    var l, r := SortNames(left), SortNames(right);
    SortNamesSorts(left);
    SortNamesSorts(right);
    SortKeepsNoDuplicates(left);
    SortKeepsNoDuplicates(right);
    SortKeepsNames(left);
    SortKeepsNames(right);
    if NameSet(left) == NameSet(right) {
      SortedListsAreTheirSets(l, r);
    }
    if !MigrationSetsDiffer(l, r) {
      assert l == r;
    }
  }
}
