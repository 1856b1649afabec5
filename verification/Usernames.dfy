/**
 The bounded username allocator: the base name, then the base name with a number, until one
 is free or 1000 have been tried.
*/
module Usernames {
  import opened Wrappers

  const MAX_ROOT_LENGTH := 80
  const MAX_ATTEMPTS := 1000

  const DIGITS := "0123456789"

  /** A number in template text: decimal digits without leading zeros. */
  function Decimal(n: nat): (s: string)
    ensures if n < 10 then |s| == 1 else |s| >= 2
  {
    if n < 10 then [DIGITS[n]] else Decimal(n / 10) + [DIGITS[n % 10]]
  }

  function Candidate(root: string, i: nat): string {
    if i == 0 then root else root + "-" + Decimal(i)
  }

  function Root(base: string): string {
    if |base| <= MAX_ROOT_LENGTH then base else base[..MAX_ROOT_LENGTH]
  }

  /** The number that a text of decimal digits stands for. */
  function Value(digits: string): int {
    if digits == "" then 0
    else 10 * Value(digits[..|digits| - 1]) + (digits[|digits| - 1] as int - '0' as int)
  }

  lemma DigitAt(n: nat)
    requires n < 10
    ensures '0' <= DIGITS[n] <= '9' && DIGITS[n] as int - '0' as int == n
  {
  }

  /** Template text writes a number in decimal digits, without a leading zero. */
  lemma {:induction false} DecimalIsTheNumber(n: nat)
    ensures Value(Decimal(n)) == n
    ensures forall i :: 0 <= i < |Decimal(n)| ==> '0' <= Decimal(n)[i] <= '9'
    ensures n > 0 ==> Decimal(n)[0] != '0'
  {
    if n < 10 {
      DigitAt(n);
      assert Decimal(n)[..0] == "";
    } else {
      DecimalIsTheNumber(n / 10);
      DigitAt(n % 10);
      assert Decimal(n)[..|Decimal(n)| - 1] == Decimal(n / 10);
    }
  }

  /**
   The names that are tried: the root, which is the base or its first 80 characters, and then
   the root with a hyphen and the number of the attempt.
  */
  lemma CandidateNames(base: string, i: nat)
    ensures Root(base) <= base && |Root(base)| == (if |base| < 80 then |base| else 80)
    ensures Candidate(Root(base), 0) == Root(base)
    ensures i > 0 ==>
      var name, n := Candidate(Root(base), i), |Root(base)|;
      && |name| > n + 1 && name[..n] == Root(base) && name[n] == '-'
      && (forall k :: n < k < |name| ==> '0' <= name[k] <= '9')
      && name[n + 1] != '0'
      && Value(name[n + 1..]) == i
  {
    if i > 0 {
      DecimalIsTheNumber(i);
      assert Candidate(Root(base), i)[|Root(base)| + 1..] == Decimal(i);
    }
  }

  lemma DigitsDiffer(a: nat, b: nat)
    requires a < 10 && b < 10 && DIGITS[a] == DIGITS[b]
    ensures a == b
  {
  }

  lemma {:induction false} DecimalInjective(a: nat, b: nat)
    requires Decimal(a) == Decimal(b)
    ensures a == b
    decreases a
  {
    var s, t := Decimal(a), Decimal(b);
    assert s[|s| - 1] == DIGITS[a % 10] && t[|t| - 1] == DIGITS[b % 10];
    DigitsDiffer(a % 10, b % 10);
    if a >= 10 {
      assert s[..|s| - 1] == Decimal(a / 10) && t[..|t| - 1] == Decimal(b / 10);
      DecimalInjective(a / 10, b / 10);
    }
  }

  /** No two attempts try the same name. */
  lemma CandidatesDiffer(root: string, i: nat, j: nat)
    requires Candidate(root, i) == Candidate(root, j)
    ensures i == j
  {
    if i > 0 && j > 0 {
      var n := |root| + 1;
      assert Candidate(root, i)[n..] == Decimal(i);
      assert Candidate(root, j)[n..] == Decimal(j);
      DecimalInjective(i, j);
    }
  }

  function Tried(root: string, n: nat): set<string> {
    set i: nat | i < n :: Candidate(root, i)
  }

  lemma NextIsUntried(root: string, n: nat)
    ensures Candidate(root, n) !in Tried(root, n)
  {
    if i: nat :| i < n && Candidate(root, i) == Candidate(root, n) {
      CandidatesDiffer(root, i, n);
    }
  }

  lemma TriedGrows(root: string, n: nat)
    ensures Tried(root, n + 1) == Tried(root, n) + {Candidate(root, n)}
  {
  }

  lemma {:induction false} TriedCount(root: string, n: nat)
    ensures |Tried(root, n)| == n
  {
    if n == 0 {
      assert Tried(root, 0) == {};
    } else {
      TriedCount(root, n - 1);
      NextIsUntried(root, n - 1);
      TriedGrows(root, n - 1);
    }
  }

  lemma SubsetIsSmaller(a: set<string>, b: set<string>)
    requires a <= b
    ensures |a| <= |b|
  {
    assert b == a + (b - a);
  }

  /**
   A table with fewer than 1000 usernames always leaves a free candidate; and with exactly
   1000 well-chosen ones it does not, so the bound is the best possible.
  */
  lemma SomeCandidateIsFree(taken: set<string>, base: string)
    ensures |taken| < 1000 ==> exists i: nat :: i < 1000 && Candidate(Root(base), i) !in taken
    ensures |Tried(Root(base), 1000)| == 1000
    ensures forall i: nat :: i < 1000 ==> Candidate(Root(base), i) in Tried(Root(base), 1000)
  {
    var root := Root(base);
    TriedCount(root, MAX_ATTEMPTS);
    if forall i: nat :: i < MAX_ATTEMPTS ==> Candidate(root, i) in taken {
      assert Tried(root, MAX_ATTEMPTS) <= taken;
      SubsetIsSmaller(Tried(root, MAX_ATTEMPTS), taken);
    }
  }

  /**
   `getUniqueUsername` against the usernames in the table: the unused candidate with the
   least suffix, or a failure exactly when all 1000 are used, which a table with fewer than
   1000 usernames rules out.
  */
  method GetUniqueUsername(taken: set<string>, base: string) returns (r: Result<string, ()>)
    ensures r.Success? ==>
      exists i: nat ::
        && i < 1000
        && r.value == Candidate(Root(base), i)
        && r.value !in taken
        && forall j: nat :: j < i ==> Candidate(Root(base), j) in taken
    ensures r.Failure? <==> forall j: nat :: j < 1000 ==> Candidate(Root(base), j) in taken
    ensures |taken| < 1000 ==> r.Success?
  {
    var root := Root(base);
    SomeCandidateIsFree(taken, base);
    for i := 0 to MAX_ATTEMPTS
      invariant forall j: nat :: j < i ==> Candidate(root, j) in taken
    {
      var candidate := Candidate(root, i);
      if candidate !in taken {
        return Success(candidate);
      }
    }
    return Failure(());
  }
}
