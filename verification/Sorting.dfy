/** ORDER BY: a stable sort on an integer key, and the uniqueness of its result when keys are distinct. */
module Sorting {

  ghost predicate Increasing<T>(key: T -> int, s: seq<T>) {
    forall i, j :: 0 <= i < j < |s| ==> key(s[i]) < key(s[j])
  }

  ghost predicate Ascending<T>(key: T -> int, s: seq<T>) {
    forall i, j :: 0 <= i < j < |s| ==> key(s[i]) <= key(s[j])
  }

  ghost predicate DistinctKeys<T>(key: T -> int, s: seq<T>) {
    forall i, j :: 0 <= i < j < |s| ==> key(s[i]) != key(s[j])
  }

  function Insert<T>(key: T -> int, x: T, s: seq<T>): seq<T> {
    if s == [] || key(x) <= key(s[0]) then [x] + s else [s[0]] + Insert(key, x, s[1..])
  }

  function SortBy<T>(key: T -> int, s: seq<T>): seq<T> {
    if s == [] then [] else Insert(key, s[0], SortBy(key, s[1..]))
  }

  lemma {:induction false} InsertPermutes<T>(key: T -> int, x: T, s: seq<T>)
    ensures multiset(Insert(key, x, s)) == multiset{x} + multiset(s)
  {
    if s != [] && key(x) > key(s[0]) {
      InsertPermutes(key, x, s[1..]);
      assert s == [s[0]] + s[1..];
    }
  }

  lemma {:induction false} SortPermutes<T>(key: T -> int, s: seq<T>)
    ensures multiset(SortBy(key, s)) == multiset(s)
    ensures |SortBy(key, s)| == |s|
  {
    if s != [] {
      SortPermutes(key, s[1..]);
      InsertPermutes(key, s[0], SortBy(key, s[1..]));
      assert s == [s[0]] + s[1..];
    }
    assert |multiset(SortBy(key, s))| == |multiset(s)|;
  }

  lemma Rearranged<T>(a: seq<T>, b: seq<T>, x: T)
    requires multiset(a) == multiset(b) && x in a
    ensures x in b
  {
    assert x in multiset(a);
  }

  lemma {:induction false} InsertAscending<T>(key: T -> int, x: T, s: seq<T>)
    requires Ascending(key, s)
    ensures Ascending(key, Insert(key, x, s))
  {
    if s != [] && key(x) > key(s[0]) {
      InsertAscending(key, x, s[1..]);
      var r := Insert(key, x, s[1..]);
      forall j | 0 <= j < |r|
        ensures key(s[0]) <= key(r[j])
      {
        InsertMember(key, x, s[1..], r[j]);
      }
    }
  }

  lemma {:induction false} SortAscending<T>(key: T -> int, s: seq<T>)
    ensures Ascending(key, SortBy(key, s))
  {
    if s != [] {
      SortAscending(key, s[1..]);
      InsertAscending(key, s[0], SortBy(key, s[1..]));
    }
  }

  lemma {:induction false} CountedOnce<T>(key: T -> int, s: seq<T>, x: T)
    requires DistinctKeys(key, s)
    ensures multiset(s)[x] <= 1
  {
    if s != [] {
      CountedOnce(key, s[1..], x);
      assert s == [s[0]] + s[1..];
      if x == s[0] {
        forall i | 0 <= i < |s[1..]|
          ensures s[1..][i] != x
        {
          assert key(s[i + 1]) != key(s[0]);
        }
        assert x !in s[1..];
      }
    }
  }

  lemma CountedTwice<T>(s: seq<T>, i: nat, j: nat)
    requires i < j < |s| && s[i] == s[j]
    ensures multiset(s)[s[i]] >= 2
  {
    assert s == s[..j] + [s[j]] + s[j + 1..];
    assert s[i] == s[..j][i];
    assert s[i] in s[..j];
  }

  /** Distinct keys stay distinct in every arrangement of the rows. */
  lemma PermutedKeys<T>(key: T -> int, a: seq<T>, b: seq<T>)
    requires DistinctKeys(key, a) && multiset(a) == multiset(b)
    ensures DistinctKeys(key, b)
  {
    forall i, j | 0 <= i < j < |b|
      ensures key(b[i]) != key(b[j])
    {
      if b[i] == b[j] {
        CountedTwice(b, i, j);
        CountedOnce(key, a, b[i]);
      } else {
        Rearranged(b, a, b[i]);
        Rearranged(b, a, b[j]);
      }
    }
  }

  ghost predicate NoRepeats<T>(s: seq<T>) {
    forall i, j :: 0 <= i < j < |s| ==> s[i] != s[j]
  }

  lemma {:induction false} InsertNoRepeats<T>(key: T -> int, x: T, s: seq<T>)
    requires NoRepeats(s) && x !in s
    ensures NoRepeats(Insert(key, x, s))
  {
    if s != [] && key(x) > key(s[0]) {
      InsertNoRepeats(key, x, s[1..]);
      var r := Insert(key, x, s[1..]);
      forall j | 0 <= j < |r|
        ensures s[0] != r[j]
      {
        InsertMember(key, x, s[1..], r[j]);
      }
    }
  }

  lemma SortMembers<T>(key: T -> int, s: seq<T>)
    ensures forall i :: 0 <= i < |SortBy(key, s)| ==> SortBy(key, s)[i] in s
    ensures forall i :: 0 <= i < |s| ==> s[i] in SortBy(key, s)
  {
    var sorted := SortBy(key, s);
    SortPermutes(key, s);
    forall i | 0 <= i < |sorted|
      ensures sorted[i] in s
    {
      Rearranged(sorted, s, sorted[i]);
    }
    forall i | 0 <= i < |s|
      ensures s[i] in sorted
    {
      Rearranged(s, sorted, s[i]);
    }
  }

  lemma {:induction false} SortNoRepeats<T>(key: T -> int, s: seq<T>)
    requires NoRepeats(s)
    ensures NoRepeats(SortBy(key, s))
  {
    if s != [] {
      SortNoRepeats(key, s[1..]);
      SortMembers(key, s[1..]);
      InsertNoRepeats(key, s[0], SortBy(key, s[1..]));
    }
  }

  lemma {:induction false} InsertIncreasing<T>(key: T -> int, x: T, s: seq<T>)
    requires Increasing(key, s)
    requires forall y :: y in s ==> key(y) != key(x)
    ensures Increasing(key, Insert(key, x, s))
  {
    if s != [] && key(x) > key(s[0]) {
      InsertIncreasing(key, x, s[1..]);
      var r := Insert(key, x, s[1..]);
      forall j | 0 <= j < |r|
        ensures key(s[0]) < key(r[j])
      {
        InsertMember(key, x, s[1..], r[j]);
      }
    }
  }

  lemma InsertMember<T>(key: T -> int, x: T, s: seq<T>, y: T)
    requires y in Insert(key, x, s)
    ensures y == x || y in s
  {
    InsertPermutes(key, x, s);
    Rearranged(Insert(key, x, s), [x] + s, y);
  }

  lemma {:induction false} SortIncreasing<T>(key: T -> int, s: seq<T>)
    requires DistinctKeys(key, s)
    ensures Increasing(key, SortBy(key, s))
  {
    if s != [] {
      SortIncreasing(key, s[1..]);
      SortPermutes(key, s[1..]);
      var rest := SortBy(key, s[1..]);
      forall y | y in rest
        ensures key(y) != key(s[0])
      {
        Rearranged(rest, s[1..], y);
      }
      InsertIncreasing(key, s[0], SortBy(key, s[1..]));
    }
  }

  /** A set of rows has only one strictly increasing arrangement. */
  lemma {:induction false} IncreasingUnique<T>(key: T -> int, a: seq<T>, b: seq<T>)
    requires Increasing(key, a) && Increasing(key, b)
    requires multiset(a) == multiset(b)
    ensures a == b
  {
    SameLength(a, b);
    if a != [] {
      SameHead(key, a, b);
      TailRows(a);
      TailRows(b);
      IncreasingUnique(key, a[1..], b[1..]);
      SameHeadAndTail(a, b);
    }
  }

  lemma SameHeadAndTail<T>(a: seq<T>, b: seq<T>)
    requires a != [] && b != [] && a[0] == b[0] && a[1..] == b[1..]
    ensures a == b
  {
    assert a == [a[0]] + a[1..] && b == [b[0]] + b[1..];
  }

  lemma SplitLast<T>(a: seq<T>, b: seq<T>)
    requires b != []
    ensures b == b[..|b| - 1] + [b[|b| - 1]] && a + b == a + b[..|b| - 1] + [b[|b| - 1]]
  {
  }

  lemma SameLength<T>(a: seq<T>, b: seq<T>)
    requires multiset(a) == multiset(b)
    ensures |a| == |b|
  {
    assert |multiset(a)| == |a| && |multiset(b)| == |b|;
  }

  lemma SameHead<T>(key: T -> int, a: seq<T>, b: seq<T>)
    requires Increasing(key, a) && Increasing(key, b)
    requires multiset(a) == multiset(b) && a != [] && b != []
    ensures a[0] == b[0]
  {
    Rearranged(a, b, a[0]);
    Rearranged(b, a, b[0]);
  }

  lemma TailRows<T>(s: seq<T>)
    requires s != []
    ensures multiset(s[1..]) == multiset(s) - multiset{s[0]}
  {
    assert s == [s[0]] + s[1..];
  }

  lemma SortFixed<T>(key: T -> int, s: seq<T>)
    requires Increasing(key, s)
    ensures SortBy(key, s) == s
  {
    SortIncreasing(key, s);
    SortPermutes(key, s);
    IncreasingUnique(key, SortBy(key, s), s);
  }

  /** The result of ORDER BY on a unique key does not depend on the physical order of the rows. */
  lemma SortIgnoresOrder<T>(key: T -> int, a: seq<T>, b: seq<T>)
    requires DistinctKeys(key, a) && DistinctKeys(key, b)
    requires multiset(a) == multiset(b)
    ensures SortBy(key, a) == SortBy(key, b)
  {
    SortIncreasing(key, a);
    SortIncreasing(key, b);
    SortPermutes(key, a);
    SortPermutes(key, b);
    IncreasingUnique(key, SortBy(key, a), SortBy(key, b));
  }
}
