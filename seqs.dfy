/** Sequence vocabulary shared by the generator and the dashboard models:
    counting, duplicate removal in first-occurrence order, subsequences and
    a stable insertion sort by an integer rank. */
module Seqs {

  datatype Option<+T> = None | Some(value: T)

  /** Number of positions of `s` that hold `x`. */
  function Occurrences<T(==)>(s: seq<T>, x: T): (n: nat)
    ensures n <= |s|
    ensures n == 0 <==> x !in s
  {
    if s == [] then 0
    else
      assert s == s[..|s| - 1] + [s[|s| - 1]];
      Occurrences(s[..|s| - 1], x) + (if s[|s| - 1] == x then 1 else 0)
  }

  predicate Distinct<T(==)>(s: seq<T>)
  {
    forall i, j :: 0 <= i < j < |s| ==> s[i] != s[j]
  }

  /** The elements of `s` without repetitions, each kept at its first
      occurrence: what spreading a JavaScript `Set` built from `s` yields. */
  function Unique<T(==, !new)>(s: seq<T>): (r: seq<T>)
    ensures Distinct(r)
    ensures forall x :: x in r <==> x in s
  {
    if s == [] then []
    else
      var u := Unique(s[..|s| - 1]);
      assert s == s[..|s| - 1] + [s[|s| - 1]];
      if s[|s| - 1] in u then u else u + [s[|s| - 1]]
  }

  /** `s` is obtained from `t` by deleting elements, without reordering. */
  predicate IsSubsequence<T(==)>(s: seq<T>, t: seq<T>)
    decreases |t|
  {
    if s == [] then true
    else if t == [] then false
    else (s[|s| - 1] == t[|t| - 1] && IsSubsequence(s[..|s| - 1], t[..|t| - 1]))
         || IsSubsequence(s, t[..|t| - 1])
  }

  lemma {:induction false} SubsequenceReflexive<T>(s: seq<T>)
    ensures IsSubsequence(s, s)
  {
    if s != [] {
      SubsequenceReflexive(s[..|s| - 1]);
    }
  }

  /** Position of the first occurrence of `x` in `s`. */
  function IndexOf<T(==)>(s: seq<T>, x: T): (i: nat)
    requires x in s
    ensures i < |s| && s[i] == x
    ensures forall j :: 0 <= j < i ==> s[j] != x
  {
    if s[0] == x then 0
    else
      assert s == [s[0]] + s[1..];
      var k := IndexOf(s[1..], x);
      assert forall j :: 1 <= j <= k ==> s[j] == s[1..][j - 1];
      1 + k
  }

  /** Appending never moves the first occurrence of an element already present. */
  lemma IndexOfAppend<T>(s: seq<T>, t: seq<T>, x: T)
    requires x in s
    ensures IndexOf(s + t, x) == IndexOf(s, x)
  {
    assert (s + t)[IndexOf(s, x)] == x;
  }

  lemma {:induction false} UniqueIsSubsequence<T(!new)>(s: seq<T>)
    ensures IsSubsequence(Unique(s), s)
  {
    if s != [] {
      var init := s[..|s| - 1];
      UniqueIsSubsequence(init);
      var u := Unique(init);
      if s[|s| - 1] !in u {
        assert (u + [s[|s| - 1]])[..|u|] == u;
      }
    }
  }

  /** The elements of `u`, all present in `s`, appear in `u` in the order of
      their first occurrences in `s`. */
  predicate InFirstOccurrenceOrder<T(==)>(s: seq<T>, u: seq<T>)
    requires forall x :: x in u ==> x in s
  {
    forall i, j :: 0 <= i < j < |u| ==> IndexOf(s, u[i]) < IndexOf(s, u[j])
  }

  /** Appending to `s` keeps the order of elements already present. */
  lemma OrderAfterAppend<T>(init: seq<T>, last: T, u: seq<T>)
    requires forall x :: x in u ==> x in init
    requires InFirstOccurrenceOrder(init, u)
    ensures InFirstOccurrenceOrder(init + [last], u)
  {
    forall x | x in u
      ensures IndexOf(init + [last], x) == IndexOf(init, x)
    {
      IndexOfAppend(init, [last], x);
    }
  }

  /** A new element occurs first after all the old ones. */
  lemma OrderAfterNewElement<T>(init: seq<T>, last: T, u: seq<T>)
    requires forall x :: x in u ==> x in init
    requires last !in init
    requires InFirstOccurrenceOrder(init + [last], u)
    ensures InFirstOccurrenceOrder(init + [last], u + [last])
  {
    var s, r := init + [last], u + [last];
    assert IndexOf(s, last) == |init| by {
      assert forall j :: 0 <= j < |init| ==> s[j] == init[j] && s[j] != last;
    }
    forall x | x in u
      ensures IndexOf(s, x) < |init|
    {
      IndexOfAppend(init, [last], x);
    }
    forall i, j | 0 <= i < j < |r|
      ensures IndexOf(s, r[i]) < IndexOf(s, r[j])
    {
      assert r[i] == u[i];
      if j < |u| {
        assert r[j] == u[j];
      }
    }
  }

  /** `Unique` lists elements in the order of their first occurrences. */
  lemma {:induction false} UniqueInFirstOccurrenceOrder<T(!new)>(s: seq<T>)
    ensures forall i, j :: 0 <= i < j < |Unique(s)| ==>
              IndexOf(s, Unique(s)[i]) < IndexOf(s, Unique(s)[j])
  {
    if s != [] {
      var init, last := s[..|s| - 1], s[|s| - 1];
      assert s == init + [last];
      UniqueInFirstOccurrenceOrder(init);
      var u := Unique(init);
      assert InFirstOccurrenceOrder(init, u);
      OrderAfterAppend(init, last, u);
      if last !in u {
        OrderAfterNewElement(init, last, u);
        assert Unique(s) == u + [last];
      } else {
        assert Unique(s) == u;
      }
      assert InFirstOccurrenceOrder(s, Unique(s));
    }
  }

  /** A multiset of a duplicate-free sequence holds each element at most once. */
  lemma {:induction false} DistinctMultiplicity<T>(s: seq<T>, x: T)
    requires Distinct(s)
    ensures multiset(s)[x] <= 1
  {
    if s != [] {
      var init, last := s[..|s| - 1], s[|s| - 1];
      assert s == init + [last];
      DistinctMultiplicity(init, x);
      assert forall k :: 0 <= k < |init| ==> init[k] == s[k] != last;
    }
  }

  /** Reordering a duplicate-free sequence leaves it duplicate-free. */
  lemma PermutationKeepsDistinct<T>(a: seq<T>, b: seq<T>)
    requires multiset(a) == multiset(b) && Distinct(a)
    ensures Distinct(b)
  {
    forall i, j | 0 <= i < j < |b|
      ensures b[i] != b[j]
    {
      DistinctMultiplicity(a, b[i]);
      assert b == b[..j] + b[j..];
      assert b[i] in multiset(b[..j]);
      assert b[j] in multiset(b[j..]);
    }
  }

  /** `s` is ordered by non-decreasing `rank`. */
  predicate SortedBy<T>(s: seq<T>, rank: T -> int)
  {
    forall i, j :: 0 <= i < j < |s| ==> rank(s[i]) <= rank(s[j])
  }

  /** Inserts `x` after every leading element whose rank is at most its own. */
  function InsertBy<T>(x: T, s: seq<T>, rank: T -> int): (r: seq<T>)
    ensures multiset(r) == multiset(s) + multiset{x}
  {
    if s == [] then [x]
    else if rank(s[0]) <= rank(x) then
      assert s == [s[0]] + s[1..];
      [s[0]] + InsertBy(x, s[1..], rank)
    else
      [x] + s
  }

  /** Putting an element no larger than any element in front of a sorted
      sequence keeps it sorted. */
  lemma ConsSorted<T>(h: T, t: seq<T>, rank: T -> int)
    requires SortedBy(t, rank)
    requires forall y :: y in t ==> rank(h) <= rank(y)
    ensures SortedBy([h] + t, rank)
  {
    var r := [h] + t;
    forall i, j | 0 <= i < j < |r|
      ensures rank(r[i]) <= rank(r[j])
    {
      assert r[j] == t[j - 1];
      if i > 0 {
        assert r[i] == t[i - 1];
      }
    }
  }

  /** A lower bound on the ranks of `x` and of `t` bounds the ranks after inserting. */
  lemma InsertByBound<T>(x: T, t: seq<T>, rank: T -> int, b: int)
    requires b <= rank(x)
    requires forall y :: y in t ==> b <= rank(y)
    ensures forall y :: y in InsertBy(x, t, rank) ==> b <= rank(y)
  {
    var r := InsertBy(x, t, rank);
    forall y | y in r
      ensures b <= rank(y)
    {
      assert y in multiset(r);
      if y != x {
        assert y in multiset(t);
      }
    }
  }

  lemma {:induction false} InsertBySorted<T>(x: T, s: seq<T>, rank: T -> int)
    requires SortedBy(s, rank)
    ensures SortedBy(InsertBy(x, s, rank), rank)
  {
    if s != [] {
      if rank(s[0]) <= rank(x) {
        var tail := s[1..];
        InsertBySorted(x, tail, rank);
        assert forall y :: y in tail ==> rank(s[0]) <= rank(y) by {
          forall y | y in tail
            ensures rank(s[0]) <= rank(y)
          {
            var m :| 0 <= m < |tail| && tail[m] == y;
            assert tail[m] == s[m + 1];
          }
        }
        InsertByBound(x, tail, rank, rank(s[0]));
        ConsSorted(s[0], InsertBy(x, tail, rank), rank);
      } else {
        assert forall y :: y in s ==> rank(x) <= rank(y) by {
          forall y | y in s
            ensures rank(x) <= rank(y)
          {
            var m :| 0 <= m < |s| && s[m] == y;
            assert rank(s[0]) <= rank(s[m]);
          }
        }
        ConsSorted(x, s, rank);
      }
    }
  }

  /** Stable insertion sort by non-decreasing `rank`. */
  function SortBy<T>(s: seq<T>, rank: T -> int): (r: seq<T>)
    ensures multiset(r) == multiset(s)
    ensures SortedBy(r, rank)
  {
    if s == [] then []
    else
      assert s == s[..|s| - 1] + [s[|s| - 1]];
      var sorted := SortBy(s[..|s| - 1], rank);
      InsertBySorted(s[|s| - 1], sorted, rank);
      InsertBy(s[|s| - 1], sorted, rank)
  }

  /** `a` may come before `b` in an order by `rank` whose ties go by `tie`. */
  predicate LexBefore<T>(a: T, b: T, rank: T -> int, tie: T -> int)
  {
    rank(a) < rank(b) || (rank(a) == rank(b) && tie(a) <= tie(b))
  }

  /** `s` is ordered by `rank`, and elements of equal rank by `tie`. */
  predicate SortedByThen<T>(s: seq<T>, rank: T -> int, tie: T -> int)
  {
    forall i, j :: 0 <= i < j < |s| ==> LexBefore(s[i], s[j], rank, tie)
  }

  lemma InsertByMembers<T>(x: T, t: seq<T>, rank: T -> int)
    ensures forall y :: y in InsertBy(x, t, rank) ==> y == x || y in t
  {
    forall y | y in InsertBy(x, t, rank)
      ensures y == x || y in t
    {
      assert y in multiset(InsertBy(x, t, rank));
    }
  }

  lemma ConsSortedThen<T>(h: T, t: seq<T>, rank: T -> int, tie: T -> int)
    requires SortedByThen(t, rank, tie)
    requires forall y :: y in t ==> LexBefore(h, y, rank, tie)
    ensures SortedByThen([h] + t, rank, tie)
  {
    var r := [h] + t;
    forall i, j | 0 <= i < j < |r|
      ensures LexBefore(r[i], r[j], rank, tie)
    {
      assert r[j] == t[j - 1];
      if i > 0 {
        assert r[i] == t[i - 1];
      }
    }
  }

  /** Inserting an element whose `tie` is at least that of every element
      keeps the order by `rank` then `tie`: it goes after its equals. */
  lemma {:induction false} InsertByThen<T>(x: T, t: seq<T>, rank: T -> int, tie: T -> int)
    requires SortedByThen(t, rank, tie)
    requires forall y :: y in t ==> tie(y) <= tie(x)
    ensures SortedByThen(InsertBy(x, t, rank), rank, tie)
  {
    if t != [] {
      if rank(t[0]) <= rank(x) {
        var tail := t[1..];
        assert SortedByThen(tail, rank, tie) by {
          forall i, j | 0 <= i < j < |tail|
            ensures LexBefore(tail[i], tail[j], rank, tie)
          {
            assert tail[i] == t[i + 1] && tail[j] == t[j + 1];
          }
        }
        assert forall y :: y in tail ==> y in t;
        InsertByThen(x, tail, rank, tie);
        InsertByMembers(x, tail, rank);
        forall y | y in InsertBy(x, tail, rank)
          ensures LexBefore(t[0], y, rank, tie)
        {
          if y != x {
            var m :| 0 <= m < |tail| && tail[m] == y;
            assert tail[m] == t[m + 1];
          }
        }
        assert t == [t[0]] + tail;
        ConsSortedThen(t[0], InsertBy(x, tail, rank), rank, tie);
      } else {
        forall y | y in t
          ensures LexBefore(x, y, rank, tie)
        {
          var m :| 0 <= m < |t| && t[m] == y;
          if m > 0 {
            assert LexBefore(t[0], t[m], rank, tie);
          }
        }
        ConsSortedThen(x, t, rank, tie);
      }
    }
  }

  /** `SortBy` is stable: elements of equal rank keep their input order, so
      an input ordered by `tie` comes out ordered by `rank` then `tie`. */
  lemma {:induction false} SortByStable<T>(s: seq<T>, rank: T -> int, tie: T -> int)
    requires SortedBy(s, tie)
    ensures SortedByThen(SortBy(s, rank), rank, tie)
  {
    if s != [] {
      var init, last := s[..|s| - 1], s[|s| - 1];
      assert SortedBy(init, tie) by {
        forall i, j | 0 <= i < j < |init|
          ensures tie(init[i]) <= tie(init[j])
        {
          assert init[i] == s[i] && init[j] == s[j];
        }
      }
      SortByStable(init, rank, tie);
      var sorted := SortBy(init, rank);
      forall y | y in sorted
        ensures tie(y) <= tie(last)
      {
        assert y in multiset(sorted);
        var m :| 0 <= m < |init| && init[m] == y;
        assert init[m] == s[m];
      }
      InsertByThen(last, sorted, rank, tie);
      assert SortBy(s, rank) == InsertBy(last, sorted, rank);
    }
  }

  /** A duplicate-free sequence holds each of its elements exactly once. */
  lemma {:induction false} DistinctOccurrences<T>(s: seq<T>, x: T)
    requires Distinct(s) && x in s
    ensures Occurrences(s, x) == 1
  {
    var init, last := s[..|s| - 1], s[|s| - 1];
    assert s == init + [last];
    assert forall k :: 0 <= k < |init| ==> init[k] == s[k] != last;
    if x in init {
      DistinctOccurrences(init, x);
    }
  }

  /** The sum of `f` over the elements of `s`. */
  function Sum<T>(s: seq<T>, f: T -> int): int
  {
    if s == [] then 0 else Sum(s[..|s| - 1], f) + f(s[|s| - 1])
  }

  lemma {:induction false} SumConcat<T>(a: seq<T>, b: seq<T>, f: T -> int)
    ensures Sum(a + b, f) == Sum(a, f) + Sum(b, f)
  {
    if b == [] {
      assert a + b == a;
    } else {
      assert (a + b)[..|a + b| - 1] == a + b[..|b| - 1];
      assert (a + b)[|a + b| - 1] == b[|b| - 1];
      SumConcat(a, b[..|b| - 1], f);
    }
  }

  lemma SumSingleton<T>(x: T, f: T -> int)
    ensures Sum([x], f) == f(x)
  {
    assert [x][..0] == [];
  }

  /** Taking out the element at position `j` removes one copy of it. */
  lemma RemoveAtMultiset<T>(b: seq<T>, j: nat)
    requires j < |b|
    ensures multiset(b[..j] + b[j + 1..]) == multiset(b) - multiset{b[j]}
  {
    var front, x, back := b[..j], b[j], b[j + 1..];
    assert b == front + ([x] + back);
    assert multiset(b) == multiset(front) + multiset{x} + multiset(back);
  }

  /** Taking out the element at position `j` removes its term from the sum. */
  lemma RemoveAtSum<T>(b: seq<T>, j: nat, f: T -> int)
    requires j < |b|
    ensures Sum(b, f) == Sum(b[..j] + b[j + 1..], f) + f(b[j])
  {
    SplitAt(b, j);
    SumSplit(b[..j], b[j], b[j + 1..], f);
  }

  lemma SplitAt<T>(b: seq<T>, j: nat)
    requires j < |b|
    ensures b == b[..j] + ([b[j]] + b[j + 1..])
  {
    assert b[j..] == [b[j]] + b[j + 1..];
    assert b == b[..j] + b[j..];
  }

  lemma SumSplit<T>(front: seq<T>, x: T, back: seq<T>, f: T -> int)
    ensures Sum(front + ([x] + back), f) == Sum(front + back, f) + f(x)
  {
    SumConcat(front, [x] + back, f);
    SumConcat([x], back, f);
    SumConcat(front, back, f);
    SumSingleton(x, f);
  }

  /** A sum does not depend on the order of its terms. */
  lemma {:induction false} SumPermutation<T>(a: seq<T>, b: seq<T>, f: T -> int)
    requires multiset(a) == multiset(b)
    ensures Sum(a, f) == Sum(b, f)
  {
    if a == [] {
      assert |b| == |multiset(b)| == 0;
    } else {
      var init, x := a[..|a| - 1], a[|a| - 1];
      assert a == init + [x];
      assert multiset(init) == multiset(a) - multiset{x};
      assert x in multiset(b);
      var j := IndexOf(b, x);
      RemoveAtMultiset(b, j);
      RemoveAtSum(b, j, f);
      SumPermutation(init, b[..j] + b[j + 1..], f);
    }
  }

  lemma OccurrencesAppend<T>(s: seq<T>, x: T, y: T)
    ensures Occurrences(s + [x], y) == Occurrences(s, y) + (if x == y then 1 else 0)
  {
    assert (s + [x])[..|s|] == s;
  }

  lemma UniqueAppend<T(!new)>(s: seq<T>, x: T)
    ensures Unique(s + [x]) == if x in Unique(s) then Unique(s) else Unique(s) + [x]
  {
    assert (s + [x])[..|s|] == s;
  }

  lemma SortByKeepsMembers<T>(s: seq<T>, rank: T -> int)
    ensures forall x :: x in SortBy(s, rank) <==> x in s
  {
    var r := SortBy(s, rank);
    forall x
      ensures x in r <==> x in s
    {
      assert x in r <==> x in multiset(r);
      assert x in s <==> x in multiset(s);
    }
  }
}
