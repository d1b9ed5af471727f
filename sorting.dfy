/**
  Filtering and ordering of query results.

  The store answers `where` clauses with a filter and `orderBy` clauses with a
  sort. The sort here is a stable insertion sort over a total preorder `le`:
  `le(a, b)` means that `a` may come before `b`.
 */
module Sorting {

  /** The elements of `s` that satisfy `keep`, in their original order. */
  function Filter<T(!new)>(s: seq<T>, keep: T -> bool): (r: seq<T>)
    ensures |r| <= |s|
    ensures forall y :: y in r <==> y in s && keep(y)
    ensures (forall y :: y in s ==> !keep(y)) ==> r == []
  {
    if s == [] then []
    else if keep(s[0]) then [s[0]] + Filter(s[1..], keep)
    else Filter(s[1..], keep)
  }

  /** Filtering distributes over concatenation. */
  lemma {:induction false} FilterAppend<T(!new)>(a: seq<T>, b: seq<T>, keep: T -> bool)
    ensures Filter(a + b, keep) == Filter(a, keep) + Filter(b, keep)
  {
    if a == [] {
      assert a + b == b;
    } else {
      assert (a + b)[1..] == a[1..] + b;
      FilterAppend(a[1..], b, keep);
    }
  }

  /** A filter that keeps every element changes nothing. */
  lemma {:induction false} FilterAll<T(!new)>(s: seq<T>, keep: T -> bool)
    requires forall y :: y in s ==> keep(y)
    ensures Filter(s, keep) == s
  {
    if s != [] {
      FilterAll(s[1..], keep);
    }
  }

  /** Filtering keeps every copy of a kept element and no copy of another. */
  lemma {:induction false} FilterMultiset<T(!new)>(s: seq<T>, keep: T -> bool, x: T)
    ensures multiset(Filter(s, keep))[x] == if keep(x) then multiset(s)[x] else 0
  {
    if s != [] {
      FilterMultiset(s[1..], keep, x);
      assert s == [s[0]] + s[1..];
    }
  }

  /** `s` is ordered by `le`: every element may come before every later one. */
  ghost predicate Sorted<T(!new)>(s: seq<T>, le: (T, T) -> bool)
  {
    forall i, j :: 0 <= i < j < |s| ==> le(s[i], s[j])
  }

  /** `le` is total and transitive, so that sorting by it is meaningful. */
  ghost predicate TotalPreorder<T(!new)>(le: (T, T) -> bool)
  {
    && (forall a, b :: le(a, b) || le(b, a))
    && (forall a, b, c :: le(a, b) && le(b, c) ==> le(a, c))
  }

  /** Inserts `x` before the first element it may precede. */
  function Insert<T(!new)>(x: T, s: seq<T>, le: (T, T) -> bool): seq<T>
  {
    if s == [] then [x]
    else if le(x, s[0]) then [x] + s
    else [s[0]] + Insert(x, s[1..], le)
  }

  /** Insertion adds exactly `x` to the elements. */
  lemma {:induction false} InsertPermutes<T(!new)>(x: T, s: seq<T>, le: (T, T) -> bool)
    ensures multiset(Insert(x, s, le)) == multiset(s) + multiset{x}
    ensures |Insert(x, s, le)| == |s| + 1
  {
    if s != [] && !le(x, s[0]) {
      assert s == [s[0]] + s[1..];
      InsertPermutes(x, s[1..], le);
    }
  }

  /** The elements of `s` ordered by `le`; equal elements keep their order. */
  function SortBy<T(!new)>(s: seq<T>, le: (T, T) -> bool): (r: seq<T>)
    ensures multiset(r) == multiset(s)
    ensures |r| == |s|
  {
    if s == [] then []
    else
      assert s == [s[0]] + s[1..];
      InsertPermutes(s[0], SortBy(s[1..], le), le);
      Insert(s[0], SortBy(s[1..], le), le)
  }

  lemma MultisetMember<T(!new)>(x: T, s: seq<T>, t: seq<T>)
    requires multiset(s) == multiset(t)
    ensures x in s <==> x in t
  {
    assert x in s <==> x in multiset(s);
    assert x in t <==> x in multiset(t);
  }

  lemma {:induction false} InsertSorted<T(!new)>(x: T, s: seq<T>, le: (T, T) -> bool)
    requires TotalPreorder(le)
    requires Sorted(s, le)
    ensures Sorted(Insert(x, s, le), le)
  {
    if s == [] {
    } else if le(x, s[0]) {
      var r := [x] + s;
      forall i, j | 0 <= i < j < |r| ensures le(r[i], r[j]) {
        if i == 0 && j > 1 {
          assert le(s[0], s[j - 1]);
        }
      }
    } else {
      var rest := Insert(x, s[1..], le);
      InsertSorted(x, s[1..], le);
      InsertPermutes(x, s[1..], le);
      var r := [s[0]] + rest;
      forall i, j | 0 <= i < j < |r| ensures le(r[i], r[j]) {
        if i == 0 {
          var y := rest[j - 1];
          assert y in multiset(rest);
          if y != x {
            assert y in multiset(s[1..]);
            var k :| 0 <= k < |s[1..]| && s[1..][k] == y;
            assert s[k + 1] == y;
          }
        }
      }
    }
  }

  /** Sorting by a total preorder yields an ordered permutation. */
  lemma {:induction false} SortBySorted<T(!new)>(s: seq<T>, le: (T, T) -> bool)
    requires TotalPreorder(le)
    ensures Sorted(SortBy(s, le), le)
  {
    if s != [] {
      SortBySorted(s[1..], le);
      InsertSorted(s[0], SortBy(s[1..], le), le);
    }
  }

  /** Filtering a sequence with a known first element. */
  lemma FilterCons<T(!new)>(a: T, b: seq<T>, keep: T -> bool)
    ensures keep(a) ==> Filter([a] + b, keep) == [a] + Filter(b, keep)
    ensures !keep(a) ==> Filter([a] + b, keep) == Filter(b, keep)
  {
    assert ([a] + b)[0] == a;
    assert ([a] + b)[1..] == b;
  }

  /** Inserting in front of an ordered sequence whose head may follow `x`. */
  lemma InsertFront<T(!new)>(x: T, s: seq<T>, le: (T, T) -> bool)
    requires s == [] || le(x, s[0])
    ensures Insert(x, s, le) == [x] + s
  {
  }

  /** Every element of an ordered sequence may follow anything that may precede its head. */
  lemma HeadBound<T(!new)>(x: T, s: seq<T>, le: (T, T) -> bool)
    requires TotalPreorder(le)
    requires Sorted(s, le)
    requires s != [] && le(x, s[0])
    ensures forall y :: y in s ==> le(x, y)
  {
    forall y | y in s ensures le(x, y) {
      var k :| 0 <= k < |s| && s[k] == y;
      assert k == 0 || le(s[0], s[k]);
    }
  }

  lemma FilterInsertFront<T(!new)>(x: T, s: seq<T>, le: (T, T) -> bool, keep: T -> bool)
    requires s != [] && le(x, s[0])
    requires forall y :: y in s ==> le(x, y)
    ensures Filter(Insert(x, s, le), keep)
         == if keep(x) then Insert(x, Filter(s, keep), le) else Filter(s, keep)
  {
    InsertFront(x, s, le);
    FilterCons(x, s, keep);
    var f := Filter(s, keep);
    if keep(x) && f != [] {
      assert f[0] in s;
      InsertFront(x, f, le);
    }
  }

  lemma FilterInsertBehind<T(!new)>(x: T, s: seq<T>, le: (T, T) -> bool, keep: T -> bool)
    requires s != [] && !le(x, s[0])
    requires Filter(Insert(x, s[1..], le), keep)
          == if keep(x) then Insert(x, Filter(s[1..], keep), le) else Filter(s[1..], keep)
    ensures Filter(Insert(x, s, le), keep)
         == if keep(x) then Insert(x, Filter(s, keep), le) else Filter(s, keep)
  {
    var rest := s[1..];
    assert s == [s[0]] + rest;
    var ins := Insert(x, rest, le);
    assert Insert(x, s, le) == [s[0]] + ins;
    FilterCons(s[0], ins, keep);
    FilterCons(s[0], rest, keep);
    var fr := Filter(rest, keep);
    if keep(x) {
      assert Filter(ins, keep) == Insert(x, fr, le);
      if keep(s[0]) {
        assert ([s[0]] + fr)[0] == s[0];
        assert ([s[0]] + fr)[1..] == fr;
        assert Insert(x, [s[0]] + fr, le) == [s[0]] + Insert(x, fr, le);
      }
    } else {
      assert Filter(ins, keep) == fr;
    }
  }

  /** Filtering an ordered sequence before or after an insertion gives the same result. */
  lemma {:induction false} FilterInsert<T(!new)>(x: T, s: seq<T>, le: (T, T) -> bool, keep: T -> bool)
    requires TotalPreorder(le)
    requires Sorted(s, le)
    ensures Filter(Insert(x, s, le), keep)
         == if keep(x) then Insert(x, Filter(s, keep), le) else Filter(s, keep)
  {
    if s == [] {
    } else if le(x, s[0]) {
      HeadBound(x, s, le);
      FilterInsertFront(x, s, le, keep);
    } else {
      assert Sorted(s[1..], le);
      FilterInsert(x, s[1..], le, keep);
      FilterInsertBehind(x, s, le, keep);
    }
  }

  /**
    Sorting and filtering commute: the ordered result of a filtered query is
    the filtered subsequence of the ordered unfiltered query.
   */
  lemma {:induction false} FilterSortBy<T(!new)>(s: seq<T>, le: (T, T) -> bool, keep: T -> bool)
    requires TotalPreorder(le)
    ensures Filter(SortBy(s, le), keep) == SortBy(Filter(s, keep), le)
  {
    if s != [] {
      var rest := s[1..];
      assert s == [s[0]] + rest;
      FilterSortBy(rest, le, keep);
      SortBySorted(rest, le);
      FilterInsert(s[0], SortBy(rest, le), le, keep);
      FilterCons(s[0], rest, keep);
      var fr := Filter(rest, keep);
      if keep(s[0]) {
        assert ([s[0]] + fr)[0] == s[0];
        assert ([s[0]] + fr)[1..] == fr;
        assert SortBy([s[0]] + fr, le) == Insert(s[0], SortBy(fr, le), le);
      }
    }
  }

  /**
    Taking the first `n` elements of an ordered sequence omits no element that
    comes strictly before a kept one.
   */
  lemma TakeOmitsNothingEarlier<T(!new)>(s: seq<T>, le: (T, T) -> bool, n: nat)
    requires Sorted(s, le)
    requires n <= |s|
    ensures forall x, m :: x in s[..n] && m in s && !le(x, m) ==> m in s[..n]
  {
    forall x, m | x in s[..n] && m in s && !le(x, m) ensures m in s[..n] {
      var i :| 0 <= i < n && s[..n][i] == x;
      var k :| 0 <= k < |s| && s[k] == m;
      if k >= n {
        assert false;
      }
      assert s[..n][k] == m;
    }
  }

  /** The tail of an ordered sequence is ordered. */
  lemma SortedTail<T(!new)>(s: seq<T>, le: (T, T) -> bool)
    requires Sorted(s, le) && s != []
    ensures Sorted(s[1..], le)
  {
    forall i, j | 0 <= i < j < |s| - 1 ensures le(s[1..][i], s[1..][j]) {
      assert le(s[i + 1], s[j + 1]);
    }
  }

  /** Removing the equal heads of two permutations leaves permutations. */
  lemma TailsPermute<T(!new)>(a: seq<T>, b: seq<T>)
    requires multiset(a) == multiset(b)
    requires a != [] && b != [] && a[0] == b[0]
    ensures multiset(a[1..]) == multiset(b[1..])
  {
    assert a == [a[0]] + a[1..] && b == [b[0]] + b[1..];
    assert multiset(a) == multiset{a[0]} + multiset(a[1..]);
    assert multiset(b) == multiset{a[0]} + multiset(b[1..]);
    assert multiset(a[1..]) == multiset(a) - multiset{a[0]};
  }

  /**
    Two orderings of the same elements that are both sorted are the same
    sequence, as long as no two different elements are ranked equal: the
    order of ties is the only freedom a sort has.
   */
  lemma {:induction false} SortedUnique<T(!new)>(a: seq<T>, b: seq<T>, le: (T, T) -> bool)
    requires Sorted(a, le) && Sorted(b, le)
    requires multiset(a) == multiset(b)
    requires forall x, y :: x in a && y in a && le(x, y) && le(y, x) ==> x == y
    ensures a == b
    decreases |a|
  {
    assert |a| == |multiset(a)| == |multiset(b)| == |b|;
    if a != [] {
      MultisetMember(b[0], a, b);
      MultisetMember(a[0], a, b);
      var k :| 0 <= k < |a| && a[k] == b[0];
      var m :| 0 <= m < |b| && b[m] == a[0];
      if k != 0 && m != 0 {
        assert le(a[0], a[k]) && le(b[0], b[m]);
      }
      assert a[0] == b[0];
      TailsPermute(a, b);
      SortedTail(a, le);
      SortedTail(b, le);
      assert forall x :: x in a[1..] ==> x in a;
      SortedUnique(a[1..], b[1..], le);
      assert a == [a[0]] + a[1..] && b == [b[0]] + b[1..];
    }
  }
}
