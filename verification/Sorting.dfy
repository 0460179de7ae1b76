/**
  Stable sorting, as the standard library's `sort_by_key` performs it: the result is sorted,
  is a permutation, and keeps elements with equal keys in their original order.
 */
module Sorting {

  ghost predicate TotalPreorder<T(!new)>(le: (T, T) -> bool) {
    && (forall x, y :: le(x, y) || le(y, x))
    && (forall x, y, z :: le(x, y) && le(y, z) ==> le(x, z))
  }

  predicate SortedBy<T>(s: seq<T>, le: (T, T) -> bool) {
    forall i, j :: 0 <= i < j < |s| ==> le(s[i], s[j])
  }

  /** Insert in front of the first element that is not smaller. */
  function Insert<T>(x: T, s: seq<T>, le: (T, T) -> bool): seq<T> {
    if s == [] then [x]
    else if le(x, s[0]) then [x] + s
    else [s[0]] + Insert(x, s[1..], le)
  }

  function StableSort<T>(s: seq<T>, le: (T, T) -> bool): seq<T> {
    if s == [] then [] else Insert(s[0], StableSort(s[1..], le), le)
  }

  function Filter<T>(s: seq<T>, p: T -> bool): seq<T> {
    if s == [] then []
    else if p(s[0]) then [s[0]] + Filter(s[1..], p)
    else Filter(s[1..], p)
  }

  lemma {:induction false} InsertElements<T>(x: T, s: seq<T>, le: (T, T) -> bool)
    ensures multiset(Insert(x, s, le)) == multiset{x} + multiset(s)
    ensures |Insert(x, s, le)| == |s| + 1
  {
    if s != [] {
      assert s == [s[0]] + s[1..];
      if !le(x, s[0]) {
        InsertElements(x, s[1..], le);
      }
    }
  }

  lemma {:induction false} SortElements<T>(s: seq<T>, le: (T, T) -> bool)
    ensures multiset(StableSort(s, le)) == multiset(s)
    ensures |StableSort(s, le)| == |s|
  {
    if s != [] {
      assert s == [s[0]] + s[1..];
      SortElements(s[1..], le);
      InsertElements(s[0], StableSort(s[1..], le), le);
    }
  }

  lemma {:induction false} InsertSorted<T(!new)>(x: T, s: seq<T>, le: (T, T) -> bool)
    requires TotalPreorder(le) && SortedBy(s, le)
    ensures SortedBy(Insert(x, s, le), le)
  {
    if s != [] {
      if le(x, s[0]) {
        forall j | 0 <= j < |s| ensures le(x, s[j]) {
          assert j == 0 || le(s[0], s[j]);
        }
      } else {
        InsertSorted(x, s[1..], le);
        InsertElements(x, s[1..], le);
        var tail := Insert(x, s[1..], le);
        forall j | 0 <= j < |tail| ensures le(s[0], tail[j]) {
          assert tail[j] in multiset(tail);
          assert tail[j] == x || tail[j] in s[1..];
        }
      }
    }
  }

  lemma {:induction false} SortSorted<T(!new)>(s: seq<T>, le: (T, T) -> bool)
    requires TotalPreorder(le)
    ensures SortedBy(StableSort(s, le), le)
  {
    if s != [] {
      SortSorted(s[1..], le);
      InsertSorted(s[0], StableSort(s[1..], le), le);
    }
  }

  lemma FilterCons<T>(x: T, s: seq<T>, p: T -> bool)
    ensures Filter([x] + s, p) == (if p(x) then [x] else []) + Filter(s, p)
  {
    assert ([x] + s)[1..] == s;
  }

  lemma InsertHere<T>(x: T, s: seq<T>, le: (T, T) -> bool)
    ensures Insert(x, s, le) == if s == [] || le(x, s[0]) then [x] + s else [s[0]] + Insert(x, s[1..], le)
  {
    if s == [] {
      assert [x] + s == [x];
    }
  }

  lemma {:induction false} InsertKeepsOrder<T(!new)>(x: T, s: seq<T>, le: (T, T) -> bool, p: T -> bool)
    requires forall y, z :: p(y) && p(z) ==> le(y, z)
    ensures Filter(Insert(x, s, le), p) == (if p(x) then [x] else []) + Filter(s, p)
  {
    hide Filter, Insert;
    var none: seq<T> := [];
    FilterCons(x, s, p);
    InsertHere(x, s, le);
    if s != [] && !le(x, s[0]) {
      var rest := Insert(x, s[1..], le);
      InsertKeepsOrder(x, s[1..], le, p);
      FilterCons(s[0], s[1..], p);
      FilterCons(s[0], rest, p);
      assert s == [s[0]] + s[1..];
      assert !(p(x) && p(s[0]));
      assert none + Filter(s, p) == Filter(s, p);
      assert none + Filter(s[1..], p) == Filter(s[1..], p);
      assert none + Filter(rest, p) == Filter(rest, p);
    }
  }

  /** Stability: the elements of any class of equal keys keep their original order. */
  lemma {:induction false} SortStable<T(!new)>(s: seq<T>, le: (T, T) -> bool, p: T -> bool)
    requires forall y, z :: p(y) && p(z) ==> le(y, z)
    ensures Filter(StableSort(s, le), p) == Filter(s, p)
  {
    if s != [] {
      SortStable(s[1..], le, p);
      InsertKeepsOrder(s[0], StableSort(s[1..], le), le, p);
    }
  }

  lemma {:induction false} FilterAll<T>(s: seq<T>, p: T -> bool)
    ensures forall x <- Filter(s, p) :: p(x) && x in s
    ensures forall x <- s :: p(x) ==> x in Filter(s, p)
  {
    if s != [] {
      FilterAll(s[1..], p);
      assert s == [s[0]] + s[1..];
    }
  }

  lemma {:induction false} FilterAppend<T>(s: seq<T>, t: seq<T>, p: T -> bool)
    ensures Filter(s + t, p) == Filter(s, p) + Filter(t, p)
  {
    if s == [] {
      assert s + t == t;
    } else {
      assert (s + t)[1..] == s[1..] + t;
      FilterAppend(s[1..], t, p);
    }
  }

  /** Two selected elements appear in the filtered sequence in the same order. */
  lemma FilterPositions<T>(s: seq<T>, p: T -> bool, i: nat, j: nat) returns (fi: nat, fj: nat)
    requires i < j < |s| && p(s[i]) && p(s[j])
    ensures fi < fj < |Filter(s, p)| && Filter(s, p)[fi] == s[i] && Filter(s, p)[fj] == s[j]
  {
    fi := |Filter(s[..i], p)|;
    fj := |Filter(s[..j], p)|;
    assert s == s[..i] + s[i..] && s == s[..j] + s[j..];
    FilterAppend(s[..i], s[i..], p);
    FilterAppend(s[..j], s[j..], p);
    assert s[..j] == s[..i] + s[i..j];
    FilterAppend(s[..i], s[i..j], p);
    assert s[i..][0] == s[i] && s[j..][0] == s[j] && s[i..j][0] == s[i];
  }

  ghost predicate Pairwise<T>(s: seq<T>, r: (T, T) -> bool) {
    forall i, j :: 0 <= i < j < |s| ==> r(s[i], s[j])
  }

  /** A relation between earlier and later elements survives filtering. */
  lemma {:induction false} FilteredPairs<T>(s: seq<T>, p: T -> bool, r: (T, T) -> bool)
    requires Pairwise(s, r)
    ensures Pairwise(Filter(s, p), r)
  {
    if s != [] {
      assert Pairwise(s[1..], r);
      FilteredPairs(s[1..], p, r);
      FilterAll(s[1..], p);
      var f := Filter(s[1..], p);
      forall j | 0 <= j < |f| ensures r(s[0], f[j]) {
        assert f[j] in s[1..];
        var k :| 0 <= k < |s[1..]| && s[1..][k] == f[j];
        assert r(s[0], s[k + 1]);
      }
      assert Pairwise([s[0]] + f, r);
    }
  }

  // ---- sorting the indices of a collection ---------------------------------------

  function Indices(n: nat): (s: seq<nat>)
    ensures |s| == n && forall i :: 0 <= i < n ==> s[i] == i
  {
    seq(n, i => i)
  }

  /** Every index below n occurs exactly once. */
  ghost predicate IsPermutation(order: seq<nat>, n: nat) {
    && |order| == n
    && (forall t :: 0 <= t < n ==> order[t] < n)
    && (forall t, u :: 0 <= t < u < n ==> order[t] != order[u])
    && (forall k :: 0 <= k < n ==> k in order)
  }

  lemma CountTwice<T>(s: seq<T>, i: nat, j: nat)
    requires i < j < |s| && s[i] == s[j]
    ensures multiset(s)[s[i]] >= 2
  {
    assert s == s[..j] + [s[j]] + s[j + 1..];
    assert s[i] in s[..j];
  }

  lemma {:induction false} CountOnce(n: nat, k: nat)
    requires k < n
    ensures multiset(Indices(n))[k] == 1
  {
    assert Indices(n) == Indices(n - 1) + [n - 1];
    if k < n - 1 {
      CountOnce(n - 1, k);
    } else {
      assert k !in Indices(n - 1);
    }
  }

  lemma SortPermutes(n: nat, le: (nat, nat) -> bool)
    ensures IsPermutation(StableSort(Indices(n), le), n)
  {
    var order := StableSort(Indices(n), le);
    SortElements(Indices(n), le);
    assert multiset(order) == multiset(Indices(n));
    forall t | 0 <= t < n ensures order[t] < n {
      assert order[t] in multiset(order);
      assert order[t] in Indices(n);
    }
    forall t, u | 0 <= t < u < n ensures order[t] != order[u] {
      if order[t] == order[u] {
        CountTwice(order, t, u);
        CountOnce(n, order[t]);
        assert false;
      }
    }
    forall k: nat | k < n ensures k in order {
      assert Indices(n)[k] in multiset(Indices(n));
    }
  }

  lemma SortTies(n: nat, le: (nat, nat) -> bool, t: nat, u: nat)
    requires TotalPreorder(le)
    requires |StableSort(Indices(n), le)| == n && t < u < n
    requires le(StableSort(Indices(n), le)[u], StableSort(Indices(n), le)[t])
    ensures StableSort(Indices(n), le)[t] < StableSort(Indices(n), le)[u]
  {
    var order := StableSort(Indices(n), le);
    SortSorted(Indices(n), le);
    var c := order[t];
    var p := (y: nat) => le(y, c) && le(c, y);
    assert p(order[t]) && p(order[u]);
    SortStable(Indices(n), le, p);
    var ft, fu := FilterPositions(order, p, t, u);
    FilteredIndicesIncrease(n, p, ft, fu);
  }

  /** Sorting indices stably: a sorted permutation in which ties stay in increasing order. */
  lemma SortIndices(n: nat, le: (nat, nat) -> bool)
    requires TotalPreorder(le)
    ensures IsPermutation(StableSort(Indices(n), le), n)
    ensures SortedBy(StableSort(Indices(n), le), le)
    ensures var order := StableSort(Indices(n), le);
            forall t, u :: 0 <= t < u < n && le(order[u], order[t]) ==> order[t] < order[u]
  {
    SortPermutes(n, le);
    SortSorted(Indices(n), le);
    forall t, u | 0 <= t < u < n && le(StableSort(Indices(n), le)[u], StableSort(Indices(n), le)[t])
      ensures StableSort(Indices(n), le)[t] < StableSort(Indices(n), le)[u]
    {
      SortTies(n, le, t, u);
    }
  }

  lemma {:induction false} FilteredIndicesIncrease(n: nat, p: nat -> bool, i: nat, j: nat)
    requires i < j < |Filter(Indices(n), p)|
    ensures Filter(Indices(n), p)[i] < Filter(Indices(n), p)[j]
  {
    if n > 0 {
      var last: nat := n - 1;
      var tail: seq<nat> := [last];
      assert Indices(n) == Indices(last) + tail;
      FilterAppend(Indices(last), tail, p);
      var f := Filter(Indices(last), p);
      assert Filter(tail, p) == if p(last) then tail else [] by { assert tail[1..] == []; }
      FilterAll(Indices(n - 1), p);
      if j < |f| {
        FilteredIndicesIncrease(n - 1, p, i, j);
      } else {
        assert f[i] in f;
        assert f[i] in Indices(n - 1);
      }
    }
  }
}
