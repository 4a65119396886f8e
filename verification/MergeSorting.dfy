/** Bottom-up merge sort on sequences: the result of repeatedly merging neighbouring runs. */
module MergeSorting {

  /** Items are compared by the data they carry. */
  datatype Order<!T, !V> = Order(data: T -> V, cmp: (V, V) -> int) {
    /** `a` may come before `b`. */
    predicate Le(a: T, b: T) {
      cmp(data(a), data(b)) <= 0
    }

    predicate IsLike(a: T, x: V) {
      cmp(data(a), x) <= 0 && cmp(x, data(a)) <= 0
    }
  }

  ghost predicate TotalPreorder<T, V(!new)>(o: Order<T, V>) {
    && (forall a, b :: o.cmp(a, b) <= 0 || o.cmp(b, a) <= 0)
    && (forall a, b, c :: o.cmp(a, b) <= 0 && o.cmp(b, c) <= 0 ==> o.cmp(a, c) <= 0)
  }

  ghost predicate Sorted<T, V>(o: Order<T, V>, s: seq<T>) {
    forall i, j :: 0 <= i < j < |s| ==> o.Le(s[i], s[j])
  }

  /** The items of `s` that are as good as `x`, in their order. */
  function Like<T, V>(o: Order<T, V>, s: seq<T>, x: V): seq<T> {
    if s == [] then []
    else (if o.IsLike(s[0], x) then [s[0]] else []) + Like(o, s[1..], x)
  }

  function Take<T>(s: seq<T>, n: nat): seq<T> {
    if n < |s| then s[..n] else s
  }

  function Drop<T>(s: seq<T>, n: nat): (r: seq<T>) {
    if n < |s| then s[n..] else []
  }

  /** Items of `a` win ties. */
  function Merge<T, V>(o: Order<T, V>, a: seq<T>, b: seq<T>): (r: seq<T>)
    ensures |r| == |a| + |b|
  {
    if a == [] then b
    else if b == [] then a
    else if o.Le(a[0], b[0]) then [a[0]] + Merge(o, a[1..], b)
    else [b[0]] + Merge(o, a, b[1..])
  }

  /** Merge the runs of length `size` in pairs. */
  function Pass<T, V>(o: Order<T, V>, s: seq<T>, size: nat): (r: seq<T>)
    requires size > 0
    ensures |r| == |s|
    decreases |s|
  {
    if s == [] then []
    else
      Merge(o, Take(s, size), Take(Drop(s, size), size)) + Pass(o, Drop(Drop(s, size), size), size)
  }

  /** Passes over runs of doubling length, until one pass merges at most one pair. */
  function BottomUp<T, V>(o: Order<T, V>, s: seq<T>, size: nat): (r: seq<T>)
    requires size > 0
    ensures |r| == |s|
    decreases if |s| > size then |s| - size else 0
  {
    var m := Pass(o, s, size);
    if |s| <= 2 * size then m else BottomUp(o, m, 2 * size)
  }

  ghost predicate RunsSorted<T, V>(o: Order<T, V>, s: seq<T>, size: nat)
    requires size > 0
    decreases |s|
  {
    s == [] || (Sorted(o, Take(s, size)) && RunsSorted(o, Drop(s, size), size))
  }

  // ----- merging -----

  lemma {:induction false} MergeItems<T, V>(o: Order<T, V>, a: seq<T>, b: seq<T>)
    ensures multiset(Merge(o, a, b)) == multiset(a) + multiset(b)
  {
    if a != [] && b != [] {
      assert a == [a[0]] + a[1..] && b == [b[0]] + b[1..];
      if o.Le(a[0], b[0]) { MergeItems(o, a[1..], b); } else { MergeItems(o, a, b[1..]); }
    }
  }

  lemma SortedCons<T, V>(o: Order<T, V>, x: T, s: seq<T>)
    requires Sorted(o, s) && forall y :: y in multiset(s) ==> o.Le(x, y)
    ensures Sorted(o, [x] + s)
  {
    forall i, j | 0 <= i < j < |s| + 1 ensures o.Le(([x] + s)[i], ([x] + s)[j]) {
      assert s[j - 1] in multiset(s);
    }
  }

  lemma FirstIsLeast<T, V(!new)>(o: Order<T, V>, s: seq<T>)
    requires TotalPreorder(o) && Sorted(o, s) && s != []
    ensures forall y :: y in multiset(s) ==> o.Le(s[0], y)
    ensures Sorted(o, s[1..])
  {
    forall y | y in multiset(s) ensures o.Le(s[0], y) {
      assert y in s;
      var i :| 0 <= i < |s| && s[i] == y;
      assert o.Le(s[0], s[0]);
    }
  }

  /** `x` before a sorted mix of items that come after it and items that come after a later `y`. */
  lemma SortedBefore<T, V(!new)>(o: Order<T, V>, x: T, y: T, s: seq<T>, a: multiset<T>, b: multiset<T>)
    requires TotalPreorder(o) && Sorted(o, s) && multiset(s) <= a + b && o.Le(x, y)
    requires (forall z :: z in a ==> o.Le(x, z)) && (forall z :: z in b ==> o.Le(y, z))
    ensures Sorted(o, [x] + s)
  {
    hide Sorted;
    forall z | z in multiset(s) ensures o.Le(x, z) {
      assert z in a || z in b;
    }
    SortedCons(o, x, s);
  }

  lemma {:induction false} MergeSorted<T, V(!new)>(o: Order<T, V>, a: seq<T>, b: seq<T>)
    requires TotalPreorder(o) && Sorted(o, a) && Sorted(o, b)
    ensures Sorted(o, Merge(o, a, b))
  {
    if a != [] && b != [] {
      FirstIsLeast(o, a);
      FirstIsLeast(o, b);
      assert a == [a[0]] + a[1..] && b == [b[0]] + b[1..];
      assert o.Le(a[0], b[0]) || o.Le(b[0], a[0]);
      hide Sorted, TotalPreorder, Order.Le;
      if o.Le(a[0], b[0]) {
        MergeSorted(o, a[1..], b);
        MergeItems(o, a[1..], b);
        SortedBefore(o, a[0], b[0], Merge(o, a[1..], b), multiset(a), multiset(b));
      } else {
        MergeSorted(o, a, b[1..]);
        MergeItems(o, a, b[1..]);
        SortedBefore(o, b[0], a[0], Merge(o, a, b[1..]), multiset(b), multiset(a));
      }
    }
  }

  lemma {:induction false} LikeAppend<T, V>(o: Order<T, V>, a: seq<T>, b: seq<T>, x: V)
    ensures Like(o, a + b, x) == Like(o, a, x) + Like(o, b, x)
  {
    if a == [] {
      assert a + b == b;
    } else {
      assert (a + b)[1..] == a[1..] + b;
      LikeAppend(o, a[1..], b, x);
    }
  }

  lemma {:induction false} LikeNone<T, V>(o: Order<T, V>, s: seq<T>, x: V)
    requires forall i :: 0 <= i < |s| ==> o.cmp(o.data(s[i]), x) > 0
    ensures Like(o, s, x) == []
  {
    if s != [] { LikeNone(o, s[1..], x); }
  }

  lemma BothLater<T, V(!new)>(o: Order<T, V>, first: T, later: T, b: T, x: V)
    requires TotalPreorder(o) && o.Le(first, later) && !o.Le(first, b) && o.IsLike(b, x)
    ensures o.cmp(o.data(later), x) > 0
  {
    assert o.cmp(o.data(later), x) <= 0 ==> o.cmp(o.data(later), o.data(b)) <= 0;
  }

  /** Merging two sorted runs keeps equivalent items in order. */
  lemma {:induction false} MergeStable<T, V(!new)>(o: Order<T, V>, a: seq<T>, b: seq<T>, x: V)
    requires TotalPreorder(o) && Sorted(o, a) && Sorted(o, b)
    ensures Like(o, Merge(o, a, b), x) == Like(o, a, x) + Like(o, b, x)
  {
    if a != [] && b != [] {
      FirstIsLeast(o, a);
      FirstIsLeast(o, b);
      if o.Le(a[0], b[0]) {
        hide TotalPreorder, Sorted, Order.Le, Order.IsLike;
        MergeStable(o, a[1..], b, x);
        assert Merge(o, a, b)[1..] == Merge(o, a[1..], b);
      } else {
        if o.IsLike(b[0], x) { NoneLike(o, a, b[0], x); }
        hide TotalPreorder, Sorted, Order.Le, Order.IsLike;
        MergeStable(o, a, b[1..], x);
        assert Merge(o, a, b)[1..] == Merge(o, a, b[1..]);
      }
    }
  }

  lemma NoneLike<T, V(!new)>(o: Order<T, V>, a: seq<T>, b: T, x: V)
    requires TotalPreorder(o) && Sorted(o, a) && a != [] && !o.Le(a[0], b) && o.IsLike(b, x)
    ensures Like(o, a, x) == []
  {
    FirstIsLeast(o, a);
    hide Sorted;
    forall i | 0 <= i < |a| ensures o.cmp(o.data(a[i]), x) > 0 {
      assert a[i] in multiset(a);
      BothLater(o, a[0], a[i], b, x);
    }
    LikeNone(o, a, x);
  }

  // ----- a pass -----

  lemma TakeDrop<T>(s: seq<T>, n: nat)
    ensures s == Take(s, n) + Drop(s, n) && |Take(s, n)| == if n < |s| then n else |s|
  {
  }

  lemma TakeDropAppend<T>(a: seq<T>, b: seq<T>, n: nat)
    requires |a| == n || (|a| < n && b == [])
    ensures Take(a + b, n) == a && Drop(a + b, n) == b
  {
    if |a| == n && b != [] {
      assert (a + b)[..n] == a && (a + b)[n..] == b;
    } else {
      assert a + b == a;
    }
  }

  lemma {:induction false} PassItems<T, V>(o: Order<T, V>, s: seq<T>, size: nat)
    requires size > 0
    ensures multiset(Pass(o, s, size)) == multiset(s)
    decreases |s|
  {
    if s != [] {
      var a, s1 := Take(s, size), Drop(s, size);
      var b, s2 := Take(s1, size), Drop(s1, size);
      TakeDrop(s, size);
      TakeDrop(s1, size);
      hide Merge, Take, Drop;
      PassItems(o, s2, size);
      MergeItems(o, a, b);
    }
  }

  lemma {:induction false} PassRuns<T, V(!new)>(o: Order<T, V>, s: seq<T>, size: nat)
    requires TotalPreorder(o) && size > 0 && RunsSorted(o, s, size)
    ensures RunsSorted(o, Pass(o, s, size), 2 * size)
    ensures |s| <= 2 * size ==> Sorted(o, Pass(o, s, size))
    decreases |s|
  {
    hide Sorted, TotalPreorder, Merge;
    if s != [] {
      var a, s1 := Take(s, size), Drop(s, size);
      var b, s2 := Take(s1, size), Drop(s1, size);
      TakeDrop(s, size);
      TakeDrop(s1, size);
      RunsOfRest(o, s1, size);
      hide Take, Drop;
      PassRuns(o, s2, size);
      MergeSorted(o, a, b);
      PairThenRest(o, Merge(o, a, b), Pass(o, s2, size), 2 * size);
      assert |s| <= 2 * size ==> Pass(o, s2, size) == [] && Pass(o, s, size) == Merge(o, a, b);
    } else {
      SortedNothing(o);
    }
  }

  lemma SortedNothing<T, V>(o: Order<T, V>)
    ensures Sorted<T, V>(o, [])
  {
  }

  lemma PairThenRest<T, V>(o: Order<T, V>, pair: seq<T>, rest: seq<T>, size: nat)
    requires size > 0 && pair != [] && Sorted(o, pair) && RunsSorted(o, rest, size)
    requires |pair| == size || (|pair| < size && rest == [])
    ensures RunsSorted(o, pair + rest, size)
  {
    TakeDropAppend(pair, rest, size);
  }

  lemma Regroup<T>(a: seq<T>, b: seq<T>, c: seq<T>)
    ensures (a + b) + c == a + (b + c)
  {
  }

  lemma {:induction false} PassStable<T, V(!new)>(o: Order<T, V>, s: seq<T>, size: nat, x: V)
    requires TotalPreorder(o) && size > 0 && RunsSorted(o, s, size)
    ensures Like(o, Pass(o, s, size), x) == Like(o, s, x)
    decreases |s|
  {
    hide Sorted, TotalPreorder, Merge, Like;
    if s != [] {
      var a, s1 := Take(s, size), Drop(s, size);
      var b, s2 := Take(s1, size), Drop(s1, size);
      TakeDrop(s, size);
      TakeDrop(s1, size);
      RunsOfRest(o, s1, size);
      hide Take, Drop;
      PassStable(o, s2, size, x);
      MergeStable(o, a, b, x);
      LikeAppend(o, Merge(o, a, b), Pass(o, s2, size), x);
      LikeAppend(o, a, s1, x);
      LikeAppend(o, b, s2, x);
      Regroup(Like(o, a, x), Like(o, b, x), Like(o, s2, x));
    }
  }

  lemma RunsOfRest<T, V>(o: Order<T, V>, s: seq<T>, size: nat)
    requires size > 0 && RunsSorted(o, s, size)
    ensures Sorted(o, Take(s, size)) && RunsSorted(o, Drop(s, size), size)
  {
  }

  lemma {:induction false} SingleRuns<T, V>(o: Order<T, V>, s: seq<T>)
    ensures RunsSorted(o, s, 1)
    decreases |s|
  {
    if s != [] { SingleRuns(o, Drop(s, 1)); }
  }

  lemma {:induction false} BottomUpItems<T, V>(o: Order<T, V>, s: seq<T>, size: nat)
    requires size > 0
    ensures multiset(BottomUp(o, s, size)) == multiset(s)
    decreases if |s| > size then |s| - size else 0
  {
    PassItems(o, s, size);
    if |s| > 2 * size { BottomUpItems(o, Pass(o, s, size), 2 * size); }
  }

  /** The result is sorted, and has the same items with equivalent ones in the same order. */
  lemma {:induction false} BottomUpSorts<T, V(!new)>(o: Order<T, V>, s: seq<T>, size: nat, x: V)
    requires TotalPreorder(o) && size > 0 && RunsSorted(o, s, size)
    ensures Sorted(o, BottomUp(o, s, size))
    ensures multiset(BottomUp(o, s, size)) == multiset(s)
    ensures Like(o, BottomUp(o, s, size), x) == Like(o, s, x)
    decreases if |s| > size then |s| - size else 0
  {
    PassItems(o, s, size);
    PassRuns(o, s, size);
    PassStable(o, s, size, x);
    hide TotalPreorder, Sorted, RunsSorted, Like, Pass;
    if |s| > 2 * size { BottomUpSorts(o, Pass(o, s, size), 2 * size, x); }
  }

  lemma StableSort<T, V(!new)>(o: Order<T, V>, s: seq<T>, x: V)
    requires TotalPreorder(o)
    ensures Sorted(o, BottomUp(o, s, 1))
    ensures multiset(BottomUp(o, s, 1)) == multiset(s)
    ensures Like(o, BottomUp(o, s, 1), x) == Like(o, s, x)
  {
    SingleRuns(o, s);
    BottomUpSorts(o, s, 1, x);
  }

  lemma {:induction false} LikeIn<T, V>(o: Order<T, V>, s: seq<T>, x: V)
    ensures forall y :: y in Like(o, s, x) <==> y in s && o.IsLike(y, x)
  {
    if s != [] { LikeIn(o, s[1..], x); }
  }

  /** Being sorted with the same equivalent items in the same order determines the sequence. */
  lemma {:induction false} StableSortIsUnique<T, V(!new)>(o: Order<T, V>, a: seq<T>, b: seq<T>)
    requires TotalPreorder(o) && Sorted(o, a) && Sorted(o, b)
    requires forall x :: Like(o, a, x) == Like(o, b, x)
    ensures a == b
  {
    if a == [] {
      if b != [] { LikeItself(o, b); }
    } else {
      LeadingItems(o, a, b);
      FirstIsLeast(o, a);
      FirstIsLeast(o, b);
      forall x ensures Like(o, a[1..], x) == Like(o, b[1..], x) {
        var first := if o.IsLike(a[0], x) then [a[0]] else [];
        assert Like(o, a, x) == first + Like(o, a[1..], x) && Like(o, b, x) == first + Like(o, b[1..], x);
        assert Like(o, a[1..], x) == Like(o, a, x)[|first|..] && Like(o, b[1..], x) == Like(o, b, x)[|first|..];
      }
      StableSortIsUnique(o, a[1..], b[1..]);
    }
  }

  lemma LikeItself<T, V(!new)>(o: Order<T, V>, s: seq<T>)
    requires TotalPreorder(o) && s != []
    ensures Like(o, s, o.data(s[0])) != []
  {
    assert o.Le(s[0], s[0]);
  }

  lemma LeadingItems<T, V(!new)>(o: Order<T, V>, a: seq<T>, b: seq<T>)
    requires TotalPreorder(o) && Sorted(o, a) && Sorted(o, b) && a != []
    requires forall x :: Like(o, a, x) == Like(o, b, x)
    ensures b != [] && a[0] == b[0]
  {
    assert o.Le(a[0], a[0]);
    LikeIn(o, a, o.data(a[0]));
    LikeIn(o, b, o.data(a[0]));
    assert a[0] in Like(o, b, o.data(a[0]));
    FirstIsLeast(o, a);
    FirstIsLeast(o, b);
    assert a[0] in multiset(b) && o.Le(b[0], a[0]);
    assert o.Le(b[0], b[0]);
    LikeIn(o, a, o.data(b[0]));
    LikeIn(o, b, o.data(b[0]));
    assert b[0] in Like(o, a, o.data(b[0]));
    assert b[0] in multiset(a) && o.Le(a[0], b[0]);
    assert Like(o, a, o.data(a[0]))[0] == a[0] && Like(o, b, o.data(a[0]))[0] == b[0];
  }
}
