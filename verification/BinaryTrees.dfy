/**
  Complete binary trees made and summed up in four ways: recursively or with explicit stacks, as nodes or
  as an array.
*/
module BinaryTrees {

  datatype Tree = Empty | Tree(info: int, left: Tree, right: Tree)

  function OldMake(val: int, d: nat): Tree
    decreases d
  {
    if d == 0 then Tree(val, Empty, Empty)
    else
      var nval := val * 2;
      Tree(val, OldMake(nval - 1, d - 1), OldMake(nval, d - 1))
  }

  function Check(t: Tree): int {
    match t
    case Empty => 0
    case Tree(info, left, right) => info + Check(left) - Check(right)
  }

  function Height(t: Tree): nat {
    match t
    case Empty => 0
    case Tree(_, left, right) => 1 + if Height(left) > Height(right) then Height(left) else Height(right)
  }

  function Size(t: Tree): nat {
    match t
    case Empty => 0
    case Tree(_, left, right) => 1 + Size(left) + Size(right)
  }

  /** What every way of summing up comes to. */
  function Total(val: int, d: nat): int {
    if d == 0 then val else val - 1
  }

  lemma {:induction false} CheckIsTotal(val: int, d: nat)
    ensures Check(OldMake(val, d)) == Total(val, d) == if d == 0 then val else val - 1
    ensures Height(OldMake(val, d)) == d + 1
    decreases d
  {
    if d > 0 {
      CheckIsTotal(val * 2 - 1, d - 1);
      CheckIsTotal(val * 2, d - 1);
    }
  }

  // ----- the array forms, counted from 1 -----

  function Pow2(k: nat): (n: nat)
    ensures n > 0
  {
    if k == 0 then 1 else 2 * Pow2(k - 1)
  }

  /** The value of node `i`, whose children are nodes `2 * i` and `2 * i + 1`. */
  function NodeValue(val: int, i: nat): int
    requires i > 0
  {
    if i == 1 then val else 2 * NodeValue(val, i / 2) - (if i % 2 == 0 then 1 else 0)
  }

  function Ones(i: nat): nat {
    if i == 0 then 0 else i % 2 + Ones(i / 2)
  }

  method MakeArrNoRec(val: int, d: nat) returns (arr: array<int>)
    ensures arr.Length == 2 * Pow2(d) - 1
    ensures forall i :: 0 < i <= arr.Length ==> arr[i - 1] == NodeValue(val, i)
  {
    arr := new int[2 * Pow2(d) - 1];
    arr[0] := val;
    for i := 2 to arr.Length + 1
      invariant forall j :: 0 < j < i ==> arr[j - 1] == NodeValue(val, j)
    {
      assert arr[i / 2 - 1] == NodeValue(val, i / 2);
      var nval, side := 2 * arr[i / 2 - 1], i % 2;
      arr[i - 1] := if side == 0 then nval - 1 else nval;
    }
  }

  function Signed(val: int, i: nat): int
    requires i > 0
  {
    if Ones(i) % 2 == 1 then NodeValue(val, i) else -NodeValue(val, i)
  }

  function SignedSum(val: int, n: nat): int {
    if n == 0 then 0 else SignedSum(val, n - 1) + Signed(val, n)
  }

  function Signs(n: nat): int {
    if n == 0 then 0 else Signs(n - 1) + if Ones(n) % 2 == 1 then 1 else -1
  }

  /** Two siblings add up to minus the sign of their parent, and their signs cancel. */
  lemma Siblings(val: int, i: nat)
    requires i > 0
    ensures Signed(val, 2 * i) + Signed(val, 2 * i + 1) == if Ones(i) % 2 == 1 then -1 else 1
    ensures Ones(2 * i) == Ones(i) && Ones(2 * i + 1) == Ones(i) + 1
  {
    hide Ones, NodeValue;
    ChildParts(val, i);
  }

  lemma ChildParts(val: int, i: nat)
    requires i > 0
    ensures Ones(2 * i) == Ones(i) && Ones(2 * i + 1) == Ones(i) + 1
    ensures NodeValue(val, 2 * i) == 2 * NodeValue(val, i) - 1 && NodeValue(val, 2 * i + 1) == 2 * NodeValue(val, i)
  {
    assert (2 * i) / 2 == i && (2 * i + 1) / 2 == i;
  }

  lemma {:induction false} SumOfPairs(val: int, n: nat)
    ensures SignedSum(val, 2 * n + 1) == val - Signs(n) && Signs(2 * n + 1) == 1
  {
    if n > 0 {
      SumOfPairs(val, n - 1);
      Siblings(val, n);
      assert SignedSum(val, 2 * n + 1) == SignedSum(val, 2 * n - 1) + Signed(val, 2 * n) + Signed(val, 2 * n + 1);
      assert Signs(2 * n + 1) ==
             Signs(2 * n - 1) + (Signs(2 * n) - Signs(2 * n - 1)) + (Signs(2 * n + 1) - Signs(2 * n));
    } else {
      assert SignedSum(val, 1) == SignedSum(val, 0) + Signed(val, 1);
      assert Signs(1) == Signs(0) + 1;
    }
  }

  /** Summing up node by node with the sign of the number of ones gives what the recursion gives. */
  lemma SumIsTotal(val: int, d: nat)
    ensures SignedSum(val, 2 * Pow2(d) - 1) == Total(val, d)
  {
    SumOfPairs(val, Pow2(d) - 1);
    if d > 0 { SumOfPairs(val, Pow2(d - 1) - 1); }
  }

  method CheckNoRec(arr: array<int>, ghost val: int, ghost d: nat) returns (sum: int)
    requires arr.Length == 2 * Pow2(d) - 1 && forall i :: 0 < i <= arr.Length ==> arr[i - 1] == NodeValue(val, i)
    ensures sum == Total(val, d)
  {
    sum := 0;
    for i := 1 to arr.Length + 1
      invariant sum == SignedSum(val, i - 1)
    {
      var ones := CountOnes(i);
      var parity := (ones - 1) % 2;
      assert arr[i - 1] == NodeValue(val, i);
      if parity == 0 {
        sum := sum + arr[i - 1];
      } else {
        sum := sum - arr[i - 1];
      }
    }
    SumIsTotal(val, d);
  }

  method CountOnes(i: nat) returns (ones: nat)
    requires i > 0
    ensures ones == Ones(i) > 0
  {
    ones := Ones(i);
    SomeOne(i);
  }

  lemma {:induction false} SomeOne(i: nat)
    requires i > 0
    ensures Ones(i) > 0
  {
    if i % 2 == 0 { SomeOne(i / 2); }
  }

  /** Nodes `last` and below, `d` levels of them, hold the values for `val` at `last`. */
  ghost predicate Filled(a: seq<int>, val: int, d: nat, last: nat)
    decreases d
  {
    && 0 < last <= |a| && a[last - 1] == val
    && (d > 0 ==> Filled(a, 2 * val - 1, d - 1, 2 * last) && Filled(a, 2 * val, d - 1, 2 * last + 1))
  }

  /** Node `j` is `last` or below it. */
  predicate Below(j: nat, last: nat)
    requires last > 0
  {
    j == last || (j > last && Below(j / 2, last))
  }

  lemma {:induction false} BelowOne(j: nat, last: nat)
    requires last > 0 && j > 0
    ensures Below(j, last) <==> j == last || Below(j, 2 * last) || Below(j, 2 * last + 1)
    ensures !(Below(j, 2 * last) && Below(j, 2 * last + 1)) && !Below(last, 2 * last) && !Below(last, 2 * last + 1)
    decreases j
  {
    if j > 1 { BelowOne(j / 2, last); }
  }

  lemma {:induction false} FilledLocal(a: seq<int>, b: seq<int>, val: int, d: nat, last: nat)
    requires Filled(a, val, d, last) && |a| == |b|
    requires forall j :: 0 < j <= |a| && Below(j, last) ==> b[j - 1] == a[j - 1]
    ensures Filled(b, val, d, last)
    decreases d
  {
    assert Below(last, last);
    if d > 0 {
      var left, right := 2 * last, 2 * last + 1;
      forall j: nat | 0 < j <= |a| && Below(j, left) ensures b[j - 1] == a[j - 1] { BelowOne(j, last); }
      forall j: nat | 0 < j <= |a| && Below(j, right) ensures b[j - 1] == a[j - 1] { BelowOne(j, last); }
      FilledLocal(a, b, 2 * val - 1, d - 1, 2 * last);
      FilledLocal(a, b, 2 * val, d - 1, 2 * last + 1);
    }
  }

  method MakeArrRec(val: int, d: nat, arr: array<int>, last: nat)
    requires 0 < last && (last + 1) * Pow2(d) - 1 <= arr.Length
    modifies arr
    ensures Filled(arr[..], val, d, last)
    ensures forall j :: 0 < j <= arr.Length && !Below(j, last) ==> arr[j - 1] == old(arr[j - 1])
    decreases d
  {
    Fits(last, d);
    if d == 0 {
      arr[last - 1] := val;
    } else {
      var nval := val * 2;
      arr[last - 1] := val;
      MakeArrRec(nval - 1, d - 1, arr, 2 * (last - 1) + 2);
      ghost var left := arr[..];
      MakeArrRec(nval, d - 1, arr, 2 * (last - 1) + 3);
      forall j: nat | 0 < j <= arr.Length
        ensures Below(j, 2 * last) ==> arr[j - 1] == left[j - 1]
        ensures !Below(j, last) ==> !Below(j, 2 * last) && !Below(j, 2 * last + 1) && j != last
      {
        BelowOne(j, last);
      }
      BelowOne(last, last);
      FilledLocal(left, arr[..], 2 * val - 1, d - 1, 2 * last);
    }
  }

  lemma Fits(last: nat, d: nat)
    requires last > 0
    ensures last <= (last + 1) * Pow2(d) - 1
    ensures d > 0 ==> (2 * last + 1) * Pow2(d - 1) - 1 <= (last + 1) * Pow2(d) - 1
    ensures d > 0 ==> (2 * last + 2) * Pow2(d - 1) - 1 <= (last + 1) * Pow2(d) - 1
  {
    assert (last + 1) * (Pow2(d) - 1) >= 0;
    if d > 0 {
      assert (2 * last + 2) * Pow2(d - 1) == (last + 1) * (2 * Pow2(d - 1));
      assert (2 * last + 2) * Pow2(d - 1) == (2 * last + 1) * Pow2(d - 1) + Pow2(d - 1);
    }
  }

  method MakeArr(val: int, d: nat) returns (arr: array<int>)
    ensures arr.Length == 2 * Pow2(d) - 1 && Filled(arr[..], val, d, 1)
  {
    arr := new int[2 * Pow2(d) - 1];
    MakeArrRec(val, d, arr, 1);
  }

  method CheckArr(last: nat, d: nat, arr: array<int>, ghost val: int) returns (sum: int)
    requires Filled(arr[..], val, d, last)
    ensures sum == Check(OldMake(val, d))
    decreases d
  {
    if d == 0 {
      sum := arr[last - 1];
    } else {
      var left := CheckArr(2 * (last - 1) + 2, d - 1, arr, 2 * val - 1);
      var right := CheckArr(2 * (last - 1) + 3, d - 1, arr, 2 * val);
      sum := arr[last - 1] + left - right;
    }
  }

  /** Both ways of filling the array agree. */
  lemma {:induction false} SameArrays(a: seq<int>, val: int, d: nat, last: nat, v: int)
    requires last > 0 && v == NodeValue(val, last) && (last + 1) * Pow2(d) - 1 <= |a|
    requires forall i :: 0 < i <= |a| ==> a[i - 1] == NodeValue(val, i)
    ensures Filled(a, v, d, last)
    decreases d
  {
    Fits(last, d);
    assert a[last - 1] == NodeValue(val, last);
    if d > 0 {
      SameArrays(a, val, d - 1, 2 * last, 2 * v - 1);
      SameArrays(a, val, d - 1, 2 * last + 1, 2 * v);
    }
  }
}
