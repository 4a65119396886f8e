/**
  Permutations by index: the factorial digits of the index say how far to rotate prefixes of the identity, and
  stepping to the next permutation is adding one to the digits.
*/
module Fannkuch {
  import opened Division

  function Factorial(n: nat): (f: nat)
    ensures f > 0
  {
    if n == 0 then 1 else n * Factorial(n - 1)
  }

  // ----- rotations -----

  /** Rotate the first `i + 1` values left by `d`. */
  function Rotate(p: seq<nat>, i: nat, d: nat): (q: seq<nat>)
    requires i < |p| && d <= i + 1
    ensures |q| == |p|
  {
    seq(|p|, j requires 0 <= j < |p| => if j > i then p[j] else if j + d <= i then p[j + d] else p[j + d - i - 1])
  }

  lemma RotateOnce(p: seq<nat>, i: nat, d: nat)
    requires i < |p| && d <= i
    ensures Rotate(Rotate(p, i, d), i, 1) == Rotate(p, i, d + 1)
  {
  }

  lemma RotateRound(p: seq<nat>, i: nat)
    requires i < |p|
    ensures Rotate(p, i, 0) == p && Rotate(p, i, i + 1) == p
  {
  }

  // ----- factorial digits -----

  /** Digit `i` is at most `i`. */
  predicate IsCount(c: seq<nat>) {
    |c| > 0 && forall i :: 0 <= i < |c| ==> c[i] <= i
  }

  function Value(c: seq<nat>): nat {
    if |c| <= 1 then 0 else c[|c| - 1] * Factorial(|c| - 1) + Value(c[..|c| - 1])
  }

  function Digit(k: nat, f: nat): nat
    requires f > 0
  {
    k / f
  }

  function Rest(k: nat, f: nat): nat
    requires f > 0
  {
    k % f
  }

  /** The digits of `k`, `n` of them. */
  function Counts(k: nat, n: nat): (c: seq<nat>)
    requires 0 < n && k < Factorial(n)
    ensures |c| == n
  {
    if n == 1 then [0]
    else
      CountsFit(k, n);
      Counts(Rest(k, Factorial(n - 1)), n - 1) + [Digit(k, Factorial(n - 1))]
  }

  lemma CountsFit(k: nat, n: nat)
    requires 1 < n && k < Factorial(n)
    ensures Digit(k, Factorial(n - 1)) < n && Rest(k, Factorial(n - 1)) < Factorial(n - 1)
    ensures Digit(k, Factorial(n - 1)) * Factorial(n - 1) + Rest(k, Factorial(n - 1)) == k
  {
    var f := Factorial(n - 1);
    DivBounds(k, f);
    if k / f >= n { MulOrder(n, k / f, f); }
  }

  lemma {:induction false} CountsValue(k: nat, n: nat)
    requires 0 < n && k < Factorial(n)
    ensures IsCount(Counts(k, n)) && Value(Counts(k, n)) == k
  {
    hide Factorial, Digit, Rest;
    if n > 1 {
      CountsFit(k, n);
      CountsValue(Rest(k, Factorial(n - 1)), n - 1);
      var c := Counts(k, n);
      assert c[..n - 1] == Counts(Rest(k, Factorial(n - 1)), n - 1);
    } else {
      CarryWeight(0);
    }
  }

  lemma {:induction false} ValueBelow(c: seq<nat>)
    requires IsCount(c)
    ensures Value(c) < Factorial(|c|)
  {
    hide Factorial;
    if |c| > 1 {
      var n := |c| - 1;
      ValueBelow(c[..n]);
      MulOrder(c[n], n, Factorial(n));
      CarryWeight(n);
    }
  }

  lemma {:induction false} CountsUnique(c: seq<nat>)
    requires IsCount(c)
    ensures Value(c) < Factorial(|c|) && Counts(Value(c), |c|) == c
  {
    ValueBelow(c);
    if |c| > 1 {
      var n := |c| - 1;
      CountsUnique(c[..n]);
      DivModOf(c[n], Factorial(n), Value(c[..n]));
    }
  }

  lemma {:induction false} ValueUpdate(c: seq<nat>, i: nat, x: nat)
    requires 0 < i < |c|
    ensures Value(c[i := x]) == Value(c) + (x - c[i]) * Factorial(i)
  {
    var n := |c| - 1;
    if i < n {
      ValueUpdate(c[..n], i, x);
      assert c[i := x][..n] == c[..n][i := x];
    } else {
      assert c[i := x][..n] == c[..n];
      assert x * Factorial(i) == c[i] * Factorial(i) + (x - c[i]) * Factorial(i);
    }
  }

  // ----- permutations by index -----

  function Identity(n: nat): (p: seq<nat>)
    ensures |p| == n
  {
    seq(n, j => j)
  }

  /** Apply the rotations for the digits from `c[i]` down to `c[1]`. */
  function Build(p: seq<nat>, c: seq<nat>, i: nat): (q: seq<nat>)
    requires |p| == |c| && IsCount(c) && i < |c|
    ensures |q| == |p|
    decreases i
  {
    if i == 0 then p else Build(Rotate(p, i, c[i]), c, i - 1)
  }

  function PermutationAt(n: nat, k: nat): (p: seq<nat>)
    requires 0 < n && k < Factorial(n)
    ensures |p| == n
  {
    CountsValue(k, n);
    Build(Identity(n), Counts(k, n), n - 1)
  }

  /** The rotations for the digits above `c[i]` and for `c[i]` itself. */
  function Upper(p: seq<nat>, c: seq<nat>, i: nat): (q: seq<nat>)
    requires |p| == |c| && IsCount(c) && 0 < i <= |c|
    ensures |q| == |p|
    decreases |c| - i
  {
    if i == |c| then p else Rotate(Upper(p, c, i + 1), i, c[i])
  }

  lemma {:induction false} UpperThenBuild(p: seq<nat>, c: seq<nat>, i: nat)
    requires |p| == |c| && IsCount(c) && 0 < i <= |c|
    ensures Build(Upper(p, c, i), c, i - 1) == Build(p, c, |c| - 1)
    decreases |c| - i
  {
    if i < |c| { UpperThenBuild(p, c, i + 1); }
  }

  lemma {:induction false} UpperSame(p: seq<nat>, c: seq<nat>, c': seq<nat>, i: nat)
    requires |p| == |c| == |c'| && IsCount(c) && IsCount(c') && 0 < i <= |c|
    requires forall j :: i <= j < |c| ==> c'[j] == c[j]
    ensures Upper(p, c', i) == Upper(p, c, i)
    decreases |c| - i
  {
    if i < |c| { UpperSame(p, c, c', i + 1); }
  }

  lemma {:induction false} BuildOfZeros(p: seq<nat>, c: seq<nat>, i: nat)
    requires |p| == |c| && IsCount(c) && i < |c| && forall j :: 1 <= j <= i ==> c[j] == 0
    ensures Build(p, c, i) == p
    decreases i
  {
    if i > 0 {
      RotateRound(p, i);
      BuildOfZeros(p, c, i - 1);
    }
  }

  // ----- the next permutation -----

  datatype Position = Position(p: seq<nat>, c: seq<nat>)

  /** Rotate the first `i + 1` values by one; carry to the next digit when this one is full. */
  function Next(p: seq<nat>, c: seq<nat>, i: nat): (r: Position)
    requires |p| == |c| && 0 < i <= |c|
    ensures |r.p| == |r.c| == |c|
    decreases |c| - i
  {
    if i == |c| then Position(p, c)
    else
      var q := Rotate(p, i, 1);
      if c[i] + 1 > i then Next(q, c[i := 0], i + 1) else Position(q, c[i := c[i] + 1])
  }

  predicate AllFull(c: seq<nat>, i: nat) {
    forall j :: i <= j < |c| ==> c[j] == j
  }

  /** Adding one at digit `i` adds its weight, unless all digits from there on are full. */
  lemma {:induction false} NextAdds(p: seq<nat>, c: seq<nat>, i: nat)
    requires |p| == |c| && IsCount(c) && 0 < i <= |c|
    ensures IsCount(Next(p, c, i).c)
    ensures if AllFull(c, i) then Value(c) + Factorial(i) >= Factorial(|c|)
            else Value(Next(p, c, i).c) == Value(c) + Factorial(i)
    decreases |c| - i
  {
    hide Factorial, Rotate, Value;
    if i < |c| {
      if c[i] + 1 > i {
        NextAdds(Rotate(p, i, 1), c[i := 0], i + 1);
        ValueUpdate(c, i, 0);
        CarryWeight(i);
        assert forall j :: i < j < |c| ==> c[i := 0][j] == c[j];
      } else {
        ValueUpdate(c, i, c[i] + 1);
      }
    }
  }

  lemma CarryWeight(i: nat)
    ensures Factorial(i + 1) == i * Factorial(i) + Factorial(i)
    ensures (0 - i) * Factorial(i) + Factorial(i + 1) == Factorial(i)
    ensures i == 0 ==> Factorial(i + 1) == 1
  {
    var f := Factorial(i);
    assert Factorial(i + 1) == (i + 1) * f;
    hide Factorial;
    assert (i + 1) * f == i * f + f;
  }

  /** When the digits below `i` have just been reset, one more rotation is one more in digit `i`. */
  lemma {:induction false} NextRotates(start: seq<nat>, c: seq<nat>, i: nat)
    requires |start| == |c| && IsCount(c) && 0 < i <= |c|
    requires forall j :: 1 <= j < i ==> c[j] == 0
    requires !AllFull(c, i)
    ensures var r := Next(Upper(start, c, i), c, i); IsCount(r.c) && r.p == Build(start, r.c, |c| - 1)
    decreases |c| - i
  {
    hide Rotate, Build;
    assert i < |c|;
    var top := Upper(start, c, i + 1);
    RotateOnce(top, i, c[i]);
    if c[i] + 1 > i {
      RotateRound(top, i);
      var reset := c[i := 0];
      UpperSame(start, c, reset, i + 1);
      assert forall j :: i < j < |c| ==> reset[j] == c[j];
      NextRotates(start, reset, i + 1);
    } else {
      var more := c[i := c[i] + 1];
      UpperSame(start, c, more, i + 1);
      BuildOfZeros(Upper(start, more, i), more, i - 1);
      UpperThenBuild(start, more, i);
    }
  }

  /** The next permutation is the one of the next index. */
  lemma NextIsSuccessor(n: nat, k: nat)
    requires 0 < n && k + 1 < Factorial(n)
    ensures Next(PermutationAt(n, k), Counts(k, n), 1) == Position(PermutationAt(n, k + 1), Counts(k + 1, n))
  {
    hide Factorial, Next, Build, Upper, Counts, AllFull;
    var c := Counts(k, n);
    CountsValue(k, n);
    CarryWeight(0);
    UpperThenBuild(Identity(n), c, 1);
    assert Upper(Identity(n), c, 1) == PermutationAt(n, k) by { BuildNothing(Upper(Identity(n), c, 1), c); }
    NextAdds(Upper(Identity(n), c, 1), c, 1);
    NextRotates(Identity(n), c, 1);
    CountsUnique(Next(PermutationAt(n, k), c, 1).c);
  }

  lemma BuildNothing(p: seq<nat>, c: seq<nat>)
    requires |p| == |c| && IsCount(c)
    ensures Build(p, c, 0) == p
  {
  }

  // ----- the permutation of an index, value by value -----

  /** Every value moved up by `d`, modulo `n`. */
  function Shifted(p: seq<nat>, d: nat, n: nat): (q: seq<nat>)
    requires n > 0
    ensures |q| == |p|
  {
    seq(|p|, j requires 0 <= j < |p| => (p[j] + d) % n)
  }

  /** Rotations of prefixes act on places, so they leave the rest alone and do not look at the values. */
  lemma {:induction false} BuildPrefix(p: seq<nat>, c: seq<nat>, i: nat, m: nat)
    requires |p| == |c| && IsCount(c) && i < m <= |c|
    ensures IsCount(c[..m]) && Build(p, c, i) == Build(p[..m], c[..m], i) + p[m..]
    decreases i
  {
    if i > 0 {
      BuildPrefix(Rotate(p, i, c[i]), c, i - 1, m);
      assert Rotate(p, i, c[i])[..m] == Rotate(p[..m], i, c[..m][i]);
      assert Rotate(p, i, c[i])[m..] == p[m..];
    } else {
      assert p == p[..m] + p[m..];
    }
  }

  lemma {:induction false} BuildShifted(p: seq<nat>, c: seq<nat>, i: nat, d: nat, n: nat)
    requires |p| == |c| && IsCount(c) && i < |c| && n > 0
    ensures Build(Shifted(p, d, n), c, i) == Shifted(Build(p, c, i), d, n)
    decreases i
  {
    if i > 0 {
      assert Rotate(Shifted(p, d, n), i, c[i]) == Shifted(Rotate(p, i, c[i]), d, n);
      BuildShifted(Rotate(p, i, c[i]), c, i - 1, d, n);
    }
  }

  lemma IdentityRotated(n: nat, d: nat)
    requires 0 < n && d < n
    ensures Rotate(Identity(n), n - 1, d) == Shifted(Identity(n), d, n)
  {
    forall j | 0 <= j < n ensures Rotate(Identity(n), n - 1, d)[j] == Shifted(Identity(n), d, n)[j] {
      WrapOnce(j + d, n);
    }
  }

  lemma WrapOnce(x: nat, n: nat)
    requires x < 2 * n
    ensures x % n == if x < n then x else x - n
  {
    if x < n { DivModOf(0, n, x); } else { DivModOf(1, n, x - n); }
  }

  /**
    The permutation of index `k` in terms of the one of the index below the leading digit: the leading digit moves
    every value up, and the last place takes the value that the digit moves there.
  */
  lemma PermutationByDigit(n: nat, k: nat)
    requires 1 < n && k < Factorial(n)
    ensures var f := Factorial(n - 1);
            && k / f < n && k % f < f
            && PermutationAt(n, k)[n - 1] == (n - 1 + k / f) % n
            && forall j :: 0 <= j < n - 1 ==> PermutationAt(n, k)[j] == (PermutationAt(n - 1, k % f)[j] + k / f) % n
  {
    hide Factorial, PermutationAt;
    DigitShifts(n, k);
  }

  lemma DigitShifts(n: nat, k: nat)
    requires 1 < n && k < Factorial(n)
    ensures var f := Factorial(n - 1);
            && k / f < n && k % f < f
            && PermutationAt(n, k) == Shifted(PermutationAt(n - 1, k % f) + [n - 1], k / f, n)
  {
    hide Factorial, Rotate, Shifted;
    var f, c, id := Factorial(n - 1), Counts(k, n), Identity(n);
    CountsFit(k, n);
    CountsValue(k, n);
    CountsValue(k % f, n - 1);
    var d := k / f;
    IdentityRotated(n, d);
    BuildShifted(id, c, n - 2, d, n);
    BuildPrefix(id, c, n - 2, n - 1);
    assert id[..n - 1] == Identity(n - 1) && c[..n - 1] == Counts(k % f, n - 1);
    assert id[n - 1..] == [n - 1];
  }

  /** `k` steps from the identity. */
  function Stepped(n: nat, k: nat): (r: Position)
    requires 0 < n
    ensures |r.p| == |r.c| == n
  {
    if k == 0 then Position(Identity(n), seq(n, _ => 0))
    else
      var r := Stepped(n, k - 1);
      Next(r.p, r.c, 1)
  }

  lemma {:induction false} CountsOfZero(n: nat)
    requires 0 < n
    ensures Counts(0, n) == seq(n, _ => 0)
  {
    if n > 1 {
      CountsFit(0, n);
      DivUnique(0, Factorial(n - 1), 0);
      CountsOfZero(n - 1);
    }
  }

  /** The permutation and digits built for an index are those that many steps lead to. */
  lemma {:induction false} IndexIsSteps(n: nat, k: nat)
    requires 0 < n && k < Factorial(n)
    ensures Stepped(n, k) == Position(PermutationAt(n, k), Counts(k, n))
  {
    if k == 0 {
      CountsOfZero(n);
      CountsValue(0, n);
      BuildOfZeros(Identity(n), Counts(0, n), n - 1);
    } else {
      IndexIsSteps(n, k - 1);
      NextIsSuccessor(n, k - 1);
    }
  }

  // ----- the permutations are permutations, and all different -----

  predicate Distinct(p: seq<nat>) {
    forall i, j :: 0 <= i < j < |p| ==> p[i] != p[j]
  }

  /** A permutation of the numbers below its length. */
  predicate IsPermutation(p: seq<nat>) {
    Distinct(p) && forall i :: 0 <= i < |p| ==> p[i] < |p|
  }

  lemma RotateKeeps(p: seq<nat>, i: nat, d: nat)
    requires i < |p| && d <= i + 1 && IsPermutation(p)
    ensures IsPermutation(Rotate(p, i, d))
  {
  }

  lemma {:induction false} BuildKeeps(p: seq<nat>, c: seq<nat>, i: nat)
    requires |p| == |c| && IsCount(c) && i < |c|
    ensures IsPermutation(p) ==> IsPermutation(Build(p, c, i))
    ensures forall j :: i < j < |p| ==> Build(p, c, i)[j] == p[j]
    decreases i
  {
    if i > 0 {
      if IsPermutation(p) { RotateKeeps(p, i, c[i]); }
      BuildKeeps(Rotate(p, i, c[i]), c, i - 1);
    }
  }

  /** What is last in a rotated prefix tells by how much it was rotated. */
  lemma RotationShows(p: seq<nat>, i: nat, d: nat, d': nat)
    requires IsPermutation(p) && i < |p| && d <= i && d' <= i && Rotate(p, i, d)[i] == Rotate(p, i, d')[i]
    ensures d == d'
  {
    var at, at' := if d == 0 then i else d - 1, if d' == 0 then i else d' - 1;
    assert Rotate(p, i, d)[i] == p[at] && Rotate(p, i, d')[i] == p[at'];
  }

  lemma {:induction false} BuildInjective(p: seq<nat>, c: seq<nat>, c': seq<nat>, i: nat)
    requires |p| == |c| == |c'| && IsCount(c) && IsCount(c') && i < |c| && IsPermutation(p)
    requires Build(p, c, i) == Build(p, c', i)
    ensures forall j :: 1 <= j <= i ==> c[j] == c'[j]
    decreases i
  {
    hide IsPermutation, Rotate;
    if i > 0 {
      BuildKeeps(Rotate(p, i, c[i]), c, i - 1);
      BuildKeeps(Rotate(p, i, c'[i]), c', i - 1);
      assert Rotate(p, i, c[i])[i] == Rotate(p, i, c'[i])[i];
      RotationShows(p, i, c[i], c'[i]);
      RotateKeeps(p, i, c[i]);
      BuildInjective(Rotate(p, i, c[i]), c, c', i - 1);
    }
  }

  lemma PermutationsDistinct(n: nat, k: nat, k': nat)
    requires 0 < n && k < Factorial(n) && k' < Factorial(n)
    ensures IsPermutation(PermutationAt(n, k))
    ensures PermutationAt(n, k) == PermutationAt(n, k') ==> k == k'
  {
    hide Factorial, Counts, Build, Value;
    CountsValue(k, n);
    CountsValue(k', n);
    var c, c' := Counts(k, n), Counts(k', n);
    BuildKeeps(Identity(n), c, n - 1);
    if PermutationAt(n, k) == PermutationAt(n, k') {
      BuildInjective(Identity(n), c, c', n - 1);
      assert c == c';
    }
  }
}
