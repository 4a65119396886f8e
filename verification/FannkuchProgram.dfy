/** The block-wise program on arrays: what it adds up over all blocks is the sum over all permutations. */
module FannkuchProgram {
  import opened Division
  import opened Fannkuch
  import opened FannkuchFlips

  // ----- the sequential sums -----

  /** What the program counts for a permutation. */
  function Counted(p: seq<nat>): nat
    requires IsPermutation(p) && p != []
  {
    if p[0] > 0 then BoundedFlips(p) else 0
  }

  function CountAt(n: nat, k: nat): nat
    requires 0 < n && k < Factorial(n)
  {
    PermutationsDistinct(n, k, k);
    Counted(PermutationAt(n, k))
  }

  /** The counts of the permutations from `a` on and below `b`, with alternating signs. */
  function Checksum(n: nat, a: nat, b: nat): int
    requires 0 < n && a <= b <= Factorial(n)
    decreases b
  {
    if a == b then 0
    else
      var count: int := CountAt(n, b - 1);
      Checksum(n, a, b - 1) + if (b - 1) % 2 == 0 then count else -count
  }

  function Maximum(n: nat, a: nat, b: nat): nat
    requires 0 < n && a <= b <= Factorial(n)
    decreases b
  {
    if a == b then 0
    else
      var rest, last := Maximum(n, a, b - 1), CountAt(n, b - 1);
      if last > rest then last else rest
  }

  /** Sums and maxima of neighbouring blocks combine. */
  lemma {:induction false} BlocksCombine(n: nat, a: nat, b: nat, c: nat)
    requires 0 < n && a <= b <= c <= Factorial(n)
    ensures Checksum(n, a, c) == Checksum(n, a, b) + Checksum(n, b, c)
    ensures Maximum(n, a, c) == if Maximum(n, b, c) > Maximum(n, a, b) then Maximum(n, b, c) else Maximum(n, a, b)
    decreases c
  {
    hide CountAt, Factorial;
    if b < c { BlocksCombine(n, a, b, c - 1); }
  }

  /** Up to length 33 these are sums and maxima of the plain flip counts. */
  lemma CountsFlips(n: nat, k: nat)
    requires 0 < n <= 33 && k < Factorial(n)
    ensures IsPermutation(PermutationAt(n, k)) && CountAt(n, k) == Flips(PermutationAt(n, k))
  {
    PermutationsDistinct(n, k, k);
    var p := PermutationAt(n, k);
    if p[0] > 0 { BoundedIsPlain(p); }
  }

  /** The plain flips of the permutation of index `k`. */
  function FlipsAt(n: nat, k: nat): nat
    requires 0 < n && k < Factorial(n)
  {
    PermutationsDistinct(n, k, k);
    Flips(PermutationAt(n, k))
  }

  /** The plain flip counts of every second permutation, `m` of them, from index `first` on. */
  function FlipsOfEverySecond(n: nat, first: nat, m: nat): nat
    requires 0 < n && (m > 0 ==> first + 2 * (m - 1) < Factorial(n))
  {
    if m == 0 then 0 else FlipsOfEverySecond(n, first, m - 1) + FlipsAt(n, first + 2 * (m - 1))
  }

  /** Up to length 33 the checksum is the flips of the permutations of even index less those of odd index. */
  lemma {:induction false} ChecksumIsDifference(n: nat, b: nat)
    requires 0 < n <= 33 && b <= Factorial(n)
    ensures Checksum(n, 0, b) == FlipsOfEverySecond(n, 0, (b + 1) / 2) - FlipsOfEverySecond(n, 1, b / 2)
  {
    hide Factorial, CountAt, PermutationAt, Flips, IsPermutation;
    if b > 0 {
      ChecksumIsDifference(n, b - 1);
      CountsFlips(n, b - 1);
      var m := (b - 1) / 2;
      if (b - 1) % 2 == 0 {
        assert b - 1 == 2 * m && (b + 1) / 2 == m + 1 && b / 2 == m && (b - 1 + 1) / 2 == m;
      } else {
        assert b - 1 == 1 + 2 * m && (b + 1) / 2 == m + 1 && b / 2 == m + 1;
      }
    }
  }

  /** Up to length 33 the maximum is reached by some permutation and passed by none. */
  lemma {:induction false} MaximumIsGreatest(n: nat, b: nat) returns (best: nat)
    requires 0 < n <= 33 && 0 < b <= Factorial(n)
    ensures best < b && Maximum(n, 0, b) == FlipsAt(n, best)
    ensures forall k :: 0 <= k < b ==> FlipsAt(n, k) <= Maximum(n, 0, b)
  {
    hide Factorial, CountAt, PermutationAt, Flips, IsPermutation;
    CountsFlips(n, b - 1);
    best := b - 1;
    if b > 1 {
      var rest := MaximumIsGreatest(n, b - 1);
      if Maximum(n, 0, b - 1) >= CountAt(n, b - 1) { best := rest; }
    }
  }

  // ----- the pieces of the program -----

  /** Set up the permutation and the digits for index `k`. */
  method StartAt(n: nat, k: nat, factorials: seq<nat>, current: array<nat>, temp: array<nat>, count: array<nat>)
    requires 0 < n && k < Factorial(n) && |factorials| == n + 1
    requires forall i :: 0 <= i <= n ==> factorials[i] == Factorial(i)
    requires current.Length == temp.Length == count.Length == n
    requires current != temp && current != count && temp != count
    modifies current, temp, count
    ensures current[..] == PermutationAt(n, k) && count[..] == Counts(k, n)
  {
    hide Factorial, Counts, Rotate, Build;
    ghost var c, start := Counts(k, n), Identity(n);
    CountsValue(k, n);
    count[0] := 0;
    for i := 0 to n
      invariant count[0] == 0 && forall j :: 0 <= j < i ==> current[j] == j
    {
      current[i] := i;
    }
    assert current[..] == start == Upper(start, c, n);
    assert c[..n] == c;
    var i, rest: nat := n - 1, k;
    while i > 0
      invariant 0 <= i < n && rest < Factorial(i + 1) && c[..i + 1] == Counts(rest, i + 1)
      invariant count[0] == 0 && forall j :: i < j < n ==> count[j] == c[j]
      invariant current[..] == Upper(start, c, i + 1)
    {
      CountsSplit(rest, i + 1);
      var d := Digit(rest, factorials[i]);
      rest := Rest(rest, factorials[i]);
      count[i] := d;
      assert c[i] == c[..i + 1][i] && c[..i] == c[..i + 1][..i];
      RotatePrefix(current, temp, i, d);
      i := i - 1;
    }
    CountsSplit(rest, 1);
    assert c[0] == c[..1][0];
    assert count[..] == c;
    UpperThenBuild(start, c, 1);
    BuildNothing(Upper(start, c, 1), c);
  }

  lemma CountsSplit(k: nat, n: nat)
    requires 0 < n && k < Factorial(n)
    ensures n == 1 ==> Counts(k, n) == [0]
    ensures n > 1 ==>
              var f := Factorial(n - 1);
              && Rest(k, f) < f && Counts(k, n)[n - 1] == Digit(k, f) < n
              && Counts(k, n)[..n - 1] == Counts(Rest(k, f), n - 1)
  {
    if n > 1 { CountsFit(k, n); }
  }

  method RotatePrefix(current: array<nat>, temp: array<nat>, i: nat, d: nat)
    requires current.Length == temp.Length && current != temp && i < current.Length && d <= i
    modifies current, temp
    ensures current[..] == Rotate(old(current[..]), i, d)
  {
    for j := 0 to current.Length
      invariant current[..] == old(current[..]) && forall m :: 0 <= m < j ==> temp[m] == current[m]
    {
      temp[j] := current[j];
    }
    ghost var p := current[..];
    ghost var goal := Rotate(p, i, d);
    assert temp[..] == p;
    for j := 0 to i + 1
      invariant temp[..] == p
      invariant forall m :: 0 <= m < j ==> current[m] == goal[m]
      invariant forall m :: j <= m < current.Length ==> current[m] == p[m]
    {
      var from := if j + d <= i then j + d else j + d - i - 1;
      assert goal[j] == temp[..][from];
      current[j] := temp[from];
    }
    assert current[..] == goal;
  }

  /** Step to the next permutation in place. */
  method StepNext(current: array<nat>, count: array<nat>)
    requires current.Length == count.Length > 1 && current != count && !AllFull(count[..], 1)
    requires IsCount(count[..])
    modifies current, count
    ensures Position(current[..], count[..]) == Next(old(current[..]), old(count[..]), 1)
  {
    hide Next, Rotate, IsCount, AllFull;
    var n := current.Length;
    ghost var goal := Next(current[..], count[..], 1);
    ghost var p := current[..];
    var first := current[1];
    current[1] := current[0];
    current[0] := first;
    SwapRotates(p, current[..]);
    CarryOrNot(p, count[..], 1);
    var i := 1;
    while true
      invariant 1 <= i < n && first == current[0] && IsCount(count[..]) && !AllFull(count[..], i)
      invariant goal == if count[i] + 1 > i then Next(current[..], count[..][i := 0], i + 1)
                        else Position(current[..], count[..][i := count[i] + 1])
      decreases n - i
    {
      ghost var c := count[..];
      count[i] := count[i] + 1;
      if count[i] <= i {
        assert count[..] == c[i := c[i] + 1];
        break;
      }
      count[i] := 0;
      assert count[..] == c[i := 0];
      StillNotFull(c, i);
      i := i + 1;
      ghost var q := current[..];
      first := RotateByOne(current, i, first);
      CarryOrNot(q, count[..], i);
    }
  }

  lemma SwapRotates(p: seq<nat>, q: seq<nat>)
    requires |p| == |q| > 1 && q[0] == p[1] && q[1] == p[0] && forall j :: 2 <= j < |p| ==> q[j] == p[j]
    ensures q == Rotate(p, 1, 1)
  {
  }

  lemma CarryOrNot(p: seq<nat>, c: seq<nat>, i: nat)
    requires |p| == |c| && 0 < i < |c|
    ensures Next(p, c, i) == if c[i] + 1 > i then Next(Rotate(p, i, 1), c[i := 0], i + 1)
                             else Position(Rotate(p, i, 1), c[i := c[i] + 1])
  {
  }

  /** When digit `i` is full, another one after it is not. */
  lemma StillNotFull(c: seq<nat>, i: nat)
    requires 0 < i < |c| && IsCount(c) && !AllFull(c, i) && c[i] + 1 > i
    ensures IsCount(c[i := 0]) && i + 1 < |c| && !AllFull(c[i := 0], i + 1)
  {
    assert forall j :: i < j < |c| ==> c[i := 0][j] == c[j];
  }

  /** Rotate the first `i + 1` values by one, given the first of them; returns the new first value. */
  method RotateByOne(current: array<nat>, i: nat, first: nat) returns (first': nat)
    requires 2 <= i < current.Length && first == current[0]
    modifies current
    ensures current[..] == Rotate(old(current[..]), i, 1) && first' == current[0]
  {
    ghost var p := current[..];
    first' := current[1];
    current[0] := first';
    var j := 1;
    while j < i
      invariant 1 <= j <= i && first' == p[1]
      invariant forall m :: 0 <= m < j ==> current[m] == p[m + 1]
      invariant forall m :: j <= m < current.Length ==> current[m] == p[m]
    {
      current[j] := current[j + 1];
      j := j + 1;
    }
    current[i] := first;
    assert current[..] == Rotate(p, i, 1);
  }

  // ----- counting flips in place -----

  /** `temp` holds all of `q` but its first value. */
  ghost predicate HoldsTail(temp: seq<nat>, q: seq<nat>) {
    |temp| == |q| && forall j :: 1 <= j < |q| ==> temp[j] == q[j]
  }

  /** The first `s` places between 0 and `f` exchanged with the last `s`. */
  function Exchanged(p: seq<nat>, f: nat, s: nat): (q: seq<nat>)
    requires f < |p| && 2 * s < f
    ensures |q| == |p|
  {
    seq(|p|, j requires 0 <= j < |p| => if 1 <= j <= s || f - s <= j < f then p[f - j] else p[j])
  }

  lemma ExchangeOne(p: seq<nat>, f: nat, s: nat)
    requires f < |p| && 2 * s < f && 2 * (s + 1) < f
    ensures var q := Exchanged(p, f, s); q[f - s - 1 := q[s + 1]][s + 1 := q[f - s - 1]] == Exchanged(p, f, s + 1)
  {
  }

  /** Exchange outer pairs between place 0 and place `f`, at most fifteen of them. */
  method SwapMiddle(temp: array<nat>, f: nat)
    requires 2 < f < temp.Length
    modifies temp
    ensures temp[..] == Exchanged(old(temp[..]), f, Swapped(f))
  {
    ghost var p := temp[..];
    var low, high := 1, f - 1;
    while true
      invariant 1 <= low <= SWAPS && low < high == f - low && temp[..] == Exchanged(p, f, low - 1)
      decreases SWAPS - low
    {
      ExchangeOne(p, f, low - 1);
      ghost var before := temp[..];
      var value := temp[high];
      temp[high] := temp[low];
      temp[low] := value;
      assert temp[..] == before[high := before[low]][low := before[high]];
      var more := low + 3 <= high;
      low := low + 1;
      high := high - 1;
      if !(more && low < SWAPS + 1) { break; }
    }
  }

  method CountFlips(current: array<nat>, temp: array<nat>) returns (flips: nat)
    requires current.Length == temp.Length > 0 && current != temp
    requires IsPermutation(current[..]) && current[0] > 0
    modifies temp
    ensures flips == BoundedFlips(current[..])
  {
    hide IsPermutation, Settled;
    var n := current.Length;
    ghost var q := current[..];
    PermutationRange(q);
    for i := 1 to n
      invariant forall j :: 1 <= j < i ==> temp[j] == current[j]
    {
      temp[i] := current[i];
    }
    flips := 1;
    var first := current[0];
    while temp[first] > 0
      invariant IsPermutation(q) && |q| == n && 0 < q[0] == first < n && HoldsTail(temp[..], q)
      invariant flips + BoundedFlips(q) == 1 + BoundedFlips(current[..])
      decreases Pow2(n) - Settled(q, n)
    {
      BoundedKeeps(q);
      ghost var q' := BoundedFlip(q);
      PermutationRange(q');
      FlipsStep(q);
      var newFirst := temp[first];
      temp[first] := first;
      if first > 2 {
        SwapMiddle(temp, first);
      }
      assert HoldsTail(temp[..], q');
      q := q';
      first := newFirst;
      flips := flips + 1;
    }
    FlipsStep(q);
  }

  lemma PermutationRange(p: seq<nat>)
    requires IsPermutation(p)
    ensures forall i :: 0 <= i < |p| ==> p[i] < |p|
  {
  }

  lemma FlipsStep(p: seq<nat>)
    requires IsPermutation(p) && p != [] && p[0] > 0
    ensures p[0] < |p| && IsPermutation(BoundedFlip(p))
    ensures p[p[0]] == 0 ==> BoundedFlips(p) == 1
    ensures p[p[0]] != 0 ==> BoundedFlip(p)[0] == p[p[0]] && BoundedFlips(p) == 1 + BoundedFlips(BoundedFlip(p))
  {
    BoundedKeeps(p);
  }

  // ----- blocks -----

  lemma NotLast(n: nat, k: nat)
    requires 0 < n && k + 1 < Factorial(n)
    ensures n > 1 && IsCount(Counts(k, n)) && !AllFull(Counts(k, n), 1)
  {
    CountsValue(k, n);
    CarryWeight(0);
    NextAdds(PermutationAt(n, k), Counts(k, n), 1);
  }

  /** Count all permutations of a block, from its first index on. */
  method RunBlock(n: nat, start: nat, size: nat, factorials: seq<nat>) returns (checksum: int, maximum: nat)
    requires 0 < n && 0 < size && start + size <= Factorial(n) && |factorials| == n + 1
    requires forall i :: 0 <= i <= n ==> factorials[i] == Factorial(i)
    ensures checksum == Checksum(n, start, start + size) && maximum == Maximum(n, start, start + size)
  {
    hide Factorial, Counts, PermutationAt, IsPermutation, CountAt, Next;
    var current, temp, count := new nat[n], new nat[n], new nat[n];
    StartAt(n, start, factorials, current, temp, count);
    checksum, maximum := 0, 0;
    var index, last := start, start + size - 1;
    while true
      invariant start <= index <= last < Factorial(n)
      invariant current[..] == PermutationAt(n, index) && count[..] == Counts(index, n)
      invariant checksum == Checksum(n, start, index) && maximum == Maximum(n, start, index)
      decreases last - index
    {
      CountedHere(n, index);
      if current[0] > 0 {
        var flips := CountFlips(current, temp);
        if index % 2 == 0 {
          checksum := checksum + flips;
        } else {
          checksum := checksum - flips;
        }
        if flips > maximum {
          maximum := flips;
        }
      }
      if index >= last { break; }
      NotLast(n, index);
      NextIsSuccessor(n, index);
      StepNext(current, count);
      index := index + 1;
    }
  }

  lemma CountedHere(n: nat, k: nat)
    requires 0 < n && k < Factorial(n)
    ensures IsPermutation(PermutationAt(n, k))
    ensures CountAt(n, k) == if PermutationAt(n, k)[0] > 0 then BoundedFlips(PermutationAt(n, k)) else 0
  {
    PermutationsDistinct(n, k, k);
  }

  const BLOCKS: nat := 12

  /** From four on, factorials divide into twelve equal blocks. */
  lemma {:induction false} TwelveDivides(n: nat)
    ensures n >= 4 ==> Factorial(n) % BLOCKS == 0 && Factorial(n) >= BLOCKS
    ensures n < 4 ==> Factorial(n) < BLOCKS
  {
    if n > 4 {
      TwelveDivides(n - 1);
      var m := Factorial(n - 1) / BLOCKS;
      assert Factorial(n - 1) == m * BLOCKS;
      assert Factorial(n) == n * (m * BLOCKS) == (n * m) * BLOCKS;
      DivModOf(n * m, BLOCKS, 0);
      MulOrder(1, n, Factorial(n - 1));
    } else {
      SmallFactorials();
    }
  }

  lemma SmallFactorials()
    ensures Factorial(0) == 1 && Factorial(1) == 1 && Factorial(2) == 2 && Factorial(3) == 6 && Factorial(4) == 24
  {
    assert Factorial(1) == 1 * Factorial(0) && Factorial(2) == 2 * Factorial(1);
    assert Factorial(3) == 3 * Factorial(2) && Factorial(4) == 4 * Factorial(3);
  }

  /** Some permutation takes that many flips, and none takes more. */
  ghost predicate IsMaximum(n: nat, maximum: nat)
    requires 0 < n
  {
    && (exists k :: 0 <= k < Factorial(n) && FlipsAt(n, k) == maximum)
    && (forall k :: 0 <= k < Factorial(n) ==> FlipsAt(n, k) <= maximum)
  }

  lemma GreatestIsMaximum(n: nat)
    requires 0 < n <= 33
    ensures IsMaximum(n, Maximum(n, 0, Factorial(n)))
  {
    hide Factorial, Maximum, PermutationAt, Flips, IsPermutation;
    var best := MaximumIsGreatest(n, Factorial(n));
  }

  /** Where block number `m` starts. */
  function StartOf(m: nat, size: nat): nat {
    m * size
  }

  /** The whole program: the checksum and the maximum over all permutations. */
  method Pfannkuchen(n: nat) returns (checksum: int, maximum: nat)
    requires n > 0
    ensures checksum == Checksum(n, 0, Factorial(n)) && maximum == Maximum(n, 0, Factorial(n))
    ensures n <= 33 ==>
              checksum ==
              FlipsOfEverySecond(n, 0, (Factorial(n) + 1) / 2) - FlipsOfEverySecond(n, 1, Factorial(n) / 2)
    ensures n <= 33 ==> IsMaximum(n, maximum)
  {
    hide Factorial, Checksum, Maximum, StartOf, IsMaximum;
    var factorials := Factorials(n);
    var total := factorials[n];
    BlocksCover(n);
    var blocks := if total < BLOCKS then 1 else BLOCKS;
    var size := total / blocks;
    checksum, maximum := 0, 0;
    NoBlocks(n, size);
    var start := 0;
    ghost var done: nat := 0;
    while start < total
      invariant start == StartOf(done, size) <= total && done <= blocks && total == StartOf(blocks, size)
      invariant checksum == Checksum(n, 0, start) && maximum == Maximum(n, 0, start)
      decreases total - start
    {
      BlockFits(done, blocks, size);
      var sum, most := RunBlock(n, start, size, factorials);
      BlocksCombine(n, 0, start, start + size);
      checksum := checksum + sum;
      if most > maximum {
        maximum := most;
      }
      start := start + size;
      done := done + 1;
    }
    if n <= 33 {
      ChecksumIsDifference(n, total);
      GreatestIsMaximum(n);
    }
  }

  lemma BlocksCover(n: nat)
    ensures var total := Factorial(n); var blocks := if total < BLOCKS then 1 else BLOCKS;
            total / blocks > 0 && StartOf(blocks, total / blocks) == total
  {
    TwelveDivides(n);
  }

  lemma NoBlocks(n: nat, size: nat)
    requires n > 0
    ensures Checksum(n, 0, 0) == 0 && Maximum(n, 0, 0) == 0 && StartOf(0, size) == 0
  {
  }

  lemma BlockFits(done: nat, blocks: nat, size: nat)
    requires StartOf(done, size) < StartOf(blocks, size) && done <= blocks
    ensures done < blocks && StartOf(done, size) + size == StartOf(done + 1, size) <= StartOf(blocks, size)
  {
    assert done < blocks;
    MulOrder(done + 1, blocks, size);
  }

  method Factorials(n: nat) returns (f: seq<nat>)
    ensures |f| == n + 1 && forall i :: 0 <= i <= n ==> f[i] == Factorial(i)
  {
    f := [1];
    for i := 1 to n + 1
      invariant |f| == i && forall j :: 0 <= j < i ==> f[j] == Factorial(j)
    {
      f := f + [i * f[i - 1]];
    }
  }
}
