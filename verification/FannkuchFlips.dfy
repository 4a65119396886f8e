/**
  Counting flips: reversing the prefix that the first value asks for until that value is 0, and the form that
  keeps the first value apart and reverses the middle by a bounded number of swaps.
*/
module FannkuchFlips {
  import opened Fannkuch

  /** Reverse the first `f + 1` values. */
  function Reverse(p: seq<nat>, f: nat): (q: seq<nat>)
    requires f < |p|
    ensures |q| == |p|
  {
    seq(|p|, j requires 0 <= j < |p| => if j <= f then p[f - j] else p[j])
  }

  lemma ReverseKeeps(p: seq<nat>, f: nat)
    requires IsPermutation(p) && f < |p|
    ensures IsPermutation(Reverse(p, f))
  {
  }

  // ----- why flipping ends -----

  function Pow2(i: nat): nat {
    if i == 0 then 1 else 2 * Pow2(i - 1)
  }

  /** The weights of the values below place `i` that are in their own place. */
  function Settled(p: seq<nat>, i: nat): nat
    requires i <= |p|
  {
    if i == 0 then 0 else Settled(p, i - 1) + if p[i - 1] == i - 1 then Pow2(i - 1) else 0
  }

  lemma {:induction false} SettledBelow(p: seq<nat>, i: nat)
    requires i <= |p|
    ensures Settled(p, i) < Pow2(i)
  {
    if i > 0 { SettledBelow(p, i - 1); }
  }

  lemma {:induction false} SettledFrom(p: seq<nat>, q: seq<nat>, f: nat, i: nat)
    requires f < i <= |p| == |q| && q[f] == f && p[f] != f && forall j :: f < j < |p| ==> q[j] == p[j]
    ensures Settled(q, i) > Settled(p, i)
    decreases i
  {
    if i == f + 1 {
      SettledBelow(p, f);
    } else {
      SettledFrom(p, q, f, i - 1);
    }
  }

  /** Putting `f` into its place outweighs whatever leaves its own in front of it. */
  lemma FlipSettles(p: seq<nat>, q: seq<nat>, f: nat)
    requires 0 < f < |p| == |q| && q[f] == f && p[f] != f && forall j :: f < j < |p| ==> q[j] == p[j]
    ensures Settled(p, |p|) < Settled(q, |p|) < Pow2(|p|)
  {
    SettledFrom(p, q, f, |p|);
    SettledBelow(q, |p|);
  }

  lemma ReverseSettles(p: seq<nat>)
    requires IsPermutation(p) && p != [] && p[0] > 0
    ensures Settled(p, |p|) < Settled(Reverse(p, p[0]), |p|) < Pow2(|p|)
  {
    FlipSettles(p, Reverse(p, p[0]), p[0]);
  }

  /** The number of flips until the first value is 0. */
  function Flips(p: seq<nat>): nat
    requires IsPermutation(p) && p != []
    decreases Pow2(|p|) - Settled(p, |p|)
  {
    SettledBelow(p, |p|);
    if p[0] == 0 then 0
    else
      ReverseKeeps(p, p[0]);
      ReverseSettles(p);
      1 + Flips(Reverse(p, p[0]))
  }

  /** The permutation after `j` flips, each of as many places as its first value says. */
  function Flipped(p: seq<nat>, j: nat): (q: seq<nat>)
    requires IsPermutation(p) && p != []
    ensures IsPermutation(q) && |q| == |p|
  {
    if j == 0 then p
    else
      var q := Flipped(p, j - 1);
      ReverseKeeps(q, q[0]);
      Reverse(q, q[0])
  }

  /** The flip count is the first number of flips after which 0 is in front. */
  lemma {:induction false} FlipsIsFirst(p: seq<nat>)
    requires IsPermutation(p) && p != []
    ensures Flipped(p, Flips(p))[0] == 0 && forall j :: 0 <= j < Flips(p) ==> Flipped(p, j)[0] != 0
    decreases Pow2(|p|) - Settled(p, |p|)
  {
    hide Settled, Reverse;
    SettledBelow(p, |p|);
    if p[0] != 0 {
      ReverseKeeps(p, p[0]);
      ReverseSettles(p);
      var q := Reverse(p, p[0]);
      FlipsIsFirst(q);
      FlippedFirst(p, Flips(q));
      forall j | 0 <= j < Flips(p) ensures Flipped(p, j)[0] != 0 {
        if j > 0 { FlippedFirst(p, j - 1); }
      }
    }
  }

  lemma {:induction false} FlippedFirst(p: seq<nat>, j: nat)
    requires IsPermutation(p) && p != []
    ensures IsPermutation(Reverse(p, p[0])) && Flipped(p, j + 1) == Flipped(Reverse(p, p[0]), j)
  {
    hide Reverse;
    ReverseKeeps(p, p[0]);
    if j > 0 {
      FlippedFirst(p, j - 1);
    } else {
      assert Flipped(p, 0) == p;
    }
  }

  // ----- the form with bounded swaps -----

  const SWAPS: nat := 15

  /** How many pairs the swap loop exchanges for the first value `f`: at most fifteen. */
  function Swapped(f: nat): nat {
    if f <= 2 then 0 else if (f - 1) / 2 < SWAPS then (f - 1) / 2 else SWAPS
  }

  /** One round: the first value goes to its place, and the outer pairs in between are exchanged. */
  function BoundedFlip(p: seq<nat>): (q: seq<nat>)
    requires p != [] && p[0] < |p|
    ensures |q| == |p|
  {
    var f, s := p[0], Swapped(p[0]);
    seq(|p|, j requires 0 <= j < |p| =>
      if j == 0 then p[f] else if j == f then f
      else if 1 <= j <= s || f - s <= j < f then p[f - j] else p[j])
  }

  /** Where the value at place `j` after a round comes from. */
  function Source(f: nat, s: nat, j: nat): int {
    if j == 0 then f else if j == f then 0 else if 1 <= j <= s || f - s <= j < f then f - j else j
  }

  lemma SourcesDiffer(f: nat, s: nat, i: nat, j: nat)
    requires i != j && (s == 0 || 2 * s < f)
    ensures Source(f, s, i) != Source(f, s, j) && Source(f, s, i) >= 0 && Source(f, s, j) >= 0
    ensures Source(f, s, i) <= i || Source(f, s, i) <= f
  {
  }

  lemma BoundedKeeps(p: seq<nat>)
    requires IsPermutation(p) && p != []
    ensures IsPermutation(BoundedFlip(p))
    ensures p[0] > 0 ==> Settled(p, |p|) < Settled(BoundedFlip(p), |p|) < Pow2(|p|)
  {
    var f, s := p[0], Swapped(p[0]);
    var q := BoundedFlip(p);
    assert f < |p| && (s == 0 || 2 * s < f);
    if f > 0 {
      assert p[f] != p[0];
      FlipSettles(p, q, f);
    }
    hide Settled, Pow2;
    BoundedSources(p);
    hide BoundedFlip;
    forall i, j | 0 <= i < j < |q| ensures q[i] != q[j] {
      SourcesDiffer(f, s, i, j);
      SourcesDiffer(f, s, j, i);
    }
    forall i | 0 <= i < |q| ensures q[i] < |q| {
      SourcesDiffer(f, s, i, i + 1);
    }
  }

  lemma BoundedSources(p: seq<nat>)
    requires p != [] && p[0] < |p|
    ensures forall j :: 0 <= j < |p| ==>
              && 0 <= Source(p[0], Swapped(p[0]), j) < |p|
              && BoundedFlip(p)[j] == if j == p[0] then p[0] else p[Source(p[0], Swapped(p[0]), j)]
    ensures BoundedFlip(p)[p[0]] == p[Source(p[0], Swapped(p[0]), p[0])]
  {
  }

  /** The number of rounds, the first one included, until the value that would come first is 0. */
  function BoundedFlips(p: seq<nat>): nat
    requires IsPermutation(p) && p != [] && p[0] > 0
    decreases Pow2(|p|) - Settled(p, |p|)
  {
    BoundedKeeps(p);
    if p[p[0]] == 0 then 1 else 1 + BoundedFlips(BoundedFlip(p))
  }

  lemma ShortFlip(p: seq<nat>)
    requires IsPermutation(p) && p != [] && |p| <= 2 * SWAPS + 3
    ensures BoundedFlip(p) == Reverse(p, p[0])
  {
  }

  /** Up to length 33 the bounded form counts the flips. */
  lemma {:induction false} BoundedIsPlain(p: seq<nat>)
    requires IsPermutation(p) && p != [] && p[0] > 0 && |p| <= 2 * SWAPS + 3
    ensures BoundedFlips(p) == Flips(p)
    decreases Pow2(|p|) - Settled(p, |p|)
  {
    BoundedKeeps(p);
    ShortFlip(p);
    if p[p[0]] != 0 { BoundedIsPlain(BoundedFlip(p)); }
  }

  /** Above that, it miscounts this one. */
  function TooLong(n: nat): (p: seq<nat>)
    requires n > 2 * SWAPS + 3
    ensures |p| == n
  {
    seq(n, j => if j == 0 then 33 else if j == 33 then 16 else if j == 16 then 0 else j)
  }

  lemma LongMiscounted(n: nat)
    requires n > 2 * SWAPS + 3
    ensures IsPermutation(TooLong(n)) && BoundedFlips(TooLong(n)) == 2 < Flips(TooLong(n))
  {
    var p := TooLong(n);
    BoundedKeeps(p);
    ReverseKeeps(p, 33);
    ReverseSettles(p);
    var b, q := BoundedFlip(p), Reverse(p, 33);
    assert b[0] == 16 && b[16] == 0;
    assert BoundedFlips(p) == 1 + BoundedFlips(b) == 2;
    assert q[0] == 16 && q[16] == 17;
    ReverseKeeps(q, 16);
    ReverseSettles(q);
    var r := Reverse(q, 16);
    assert r[0] == 17;
    ReverseKeeps(r, 17);
    ReverseSettles(r);
    assert Flips(p) == 1 + Flips(q) && Flips(q) == 1 + Flips(r) && Flips(r) >= 1;
  }

  /** Fifteen swaps are enough for all permutations of a length exactly up to 33. */
  lemma EnoughSwaps(n: nat)
    requires n > 0
    ensures n <= 33 <==> forall p :: IsPermutation(p) && |p| == n && p[0] > 0 ==> BoundedFlips(p) == Flips(p)
  {
    if n <= 33 {
      forall p | IsPermutation(p) && |p| == n && p[0] > 0 ensures BoundedFlips(p) == Flips(p) { BoundedIsPlain(p); }
    } else {
      LongMiscounted(n);
    }
  }
}
