/** Triangular probing on a table whose size is a power of two. */
module Probing {

  predicate IsPow2(n: nat) {
    n == 1 || (n > 0 && n % 2 == 0 && IsPow2(n / 2))
  }

  function Triangle(s: nat): nat {
    if s == 0 then 0 else Triangle(s - 1) + s
  }

  /** The bucket looked at after `s` steps: each step advances by one more than the step before. */
  function Probe(h: nat, s: nat, n: nat): (i: nat)
    requires n > 0
    ensures i < n
  {
    (h + Triangle(s)) % n
  }

  lemma QuotientUnique(n: int, q: int, r: int, q': int, r': int)
    requires 0 <= r < n && 0 <= r' < n && n * q + r == n * q' + r'
    ensures q == q' && r == r'
  {
    if q > q' {
      MulMonotone(n, q', q);
    } else if q < q' {
      MulMonotone(n, q, q');
    }
  }

  lemma MulMonotone(n: int, a: int, b: int)
    requires 0 <= n && a < b
    ensures n * a + n <= n * b
  {
    assert n * (b - a - 1) >= 0;
    assert n * b == n * a + n + n * (b - a - 1);
  }

  lemma ModUnique(a: int, n: nat, q: int, r: nat)
    requires r < n && a == n * q + r
    ensures a / n == q && a % n == r
  {
    QuotientUnique(n, q, r, a / n, a % n);
  }

  lemma ModMultiple(a: int, q: int, n: nat)
    requires n > 0
    ensures (a + n * q) % n == a % n
  {
    assert a == n * (a / n) + a % n;
    assert n * (a / n + q) == n * (a / n) + n * q;
    ModUnique(a + n * q, n, a / n + q, a % n);
  }

  lemma ModAdd(a: int, b: int, n: nat)
    requires n > 0
    ensures (a % n + b) % n == (a + b) % n
  {
    assert a == n * (a / n) + a % n;
    ModMultiple(a % n + b, a / n, n);
  }

  lemma ProbeStep(h: nat, s: nat, n: nat)
    requires n > 0
    ensures Probe(h, s + 1, n) == (Probe(h, s, n) + (s + 1)) % n
  {
    ModAdd(h + Triangle(s), s + 1, n);
    assert h + Triangle(s + 1) == h + Triangle(s) + (s + 1);
  }

  lemma {:induction false} TriangleClosed(s: nat)
    ensures 2 * Triangle(s) == s * (s + 1)
  {
    if s > 0 {
      TriangleClosed(s - 1);
    }
  }

  /** An odd factor can be dropped when dividing by a power of two. */
  lemma {:induction false} OddFactor(m: nat, a: int, b: int, q: int) returns (r: int)
    requires IsPow2(m) && a % 2 == 1 && a * b == m * q
    ensures b == m * r
    decreases m
  {
    if m == 1 {
      r := b;
    } else {
      var c, half := a / 2, m / 2;
      var b' := half * q - c * b;
      assert a == 2 * c + 1 && m == 2 * half;
      assert b == a * b - 2 * (c * b) by { assert (2 * c + 1) * b == 2 * (c * b) + b; }
      assert m * q == 2 * (half * q) by { assert (2 * half) * q == 2 * (half * q); }
      assert b == 2 * b';
      assert 2 * (a * b') == a * b by { assert a * (2 * b') == 2 * (a * b'); }
      r := OddFactor(half, a, b', q);
      assert m * r == 2 * (half * r) by { assert (2 * half) * r == 2 * (half * r); }
    }
  }

  /** A positive multiple is no smaller than what it is a multiple of. */
  lemma LeastMultiple(m: nat, x: int, r: int)
    requires 0 < x && x == m * r
    ensures x >= m
  {
    if r >= 1 {
      MulMonotone(m, 0, r);
    } else if r < 0 {
      MulMonotone(m, r, 0);
    }
  }

  lemma DifferenceOfProducts(s: int, t: int)
    ensures (t - s) * (t + s + 1) == t * (t + 1) - s * (s + 1)
  {
  }

  lemma EqualMods(a: int, b: int, n: nat) returns (q: int)
    requires n > 0 && a % n == b % n
    ensures b - a == n * q
  {
    q := b / n - a / n;
    assert a == n * (a / n) + a % n && b == n * (b / n) + b % n;
    assert n * q == n * (b / n) - n * (a / n);
  }

  /** Two probes that meet have step counts whose difference, or whose sum plus one, is a multiple of twice the size. */
  lemma Meeting(h: nat, s: nat, t: nat, n: nat) returns (r: int)
    requires IsPow2(n) && s < t && Probe(h, s, n) == Probe(h, t, n)
    ensures t - s == (2 * n) * r || t + s + 1 == (2 * n) * r
  {
    var q := EqualMods(h + Triangle(s), h + Triangle(t), n);
    TriangleClosed(s);
    TriangleClosed(t);
    r := OddAndEven(s, t, n, q);
  }

  lemma OddAndEven(s: nat, t: nat, n: nat, q: int) returns (r: int)
    requires IsPow2(n) && s < t && t * (t + 1) - s * (s + 1) == 2 * (n * q)
    ensures t - s == (2 * n) * r || t + s + 1 == (2 * n) * r
  {
    var x, y := t - s, t + s + 1;
    DifferenceOfProducts(s, t);
    assert (2 * n) * q == 2 * (n * q);
    assert IsPow2(2 * n);
    if x % 2 == 1 {
      r := OddFactor(2 * n, x, y, q);
    } else {
      assert y == x + 2 * s + 1;
      r := OddFactor(2 * n, y, x, q);
    }
  }

  /** The first `n` probes are pairwise different. */
  lemma ProbesDistinct(h: nat, s: nat, t: nat, n: nat)
    requires IsPow2(n) && s < t < n
    ensures Probe(h, s, n) != Probe(h, t, n)
  {
    if Probe(h, s, n) == Probe(h, t, n) {
      var r := Meeting(h, s, t, n);
      LeastMultiple(2 * n, if t - s == (2 * n) * r then t - s else t + s + 1, r);
    }
  }

  /** Probing is back at its first bucket after exactly 2n - 1 steps, and not before. */
  lemma FirstReturn(h: nat, n: nat)
    requires IsPow2(n)
    ensures Probe(h, 2 * n - 1, n) == Probe(h, 0, n)
    ensures forall s :: 0 < s < 2 * n - 1 ==> Probe(h, s, n) != Probe(h, 0, n)
  {
    TriangleClosed(2 * n - 1);
    assert 2 * Triangle(2 * n - 1) == 2 * ((2 * n - 1) * n);
    assert Triangle(2 * n - 1) == n * (2 * n - 1);
    ModMultiple(h, 2 * n - 1, n);
    forall s | 0 < s < 2 * n - 1 ensures Probe(h, s, n) != Probe(h, 0, n) {
      if Probe(h, s, n) == Probe(h, 0, n) {
        var r := Meeting(h, 0, s, n);
        LeastMultiple(2 * n, if s == (2 * n) * r then s else s + 1, r);
      }
    }
  }

  ghost function Visited(h: nat, k: nat, n: nat): set<nat>
    requires n > 0
  {
    set s: nat | s < k :: Probe(h, s, n)
  }

  lemma {:induction false} VisitedSize(h: nat, k: nat, n: nat)
    requires IsPow2(n) && k <= n
    ensures |Visited(h, k, n)| == k
  {
    if k > 0 {
      VisitedSize(h, k - 1, n);
      assert Visited(h, k, n) == Visited(h, k - 1, n) + {Probe(h, k - 1, n)};
      forall s: nat | s < k - 1 ensures Probe(h, s, n) != Probe(h, k - 1, n) {
        ProbesDistinct(h, s, k - 1, n);
      }
    }
  }

  ghost function Buckets(n: nat): (bs: set<nat>)
    ensures forall i: nat :: i in bs <==> i < n
    ensures |bs| == n
  {
    if n == 0 then {} else Buckets(n - 1) + {n - 1}
  }

  lemma SubsetOfSameSize<X>(a: set<X>, b: set<X>)
    requires a <= b && |a| == |b|
    ensures a == b
  {
    assert b == a + (b - a);
    assert |b - a| == 0;
  }

  /** The first `n` probes visit every bucket. */
  lemma ProbesCover(h: nat, n: nat, x: nat) returns (s: nat)
    requires IsPow2(n) && x < n
    ensures s < n && Probe(h, s, n) == x
  {
    VisitedSize(h, n, n);
    SubsetOfSameSize(Visited(h, n, n), Buckets(n));
    assert x in Visited(h, n, n);
    s :| s < n && Probe(h, s, n) == x;
  }
}
