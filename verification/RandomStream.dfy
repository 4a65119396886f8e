/**
  The stream of random numbers: the number after any count of draws in closed form, and the length of its period,
  which is as long as it can be from every seed.
*/
module RandomStream {
  import opened Division
  import opened Fasta
  import opened FastaSafety
  import opened FastaRuns
  import opened Revcomp

  function Power(a: nat, n: nat): nat {
    if n == 0 then 1 else a * Power(a, n - 1)
  }

  /** 1 + a + ... + a^(n-1) */
  function Geometric(a: nat, n: nat): nat {
    if n == 0 then 0 else Geometric(a, n - 1) + Power(a, n - 1)
  }

  // ----- remainders -----

  lemma AddMultiple(x: int, q: int, m: nat)
    requires m > 0
    ensures (x + q * m) % m == x % m
  {
    DivBounds(x, m);
    DivShift(x, m, -q);
    assert x - (-q) * m == x + q * m;
    MulDistributes(x / m, q, m);
    assert x == (x / m) * m + x % m;
    assert x + q * m == ((x + q * m) / m) * m + (x + q * m) % m;
  }

  /** What a remainder of zero means. */
  lemma Multiple(x: nat, m: nat) returns (q: nat)
    requires m > 0 && x % m == 0
    ensures x == q * m
  {
    q := x / m;
    assert x == (x / m) * m + x % m;
  }

  lemma MultipleOf(q: nat, m: nat)
    requires m > 0
    ensures (q * m) % m == 0
  {
    AddMultiple(0, q, m);
  }

  lemma FactorMultiple(x: nat, y: nat, m: nat)
    requires m > 0 && x % m == 0
    ensures (x * y) % m == 0 && (y * x) % m == 0
  {
    var q := Multiple(x, m);
    MulAssociative(y, q, m);
    MultipleOf(y * q, m);
    assert x * y == y * x == y * (q * m);
  }

  /** A common factor makes no difference. */
  lemma ScaleMultiple(p: nat, x: nat, m: nat)
    requires p > 0 && m > 0
    ensures p * m > 0 && ((p * x) % (p * m) == 0 <==> x % m == 0)
  {
    MulLess(0, p, m);
    if x % m == 0 {
      var q := Multiple(x, m);
      assert p * (q * m) == q * (p * m);
      MultipleOf(q, p * m);
    }
    if (p * x) % (p * m) == 0 {
      var q := Multiple(p * x, p * m);
      assert q * (p * m) == p * (q * m);
      SameFactor(p, x, q * m);
      MultipleOf(q, m);
    }
  }

  lemma SameFactor(p: nat, x: nat, y: nat)
    requires p > 0 && p * x == p * y
    ensures x == y
  {
    if x < y { MulLess(x, y, p); }
    if y < x { MulLess(y, x, p); }
  }

  // ----- the closed form -----

  lemma StepRemainder(x: nat)
    ensures ((x % IM) * IA + IC) % IM == (x * IA + IC) % IM
  {
    assert x == (x / IM) * IM + x % IM;
    AddMultiple((x % IM) * IA + IC, (x / IM) * IA, IM);
  }

  /** Geometric sums from the other end. */
  lemma {:induction false} GeometricStep(a: nat, n: nat)
    ensures Geometric(a, n + 1) == a * Geometric(a, n) + 1
  {
    if n > 0 {
      GeometricStep(a, n - 1);
      SumOfProducts(a, Geometric(a, n - 1), Power(a, n - 1));
      assert Power(a, n) == a * Power(a, n - 1);
    } else {
      assert Geometric(a, 1) == Geometric(a, 0) + Power(a, 0);
    }
  }

  /** The number after `i` draws: a power and a geometric sum of the multiplier, modulo 2^6 * 3^7. */
  lemma {:induction false} DrawsInClosedForm(seed: nat, i: nat)
    requires i > 0
    ensures SeedAt(seed, i) == (Power(3877, i) * seed + 29573 * Geometric(3877, i)) % 139968
  {
    var p, g := Power(3877, i - 1), Geometric(3877, i - 1);
    GeometricStep(3877, i - 1);
    if i > 1 {
      DrawsInClosedForm(seed, i - 1);
      StepRemainder(p * seed + 29573 * g);
      NextForm(p, g, seed);
    } else {
      assert SeedAt(seed, 1) == Lcg(SeedAt(seed, 0));
      assert p == 1 && g == 0;
      assert Power(3877, 1) == 3877;
    }
  }

  lemma NextForm(p: nat, g: nat, seed: nat)
    ensures (p * seed + 29573 * g) * 3877 + 29573 == (3877 * p) * seed + 29573 * (3877 * g + 1)
  {
  }

  // ----- cancelling factors prime to 2 or 3 -----

  lemma RightRemainder(m: nat, s: nat, x: nat)
    requires m > 0
    ensures (s * x) % m == (s * (x % m)) % m
  {
    var b, r := x / m, x % m;
    assert x == b * m + r;
    SumOfProducts(s, b * m, r);
    MulAssociative(s, b, m);
    AddMultiple(s * r, s * b, m);
  }

  lemma ProductRemainder(p: nat, u: nat, x: nat)
    requires p > 0
    ensures (u * x) % p == ((u % p) * (x % p)) % p
  {
    RightRemainder(p, u, x);
    RightRemainder(p, x % p, u);
    Commutes(u, x % p);
    Commutes(u % p, x % p);
  }

  lemma Commutes(a: nat, b: nat)
    ensures a * b == b * a
  {
  }

  lemma SumOfProducts(a: nat, b: nat, c: nat)
    ensures a * (b + c) == a * b + a * c
  {
  }

  lemma PrimeCancels(p: nat, u: nat, x: nat)
    requires (p == 2 || p == 3) && u % p != 0 && (u * x) % p == 0
    ensures x % p == 0
  {
    ProductRemainder(p, u, x);
    var s, r := u % p, x % p;
    if s == 1 { assert s * r == r; } else { assert s == 2 && s * r == 2 * r; }
  }

  /** A factor that `p` does not divide can be dropped when dividing by a power of `p`. */
  lemma {:induction false} FactorCancels(p: nat, e: nat, u: nat, x: nat)
    requires (p == 2 || p == 3) && u % p != 0
    ensures Power(p, e) > 0 && ((u * x) % Power(p, e) == 0 <==> x % Power(p, e) == 0)
    decreases e
  {
    PowerPositive(p, e);
    if x % Power(p, e) == 0 {
      FactorMultiple(x, u, Power(p, e));
    }
    if e > 0 && (u * x) % Power(p, e) == 0 {
      var m := Power(p, e - 1);
      PowerPositive(p, e - 1);
      var y := CancelOnce(p, m, u, x);
      FactorCancels(p, e - 1, u, y);
      ScaleMultiple(p, y, m);
    }
  }

  lemma CancelOnce(p: nat, m: nat, u: nat, x: nat) returns (y: nat)
    requires (p == 2 || p == 3) && u % p != 0 && m > 0 && p * m > 0 && (u * x) % (p * m) == 0
    ensures x == p * y && (u * y) % m == 0
  {
    DividesBoth(p, m, u * x);
    PrimeCancels(p, u, x);
    y := Multiple(x, p);
    Commutes(y, p);
    MulAssociative(u, y, p);
    Commutes(u * y, p);
    ScaleMultiple(p, u * y, m);
  }

  lemma {:induction false} PowerPositive(p: nat, e: nat)
    requires p > 0
    ensures Power(p, e) > 0
  {
    if e > 0 {
      PowerPositive(p, e - 1);
      MulLess(0, Power(p, e - 1), p);
    }
  }

  // ----- which geometric sums a power of 2 or 3 divides -----

  /** The first `p` summands, and what the base becomes when summands are taken `p` at a time. */
  function Block(p: nat, b: nat): nat {
    if p == 2 then 1 + b else 1 + b + b * b
  }

  function Raised(p: nat, b: nat): nat {
    if p == 2 then b * b else b * b * b
  }

  lemma PowerSteps(b: nat, n: nat)
    ensures Power(b, n + 1) == b * Power(b, n)
    ensures Power(b, n + 2) == (b * b) * Power(b, n)
    ensures Power(b, n + 3) == (b * b * b) * Power(b, n)
  {
    var w := Power(b, n);
    assert Power(b, n + 2) == b * Power(b, n + 1) && Power(b, n + 3) == b * Power(b, n + 2);
    MulAssociative(b, b, w);
    MulAssociative(b, b * b, w);
    assert b * (b * b) == b * b * b;
  }

  lemma {:induction false} PowerByBlocks(p: nat, b: nat, k: nat)
    requires p == 2 || p == 3
    ensures Power(b, p * k) == Power(Raised(p, b), k)
  {
    if k > 0 {
      PowerByBlocks(p, b, k - 1);
      hide Power;
      PowerSteps(b, p * (k - 1));
      PowerSteps(Raised(p, b), k - 1);
      OneMoreBlock(p, k);
    } else {
      assert p * k == 0;
    }
  }

  lemma OneMoreBlock(p: nat, k: nat)
    requires k > 0
    ensures p * k == p * (k - 1) + p
  {
  }

  lemma GeometricSteps(b: nat, n: nat)
    ensures Geometric(b, n + 2) == Geometric(b, n) + Block(2, b) * Power(b, n)
    ensures Geometric(b, n + 3) == Geometric(b, n) + Block(3, b) * Power(b, n)
  {
    var w := Power(b, n);
    PowerSteps(b, n);
    assert Geometric(b, n + 1) == Geometric(b, n) + w;
    assert Geometric(b, n + 2) == Geometric(b, n + 1) + b * w;
    assert Geometric(b, n + 3) == Geometric(b, n + 2) + (b * b) * w;
    MulDistributes(1, b, w);
    MulDistributes(1 + b, b * b, w);
  }

  lemma {:induction false} GeometricByBlocks(p: nat, b: nat, k: nat)
    requires p == 2 || p == 3
    ensures Geometric(b, p * k) == Block(p, b) * Geometric(Raised(p, b), k)
  {
    hide Power, Block, Raised;
    if k > 0 {
      GeometricByBlocks(p, b, k - 1);
      NextSum(b, p, k);
      SumOfProducts(Block(p, b), Geometric(Raised(p, b), k - 1), Power(Raised(p, b), k - 1));
    } else {
      assert p * k == 0;
    }
  }

  lemma NextSum(b: nat, p: nat, k: nat)
    requires (p == 2 || p == 3) && k > 0
    ensures Geometric(b, p * k) == Geometric(b, p * (k - 1)) + Block(p, b) * Power(Raised(p, b), k - 1)
  {
    hide Geometric, Power, Block, Raised;
    OneMoreBlock(p, k);
    GeometricSteps(b, p * (k - 1));
    PowerByBlocks(p, b, k - 1);
  }

  lemma {:induction false} PowerRemainder(p: nat, b: nat, n: nat)
    requires (p == 2 || p == 3) && b % p == 1
    ensures Power(b, n) % p == 1
  {
    if n > 0 {
      PowerRemainder(p, b, n - 1);
      ProductRemainder(p, b, Power(b, n - 1));
    }
  }

  lemma {:induction false} GeometricRemainder(p: nat, b: nat, n: nat)
    requires (p == 2 || p == 3) && b % p == 1
    ensures Geometric(b, n) % p == n % p
  {
    if n > 0 {
      GeometricRemainder(p, b, n - 1);
      PowerRemainder(p, b, n - 1);
      OneMore(p, Geometric(b, n - 1), Power(b, n - 1), n - 1);
    }
  }

  lemma OneMore(p: nat, x: nat, y: nat, n: nat)
    requires (p == 2 || p == 3) && x % p == n % p && y % p == 1
    ensures (x + y) % p == (n + 1) % p
  {
    if p == 2 {} else {}
  }

  /** Bases for which the first `p` summands hold the factor `p` just once. */
  predicate Suitable(p: nat, b: nat) {
    (p == 2 && b % 4 == 1) || (p == 3 && b % 3 == 1)
  }

  lemma SquareOf(d: nat, t: nat)
    requires d == 3 || d == 4
    ensures (d * t + 1) * (d * t + 1) == d * (d * (t * t) + 2 * t) + 1
  {
  }

  lemma SuitableTwo(t: nat)
    ensures Block(2, 4 * t + 1) == 2 * (2 * t + 1) && (2 * t + 1) % 2 == 1
    ensures Raised(2, 4 * t + 1) % 4 == 1
  {
    SquareOf(4, t);
    DivModOf(4 * (t * t) + 2 * t, 4, 1);
  }

  lemma SuitableThree(t: nat)
    ensures Block(3, 3 * t + 1) == 3 * (1 + 3 * (t + t * t)) && (1 + 3 * (t + t * t)) % 3 == 1
    ensures Raised(3, 3 * t + 1) % 3 == 1
  {
    var b := 3 * t + 1;
    SquareOf(3, t);
    DivModOf(3 * (t * t) + 2 * t, 3, 1);
    ProductRemainder(3, b * b, b);
    DivModOf(t, 3, 1);
    DivModOf(t + t * t, 3, 1);
  }

  lemma SuitableBlock(p: nat, b: nat) returns (u: nat)
    requires Suitable(p, b)
    ensures Block(p, b) == p * u && u % p != 0 && Suitable(p, Raised(p, b))
  {
    hide Block, Raised;
    if p == 2 {
      SuitableTwo(b / 4);
      u := 2 * (b / 4) + 1;
    } else {
      SuitableThree(b / 3);
      u := 1 + 3 * (b / 3 + (b / 3) * (b / 3));
    }
  }

  /** A power of `p` divides the sum of the first `i` powers exactly when it divides `i`. */
  lemma {:induction false} Lifting(p: nat, e: nat, b: nat, i: nat)
    requires Suitable(p, b)
    ensures Power(p, e) > 0 && (Geometric(b, i) % Power(p, e) == 0 <==> i % Power(p, e) == 0)
    decreases e
  {
    PowerPositive(p, e);
    if e > 0 {
      var m := Power(p, e - 1);
      PowerPositive(p, e - 1);
      SuitableBase(p, b);
      GeometricRemainder(p, b, i);
      hide Power, Geometric, Suitable, Raised;
      assert Power(p, e) == p * m by { PowerSteps(p, e - 1); }
      if i % p == 0 {
        var k := Multiple(i, p);
        var u := SuitableBlock(p, b);
        Lifting(p, e - 1, Raised(p, b), k);
        LiftOnce(p, e, m, b, i, k, u);
      } else {
        if i % (p * m) == 0 { DividesBoth(p, m, i); }
        if Geometric(b, i) % (p * m) == 0 { DividesBoth(p, m, Geometric(b, i)); }
      }
    }
  }

  lemma SuitableBase(p: nat, b: nat)
    requires Suitable(p, b)
    ensures (p == 2 || p == 3) && b % p == 1
  {
  }

  /** From `k` summands of the raised base to `p * k` of the base: one more factor `p` on both sides. */
  lemma LiftOnce(p: nat, e: nat, m: nat, b: nat, i: nat, k: nat, u: nat)
    requires e > 0 && (p == 2 || p == 3) && i == k * p && Block(p, b) == p * u && u % p != 0
    requires m == Power(p, e - 1) > 0 && p * m > 0
    requires Geometric(Raised(p, b), k) % m == 0 <==> k % m == 0
    ensures Geometric(b, i) % (p * m) == 0 <==> i % (p * m) == 0
  {
    hide Power, Geometric, Raised, Block;
    var g := Geometric(Raised(p, b), k);
    GeometricByBlocks(p, b, k);
    assert k * p == p * k;
    MulAssociative(p, u, g);
    ScaleMultiple(p, u * g, m);
    ScaleMultiple(p, k, m);
    FactorCancels(p, e - 1, u, g);
  }

  lemma DividesBoth(p: nat, m: nat, x: nat)
    requires p > 0 && m > 0 && p * m > 0 && x % (p * m) == 0
    ensures x % p == 0
  {
    var q := Multiple(x, p * m);
    assert q * (p * m) == (q * m) * p;
    MultipleOf(q * m, p);
  }

  // ----- the period -----

  lemma {:induction false} PowerOfGeometric(a: nat, n: nat)
    requires a > 0
    ensures Power(a, n) == (a - 1) * Geometric(a, n) + 1
  {
    if n > 0 {
      PowerOfGeometric(a, n - 1);
      GeometricStep(a, n - 1);
      NextPower(a - 1, Geometric(a, n - 1));
    }
  }

  lemma NextPower(c: nat, g: nat)
    ensures (c + 1) * (c * g + 1) == c * ((c + 1) * g + 1) + 1
  {
    MulDistributes(c, 1, c * g + 1);
    MulAssociative(c, c, g);
    MulDistributes(c, 1, g);
  }

  lemma TwoPrimes()
    ensures Power(2, 6) == 64 && Power(3, 7) == 2187
  {
    assert Power(2, 3) == 2 * Power(2, 2) && Power(2, 2) == 2 * Power(2, 1) && Power(2, 1) == 2 * Power(2, 0);
    assert Power(3, 3) == 3 * Power(3, 2) && Power(3, 2) == 3 * Power(3, 1) && Power(3, 1) == 3 * Power(3, 0);
  }

  /** Both prime powers divide a number exactly when their product, the modulus, does. */
  lemma DividesModulus(x: nat)
    ensures x % 139968 == 0 <==> x % 64 == 0 && x % 2187 == 0
  {
    if x % 64 == 0 && x % 2187 == 0 {
      var y := Multiple(x, 64);
      TwoPrimes();
      FactorCancels(3, 7, 64, y);
      var z := Multiple(y, 2187);
      assert x == z * 139968;
      MultipleOf(z, 139968);
    }
    if x % 139968 == 0 {
      var z := Multiple(x, 139968);
      assert x == (z * 2187) * 64 == (z * 64) * 2187;
      MultipleOf(z * 2187, 64);
      MultipleOf(z * 64, 2187);
    }
  }

  /** From every seed the stream comes back to it after exactly 139968 draws, and after no fewer. */
  lemma FullPeriod(seed: nat, i: nat)
    requires seed < 139968
    ensures SeedAt(seed, i) == seed <==> i % 139968 == 0
  {
    hide Power, Geometric, SeedAt;
    if i == 0 {
      NoDraws(seed);
    } else {
      var g := Geometric(3877, i);
      DrawsInClosedForm(seed, i);
      PowerOfGeometric(3877, i);
      SplitOff(g, seed);
      ReturnsIf(seed, g * (3876 * seed + 29573));
      FactorOfModulus(3876 * seed + 29573, g);
      SumOfModulus(i);
    }
  }

  lemma NoDraws(seed: nat)
    ensures SeedAt(seed, 0) == seed
  {
  }

  lemma FactorOfModulus(t: nat, g: nat)
    requires t % 2 != 0 && t % 3 != 0
    ensures (g * t) % 139968 == 0 <==> g % 139968 == 0
  {
    Commutes(g, t);
    TwoPrimes();
    FactorCancels(2, 6, t, g);
    FactorCancels(3, 7, t, g);
    DividesModulus(g * t);
    DividesModulus(g);
  }

  /** The modulus divides the sum of the first `i` powers of the multiplier exactly when it divides `i`. */
  lemma SumOfModulus(i: nat)
    ensures Geometric(3877, i) % 139968 == 0 <==> i % 139968 == 0
  {
    hide Geometric;
    TwoPrimes();
    Lifting(2, 6, 3877, i);
    Lifting(3, 7, 3877, i);
    DividesModulus(Geometric(3877, i));
    DividesModulus(i);
  }

  lemma SplitOff(g: nat, seed: nat)
    ensures (3876 * g + 1) * seed + 29573 * g == seed + g * (3876 * seed + 29573)
  {
  }

  lemma ReturnsIf(seed: nat, x: nat)
    requires seed < 139968
    ensures (seed + x) % 139968 == seed <==> x % 139968 == 0
  {
  }

  lemma {:induction false} LaterDraws(seed: nat, i: nat, j: nat)
    ensures SeedAt(SeedAt(seed, i), j) == SeedAt(seed, i + j)
  {
    if j > 0 { LaterDraws(seed, i, j - 1); }
  }

  /** Within one period no number is drawn twice. */
  lemma DrawsDistinct(seed: nat, i: nat, j: nat)
    requires seed < 139968 && i < j < i + 139968
    ensures SeedAt(seed, i) != SeedAt(seed, j)
  {
    assert SeedAt(seed, i) < 139968;
    LaterDraws(seed, i, j - i);
    FullPeriod(SeedAt(seed, i), j - i);
  }

  // ----- what is written -----

  /** Letter number `i` of the text, counted without line feeds, is the one that its draw selects. */
  lemma LetterWritten(p: Params, i: nat)
    requires i < p.n
    ensures i + i / 60 < |SequentialText(p)|
    ensures SequentialText(p)[i + i / 60] ==
            p.letter((Power(3877, i + 1) * p.seed + 29573 * Geometric(3877, i + 1)) % 139968)
  {
    hide Wrap, SeedAt, Power, Geometric;
    WrapAt(Letters(p, 0, p.n), i / 60, i % 60);
    assert i + i / 60 == (WIDTH + 1) * (i / 60) + i % 60;
    DrawsInClosedForm(p.seed, i + 1);
  }

  /** The same of what any finished schedule of the threads has written. */
  lemma LetterWrittenInParallel(p: Params, s: State, schedule: seq<nat>, s': State, i: nat)
    requires Initial(p, s) && Reaches(p, s, schedule, s') && s'.main.Done? && i < p.n
    ensures i + i / 60 < |s'.out|
    ensures s'.out[i + i / 60] ==
            p.letter((Power(3877, i + 1) * p.seed + 29573 * Geometric(3877, i + 1)) % 139968)
  {
    ParallelIsSequential(p, s, schedule, s');
    LetterWritten(p, i);
  }
}
