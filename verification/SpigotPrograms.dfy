/** The three spigot programs, which take digits out of the running fraction at different times. */
module SpigotPrograms {
  import opened Spigot
  import opened Division

  // ----- the running fraction -----

  /** The variables after `k` terms, once the digits `ds` have been taken out. */
  ghost predicate Holds(num: int, acc: int, den: int, k: nat, ds: seq<nat>) {
    var t, p := After(k), Pow10(|ds|);
    num == p * t.num && den == t.den && acc == p * t.acc - 10 * Value(ds) * t.den
  }

  lemma HoldsAtStart()
    ensures Holds(1, 0, 1, 0, [])
  {
  }

  lemma TermKeeps(num: int, acc: int, den: int, k: nat, ds: seq<nat>)
    requires Holds(num, acc, den, k, ds)
    ensures Holds(num * (k + 1), (acc + num * 2) * (2 * k + 3), den * (2 * k + 3), k + 1, ds)
  {
    var t, p, v, q := After(k), Pow10(|ds|), 10 * Value(ds), 2 * k + 3;
    assert After(k + 1) == Terms(t.num * (k + 1), (t.acc + 2 * t.num) * q, t.den * q);
    hide After, Pow10, Value;
    TermProducts(p, t.num, t.acc, t.den, v, k, q);
  }

  lemma TermProducts(p: int, n: int, a: int, d: int, v: int, k: int, q: int)
    ensures (p * n) * (k + 1) == p * (n * (k + 1))
    ensures (p * a - v * d + (p * n) * 2) * q == p * ((a + 2 * n) * q) - v * (d * q)
  {
    assert p * ((a + 2 * n) * q) == (p * (a + 2 * n)) * q;
    assert p * (a + 2 * n) == p * a + (p * n) * 2;
    assert v * (d * q) == (v * d) * q;
  }

  lemma TakingOutKeeps(num: int, acc: int, den: int, k: nat, ds: seq<nat>, d: nat)
    requires Holds(num, acc, den, k, ds)
    ensures Holds(num * 10, (acc - den * d) * 10, den, k, ds + [d])
  {
    var t, p, v := After(k), Pow10(|ds|), Value(ds);
    assert (ds + [d])[..|ds|] == ds;
    assert Value(ds + [d]) == 10 * v + d && Pow10(|ds + [d]|) == 10 * p;
    hide After, Pow10, Value;
    assert (p * t.num) * 10 == (10 * p) * t.num;
    TakeOutProducts(p, t.acc, t.den, v, d);
  }

  lemma TakeOutProducts(p: int, a: int, den: int, v: int, d: int)
    ensures (p * a - 10 * v * den - den * d) * 10 == (10 * p) * a - 10 * (10 * v + d) * den
  {
    assert 10 * (10 * v + d) * den == 100 * (v * den) + 10 * (d * den);
    assert 10 * v * den == 10 * (v * den) && (10 * p) * a == 10 * (p * a);
  }

  /** The two quotients are what the ends of the interval say about the next digit. */
  lemma Quotients(num: int, acc: int, den: int, k: nat, ds: seq<nat>)
    requires Holds(num, acc, den, k, ds) && Emitted(k, ds)
    ensures den > 0 && num >= 0 && 0 <= 3 * num + acc <= 4 * num + acc
    ensures (3 * num + acc) / den == NextDigit(k, ds)
    ensures (4 * num + acc) / den == LeadingHigh(k, |ds|) - 10 * Value(ds)
    ensures 0 <= (3 * num + acc) / den <= (4 * num + acc) / den <= 9
    ensures (3 * num + acc) / den == (4 * num + acc) / den <==> Settled(k, |ds|)
  {
    hide Emitted, Settled;
    NextDigitRange(k, ds);
    SettledMeans(k, ds);
    var t, p, v := After(k), Pow10(|ds|), 10 * Value(ds);
    assert 3 * num + acc == p * Low(k) - v * t.den && 4 * num + acc == p * High(k) - v * t.den by {
      EndProducts(p, t.num, t.acc);
    }
    assert num >= 0 by { MulOrder(0, t.num, p); }
    DivShift(p * Low(k), t.den, v);
    DivShift(p * High(k), t.den, v);
    hide After, Pow10, Value;
    assert 3 * num + acc >= 0 by { DivBounds(3 * num + acc, den); MulOrder(0, (3 * num + acc) / den, den); }
  }

  lemma SettledMeans(k: nat, ds: seq<nat>)
    ensures Settled(k, |ds|) <==> NextDigit(k, ds) == LeadingHigh(k, |ds|) - 10 * Value(ds)
  {
  }

  lemma EndProducts(p: int, n: int, a: int)
    ensures 3 * (p * n) + p * a == p * (3 * n + a) && 4 * (p * n) + p * a == p * (4 * n + a)
  {
  }

  // ----- the C and Julia programs: at most one digit a term -----

  /** The test that the numerator scale is at most the offset, in terms of the fractions. */
  predicate MayExtract(k: nat, ds: seq<nat>) {
    Pow10(|ds|) * After(k).num <= Pow10(|ds|) * After(k).acc - 10 * Value(ds) * After(k).den
  }

  /** The digits taken out in the first `k` terms, by a program that stops after `limit` digits. */
  ghost function OneATerm(limit: nat, k: nat): (ds: seq<nat>)
    ensures Emitted(k, ds) && |ds| <= limit
  {
    if k == 0 then []
    else
      var ds := OneATerm(limit, k - 1);
      EmittedLater(k - 1, k, ds);
      if |ds| < limit && MayExtract(k, ds) && Settled(k, |ds|) then
        EmitNext(k, ds);
        ds + [NextDigit(k, ds)]
      else ds
  }

  /** Truncating division, as for machine integers. */
  function Truncated(x: int, d: int): int
    requires d > 0
  {
    if x >= 0 then x / d else -((-x) / d)
  }

  const WORD: nat := 0x1_0000_0000

  class CSpigot {
    var acc: int
    var den: int
    var num: int

    constructor ()
      ensures acc == 0 && den == 1 && num == 1
    {
      acc, den, num := 0, 1, 1;
    }

    method ExtractDigit(nth: nat) returns (digit: nat)
      requires den > 0
      ensures 0 <= num * nth + acc && (num * nth + acc) / den < WORD ==> digit == (num * nth + acc) / den
    {
      var tmp1 := num * nth;
      var tmp2 := tmp1 + acc;
      tmp1 := Truncated(tmp2, den);
      digit := (if tmp1 >= 0 then tmp1 else -tmp1) % WORD;
    }

    method EliminateDigit(d: nat, ghost k: nat, ghost ds: seq<nat>)
      requires Holds(num, acc, den, k, ds)
      modifies this
      ensures Holds(num, acc, den, k, ds + [d])
    {
      TakingOutKeeps(num, acc, den, k, ds, d);
      acc := acc - den * d;
      acc := acc * 10;
      num := num * 10;
    }

    method NextTerm(k: nat, ghost ds: seq<nat>)
      requires k > 0 && 2 * k + 1 < WORD && Holds(num, acc, den, k - 1, ds)
      modifies this
      ensures Holds(num, acc, den, k, ds)
    {
      TermKeeps(num, acc, den, k - 1, ds);
      var k2 := (k * 2 + 1) % WORD;
      acc := acc + num * 2;
      acc := acc * k2;
      den := den * k2;
      num := num * k;
    }

    /** At most `fuel` rounds of the main loop; the bound is signed but compared as an unsigned word. */
    method Digits(n: int, fuel: nat) returns (digits: seq<nat>, k: nat)
      requires num == 1 && acc == 0 && den == 1 && -0x8000_0000 <= n < 0x8000_0000 && 2 * fuel + 1 < WORD
      modifies this
      ensures k <= fuel && digits == OneATerm(n % WORD, k) && (k == fuel || |digits| == n % WORD)
    {
      hide Emitted, Settled, Holds;
      var limit := n % WORD;
      digits, k := [], 0;
      HoldsAtStart();
      while |digits| < limit && k < fuel
        invariant k <= fuel && digits == OneATerm(limit, k) && |digits| <= limit
        invariant Holds(num, acc, den, k, digits)
      {
        k := k + 1;
        NextTerm(k, digits);
        EmittedLater(k - 1, k, digits);
        Quotients(num, acc, den, k, digits);
        MayExtractMeans(num, acc, den, k, digits);
        if num > acc {
          continue;
        }
        var d := ExtractDigit(3);
        var d4 := ExtractDigit(4);
        if d != d4 {
          continue;
        }
        EliminateDigit(d, k, digits);
        digits := digits + [d];
      }
    }
  }

  lemma MayExtractMeans(num: int, acc: int, den: int, k: nat, ds: seq<nat>)
    requires Holds(num, acc, den, k, ds)
    ensures num <= acc <==> MayExtract(k, ds)
  {
  }

  /** The first multiple of ten that is positive and not below `n`. */
  function TensFor(n: int): nat {
    if n <= 0 then 10 else (n + 9) / 10 * 10
  }

  function LastTen(ds: seq<nat>): seq<nat> {
    if |ds| < 10 then ds else ds[|ds| - 10..]
  }

  /** The variables of the Julia program after one more term. */
  lemma JuliaTerm(n: int, a: int, d: int, k: nat, ds: seq<nat>)
    requires k > 0 && Holds(n, a, d, k - 1, ds) && Emitted(k, ds)
    ensures var n', a', d' := n * k, (a + n * 2) * (2 * k + 1), d * (2 * k + 1);
            && Holds(n', a', d', k, ds) && d' > 0 && n' >= 0 && 0 <= (n' * 3 + a') / d' == NextDigit(k, ds)
            && (n' <= a' <==> MayExtract(k, ds))
            && ((n' * 3 + a') % d' + n' < d' <==> Settled(k, |ds|))
  {
    hide Emitted, Settled, Holds, MayExtract, NextDigit;
    TermKeeps(n, a, d, k - 1, ds);
    var n', a', d' := n * k, (a + n * 2) * (2 * k + 1), d * (2 * k + 1);
    Quotients(n', a', d', k, ds);
    MayExtractMeans(n', a', d', k, ds);
    OneDivision(n' * 3 + a', n', d');
  }

  /** One division gives the digit and, through the remainder, the test; returns the last ten digits as a number. */
  method JuliaDigits(n0: int, fuel: nat) returns (ns: int, ghost digits: seq<nat>, k: nat, finished: bool)
    ensures k <= fuel && digits == OneATerm(TensFor(n0), k)
    ensures if finished then |digits| == TensFor(n0) && ns == Value(LastTen(digits)) else k == fuel
  {
    hide Emitted, Settled, Holds, MayExtract, NextDigit, Value, Tail;
    ghost var limit := TensFor(n0);
    var i, k1 := 0, 1;
    ns, k, finished, digits := 0, 0, false, [];
    var n, a, d, t, u := 1, 0, 1, 0, 0;
    HoldsAtStart();
    NoTail();
    while k < fuel
      invariant k <= fuel && digits == OneATerm(limit, k) && i == |digits| < limit && k1 == 2 * k + 1
      invariant Holds(n, a, d, k, digits)
      invariant ns == Value(Tail(digits))
    {
      k := k + 1;
      EmittedLater(k - 1, k, digits);
      JuliaTerm(n, a, d, k, digits);
      t := n * 2;
      n := n * k;
      a := a + t;
      k1 := k1 + 2;
      a := a * k1;
      d := d * k1;
      if a >= n {
        t, u := (n * 3 + a) / d, (n * 3 + a) % d;
        u := u + n;
        if d > u {
          ns := ns * 10 + t;
          i := i + 1;
          TakingOutKeeps(n, a, d, k, digits, t);
          AppendedTail(digits, t);
          digits := digits + [t];
          if i % 10 == 0 {
            NoTail();
            if i >= n0 {
              finished := true;
              TensReached(n0, i);
              return;
            }
            ns := 0;
          }
          BelowTens(n0, i);
          a := a - d * t;
          a := a * 10;
          n := n * 10;
        }
      }
    }
  }

  lemma NoTail()
    ensures Value(Tail([])) == 0 && Value([]) == 0
  {
  }

  lemma TensReached(n: int, i: nat)
    requires i % 10 == 0 && 0 < i <= TensFor(n) && i >= n
    ensures i == TensFor(n)
  {
  }

  lemma BelowTens(n: int, i: nat)
    ensures i <= TensFor(n) && (i % 10 != 0 || i < n) ==> i < TensFor(n)
  {
  }

  /** The sum with the remainder stays below the divisor exactly if both quotients are the same. */
  lemma OneDivision(x: int, n: int, d: int)
    requires d > 0 && n >= 0
    ensures x % d + n < d <==> x / d == (x + n) / d
  {
    DivBounds(x, d);
    DivBounds(x + n, d);
    assert x == (x / d) * d + x % d;
    if x % d + n < d { DivUnique(x + n, d, x / d); }
  }

  /** The digits since the last full ten. */
  function Tail(ds: seq<nat>): seq<nat> {
    ds[|ds| - |ds| % 10..]
  }

  lemma AppendedTail(ds: seq<nat>, d: nat)
    ensures Value(Tail(ds) + [d]) == Value(Tail(ds)) * 10 + d
    ensures if |ds + [d]| % 10 == 0 then LastTen(ds + [d]) == Tail(ds) + [d] && Tail(ds + [d]) == []
            else Tail(ds + [d]) == Tail(ds) + [d]
  {
    hide Value;
    ValueMore(Tail(ds), d);
    OneOn(|ds|);
    var tail := Tail(ds);
    if (|ds| + 1) % 10 == 0 {
      assert LastTen(ds + [d]) == tail + [d];
    } else {
      assert Tail(ds + [d]) == tail + [d];
    }
  }

  lemma OneOn(i: nat)
    ensures (i + 1) % 10 == if i % 10 == 9 then 0 else i % 10 + 1
  {
  }

  lemma ValueMore(ds: seq<nat>, d: nat)
    ensures Value(ds + [d]) == Value(ds) * 10 + d
  {
    assert (ds + [d])[..|ds|] == ds;
  }

  // ----- the Python program: as many digits as are settled before the next term -----

  datatype Progress = Progress(k: nat, ds: seq<nat>)

  /** The terms and digits after some rounds of a loop that either emits a digit or takes a term. */
  ghost function Eager(limit: int, rounds: nat): (p: Progress)
    ensures Emitted(p.k, p.ds) && (limit > 0 ==> |p.ds| <= limit)
  {
    if rounds == 0 then Progress(0, [])
    else
      var p := Eager(limit, rounds - 1);
      if p.ds != [] && |p.ds| == limit then p
      else if Settled(p.k, |p.ds|) then
        EmitNext(p.k, p.ds);
        Progress(p.k, p.ds + [NextDigit(p.k, p.ds)])
      else
        EmittedLater(p.k, p.k + 1, p.ds);
        Progress(p.k + 1, p.ds)
  }

  /** `mul` of the big-number library. */
  function Mul(x: int, y: int): int {
    x * y
  }

  /** The two numerators of the Python program after a term, from the variables of the others. */
  lemma TermForBoth(n1: int, n2: int, num: int, acc: int, den: int, k: nat, ds: seq<nat>)
    requires k > 0 && Holds(num, acc, den, k - 1, ds) && n1 == 4 * num + acc && n2 == 3 * num + acc
    ensures var num', acc' := num * k, (acc + num * 2) * (2 * k + 1);
            && Holds(num', acc', Mul(den, 2 * k + 1), k, ds)
            && Mul(n1, 2 * k - 1) + (n2 + n2) == 4 * num' + acc'
            && Mul(n1, k - 1) + Mul(n2, k + 2) == 3 * num' + acc'
  {
    hide Holds;
    TermKeeps(num, acc, den, k - 1, ds);
    assert n1 * (2 * k - 1) == 8 * (num * k) - 4 * num + 2 * (acc * k) - acc;
    assert (acc + num * 2) * (2 * k + 1) == 2 * (acc * k) + acc + 4 * (num * k) + 2 * num;
    assert n1 * (k - 1) == 4 * (num * k) - 4 * num + acc * k - acc;
    assert n2 * (k + 2) == 3 * (num * k) + 6 * num + acc * k + 2 * acc;
  }

  lemma TakeOutOfBoth(n1: int, n2: int, num: int, acc: int, den: int, k: nat, ds: seq<nat>, u: nat)
    requires Holds(num, acc, den, k, ds) && n1 == 4 * num + acc && n2 == 3 * num + acc
    ensures var num', acc', out := num * 10, (acc - den * u) * 10, Mul(den, Mul(-10, u));
            && Holds(num', acc', den, k, ds + [u])
            && Mul(n1, 10) + out == 4 * num' + acc' && Mul(n2, 10) + out == 3 * num' + acc'
  {
    hide Holds;
    TakingOutKeeps(num, acc, den, k, ds, u);
    assert den * (-10 * u) == -10 * (den * u);
  }

  lemma BothQuotients(n1: int, n2: int, num: int, acc: int, den: int, k: nat, ds: seq<nat>)
    requires Holds(num, acc, den, k, ds) && Emitted(k, ds) && n1 == 4 * num + acc && n2 == 3 * num + acc
    ensures den > 0 && n2 / den == NextDigit(k, ds) >= 0
    ensures n1 / den == n2 / den <==> Settled(k, |ds|)
  {
    Quotients(num, acc, den, k, ds);
  }

  method PythonDigits(n: int, fuel: nat) returns (digits: seq<nat>, rounds: nat)
    ensures rounds <= fuel && digits == Eager(n, rounds).ds
    ensures rounds == fuel || (digits != [] && |digits| == n)
  {
    hide Emitted, Settled, Holds, Mul, NextDigit;
    var k, n1, n2, d := 1, 4, 3, 1;
    ghost var num, acc := 1, 0;
    digits, rounds := [], 0;
    HoldsAtStart();
    while rounds < fuel
      invariant rounds <= fuel && k > 0 && Eager(n, rounds) == Progress(k - 1, digits)
      invariant digits == [] || |digits| != n
      invariant Holds(num, acc, d, k - 1, digits) && n1 == 4 * num + acc && n2 == 3 * num + acc
    {
      BothQuotients(n1, n2, num, acc, d, k - 1, digits);
      var u, v := n1 / d, n2 / d;
      rounds := rounds + 1;
      if u == v {
        TakeOutOfBoth(n1, n2, num, acc, d, k - 1, digits, u);
        digits := digits + [u];
        if |digits| == n { break; }
        num, acc := num * 10, (acc - d * u) * 10;
        u := Mul(d, Mul(-10, u));
        n1 := Mul(n1, 10);
        n1 := n1 + u;
        n2 := Mul(n2, 10);
        n2 := n2 + u;
      } else {
        TermForBoth(n1, n2, num, acc, d, k, digits);
        num, acc := num * k, (acc + num * 2) * (2 * k + 1);
        var k2 := k * 2;
        u := Mul(n1, k2 - 1);
        v := n2 + n2;
        var w := Mul(n1, k - 1);
        n1 := u + v;
        u := Mul(n2, k + 2);
        n2 := w + u;
        d := Mul(d, k2 + 1);
        k := k + 1;
      }
    }
  }

  /** Digits that are settled make those before them settled. */
  lemma {:induction false} SettledAllBefore(k: nat, i: nat, j: nat)
    requires Settled(k, i) && j <= i
    ensures Settled(k, j)
    decreases i
  {
    hide Settled;
    if j < i {
      SettledBefore(k, i - 1);
      SettledAllBefore(k, i - 1, j);
    }
  }

  /** Until digit `i` is out no term is taken beyond `k`, so that every round before has gone into a term or a digit. */
  lemma {:induction false} NoTermTooMany(limit: int, rounds: nat, k: nat, i: nat)
    requires Settled(k, i) && (limit <= 0 || i < limit)
    ensures var p := Eager(limit, rounds); |p.ds| > i || (p.k <= k && p.k + |p.ds| == rounds)
  {
    hide Settled, NextDigit, Emitted, Eager;
    if rounds > 0 {
      NoTermTooMany(limit, rounds - 1, k, i);
      EagerRound(limit, rounds);
      var p := Eager(limit, rounds - 1);
      if |p.ds| <= i && p.k == k { SettledAllBefore(k, i, |p.ds|); }
    } else {
      NoRounds(limit);
    }
  }

  lemma NoRounds(limit: int)
    ensures Eager(limit, 0) == Progress(0, [])
  {
  }

  /** One round: nothing once the limit is reached, and otherwise a digit if it is settled and a term if not. */
  lemma EagerRound(limit: int, rounds: nat)
    requires rounds > 0
    ensures var p, q := Eager(limit, rounds - 1), Eager(limit, rounds);
            if |p.ds| == limit && p.ds != [] then q == p
            else if Settled(p.k, |p.ds|) then q.k == p.k && |q.ds| == |p.ds| + 1
            else q.k == p.k + 1 && q.ds == p.ds
  {
    hide Settled, NextDigit, Emitted;
  }

  /** Every digit that is settled after some number of terms is written, after at most that many more rounds. */
  lemma EveryDigitComes(limit: int, k: nat, i: nat)
    requires Settled(k, i) && (limit <= 0 || i < limit)
    ensures |Eager(limit, k + i + 1).ds| > i
  {
    hide Settled, Eager, Emitted, NextDigit;
    NoTermTooMany(limit, k + i + 1, k, i);
  }

  // ----- the first digits -----

  lemma FirstTerms()
    ensures After(1) == Terms(1, 6, 3) && After(2) == Terms(2, 40, 15) && After(3) == Terms(6, 308, 105)
    ensures After(4) == Terms(24, 2880, 945)
  {
    assert After(0) == Terms(1, 0, 1);
    assert After(1) == NextTerm(After(0), 1);
  }

  lemma SettledEarly()
    ensures Settled(1, 0) && Leading(1, 0) == 3
    ensures Settled(4, 1) && Leading(4, 1) == 31
  {
    hide After;
    FirstTerms();
    assert Pow10(0) == 1 && Pow10(1) == 10;
  }

  lemma MayEarly()
    ensures MayExtract(1, []) && !MayExtract(2, [3]) && !MayExtract(3, [3]) && MayExtract(4, [3])
    ensures Value([]) == 0 && Value([3]) == 3
  {
    hide After;
    FirstTerms();
    assert [3][..0] == [] && Pow10(0) == 1 && Pow10(1) == 10;
  }

  /** The loop of the first two programs has written the first two digits after four terms. */
  lemma FirstDigits(limit: nat)
    requires limit >= 2
    ensures OneATerm(limit, 1) == OneATerm(limit, 3) == [3] && OneATerm(limit, 4) == [3, 1]
  {
    hide Settled, Leading, MayExtract, Value, Emitted;
    SettledEarly();
    MayEarly();
    assert OneATerm(limit, 0) == [];
    assert OneATerm(limit, 1) == [] + [NextDigit(1, [])] == [3];
    assert OneATerm(limit, 2) == [3] && OneATerm(limit, 3) == [3];
    assert OneATerm(limit, 4) == [3] + [NextDigit(4, [3])] == [3, 1];
  }

  // ----- all three -----

  /** Whatever the three programs have emitted so far, the shorter outputs are prefixes of the longer. */
  lemma AllProgramsAgree(limit: nat, k: nat, n: int, rounds: nat, limit': nat, k': nat)
    ensures var c, julia, python := OneATerm(limit, k), OneATerm(limit', k'), Eager(n, rounds).ds;
            && (c <= julia || julia <= c) && (c <= python || python <= c) && (julia <= python || python <= julia)
  {
    var python := Eager(n, rounds);
    DigitsAgree(k, OneATerm(limit, k), k', OneATerm(limit', k'));
    DigitsAgree(k, OneATerm(limit, k), python.k, python.ds);
    DigitsAgree(k', OneATerm(limit', k'), python.k, python.ds);
  }
}
