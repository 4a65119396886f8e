/**
  The spigot for the digits of pi: after `k` terms the number lies in an interval given by two fractions, and
  a digit may be emitted as soon as both ends of the interval agree on it.
*/
module Spigot {
  import opened Division

  /** Numerator scale, offset and denominator after some terms, when no digit has been taken out. */
  datatype Terms = Terms(num: nat, acc: nat, den: nat)

  function NextTerm(t: Terms, k: nat): Terms {
    Terms(t.num * k, (t.acc + 2 * t.num) * (2 * k + 1), t.den * (2 * k + 1))
  }

  function After(k: nat): (t: Terms)
    ensures t.den > 0
  {
    if k == 0 then Terms(1, 0, 1) else NextTerm(After(k - 1), k)
  }

  /** The ends of the interval, as numerators over `After(k).den`. */
  function Low(k: nat): nat {
    3 * After(k).num + After(k).acc
  }

  function High(k: nat): nat {
    4 * After(k).num + After(k).acc
  }

  function Pow10(i: nat): (p: nat)
    ensures p > 0
  {
    if i == 0 then 1 else 10 * Pow10(i - 1)
  }

  /** The number's first digit and the `i` after it, read off the lower end. */
  function Leading(k: nat, i: nat): int {
    Pow10(i) * Low(k) / After(k).den
  }

  function LeadingHigh(k: nat, i: nat): int {
    Pow10(i) * High(k) / After(k).den
  }

  /** Both ends agree on these digits. */
  predicate Settled(k: nat, i: nat) {
    Leading(k, i) == LeadingHigh(k, i)
  }

  function Value(ds: seq<nat>): nat {
    if ds == [] then 0 else 10 * Value(ds[..|ds| - 1]) + ds[|ds| - 1]
  }

  /** `ds` are decimal digits, and all of them are settled after `k` terms. */
  ghost predicate Emitted(k: nat, ds: seq<nat>) {
    && (forall i :: 0 <= i < |ds| ==> ds[i] < 10)
    && (ds != [] ==> Settled(k, |ds| - 1) && Value(ds) == Leading(k, |ds| - 1))
  }

  // ----- the series behind the terms -----

  /** The summands of a series for pi: 2, 2/3, 4/15 and so on; each is the one before times j / (2 * j + 1). */
  function Summand(j: nat): real {
    if j == 0 then 2.0 else Summand(j - 1) * (j as real) / ((2 * j + 1) as real)
  }

  function PartialSum(k: nat): real {
    if k == 0 then 0.0 else PartialSum(k - 1) + Summand(k - 1)
  }

  /** The offset is the sum of the first `k` summands, and the scale half the next one. */
  predicate InSeries(k: nat) {
    && After(k).acc as real == PartialSum(k) * (After(k).den as real)
    && 2.0 * (After(k).num as real) == Summand(k) * (After(k).den as real)
  }

  lemma {:induction false} SumsOfSeries(k: nat)
    ensures InSeries(k)
  {
    hide InSeries;
    if k > 0 {
      SumsOfSeries(k - 1);
      OneMoreTerm(k);
    } else {
      NoTerms();
    }
  }

  lemma NoTerms()
    ensures InSeries(0)
  {
  }

  lemma OneMoreTerm(k: nat)
    requires k > 0 && InSeries(k - 1)
    ensures InSeries(k)
  {
    hide NextTerm, After, PartialSum, Summand;
    var t, s, p, q := After(k - 1), Summand(k - 1), PartialSum(k - 1), (2 * k + 1) as real;
    OneMore(k);
    NextInReals(t, k);
    NextOfSeries(t.num as real, t.acc as real, t.den as real, q, s, p, k as real, Summand(k));
  }

  lemma OneMore(k: nat)
    requires k > 0
    ensures After(k) == NextTerm(After(k - 1), k) && PartialSum(k) == PartialSum(k - 1) + Summand(k - 1)
    ensures Summand(k) * ((2 * k + 1) as real) == Summand(k - 1) * (k as real)
  {
    hide NextTerm, PartialSum;
    NextSummand(Summand(k - 1), k as real, (2 * k + 1) as real);
    NextPartial(k);
  }

  lemma NextPartial(k: nat)
    requires k > 0
    ensures PartialSum(k) == PartialSum(k - 1) + Summand(k - 1)
  {
  }

  lemma NextInReals(t: Terms, k: nat)
    ensures var n, a, d, q := t.num as real, t.acc as real, t.den as real, (2 * k + 1) as real;
            && NextTerm(t, k).num as real == n * (k as real)
            && NextTerm(t, k).acc as real == (a + 2.0 * n) * q
            && NextTerm(t, k).den as real == d * q
  {
  }

  lemma NextSummand(s: real, k: real, q: real)
    requires q > 0.0
    ensures (s * k / q) * q == s * k
  {
  }

  lemma NextOfSeries(n: real, a: real, d: real, q: real, s: real, p: real, k: real, next: real)
    requires a == p * d && 2.0 * n == s * d && next * q == s * k
    ensures (a + 2.0 * n) * q == (p + s) * (d * q) && 2.0 * (n * k) == next * (d * q)
  {
    assert (a + 2.0 * n) * q == ((p + s) * d) * q;
    assert next * (d * q) == (next * q) * d;
    assert 2.0 * (n * k) == (2.0 * n) * k == (s * d) * k == (s * k) * d;
  }

  // ----- the interval shrinks -----

  /** A term maps the interval from 3 to 4 into itself: the ends move inwards. */
  lemma EndsMove(k: nat)
    requires k > 0
    ensures var q := 2 * k + 1;
            && After(k).den == After(k - 1).den * q
            && Low(k) == Low(k - 1) * q + (k - 1) * After(k - 1).num
            && High(k) + 2 * After(k - 1).num == High(k - 1) * q
  {
    var t := After(k - 1);
    assert After(k) == NextTerm(t, k);
    assert Low(k) == 3 * (t.num * k) + (t.acc + 2 * t.num) * (2 * k + 1);
    assert High(k) == 4 * (t.num * k) + (t.acc + 2 * t.num) * (2 * k + 1);
    Expand(t.num, t.acc, k);
  }

  lemma Expand(n: int, a: int, k: int)
    ensures 3 * (n * k) + (a + 2 * n) * (2 * k + 1) == (3 * n + a) * (2 * k + 1) + (k - 1) * n
    ensures 4 * (n * k) + (a + 2 * n) * (2 * k + 1) + 2 * n == (4 * n + a) * (2 * k + 1)
  {
    assert (a + 2 * n) * (2 * k + 1) == 2 * (a * k) + a + 4 * (n * k) + 2 * n;
    assert (3 * n + a) * (2 * k + 1) == 6 * (n * k) + 3 * n + 2 * (a * k) + a;
    assert (4 * n + a) * (2 * k + 1) == 8 * (n * k) + 4 * n + 2 * (a * k) + a;
    assert (k - 1) * n == n * k - n;
  }

  lemma LeadingMoves(k: nat, i: nat)
    requires k > 0
    ensures Leading(k - 1, i) <= Leading(k, i) && LeadingHigh(k, i) <= LeadingHigh(k - 1, i)
  {
    hide After, Low, High, Pow10;
    var p, q, t, d := Pow10(i), 2 * k + 1, After(k - 1), After(k - 1).den;
    EndsMove(k);
    assert p * Low(k - 1) * q <= p * Low(k) by {
      MulOrder(Low(k - 1) * q, Low(k), p);
      assert p * Low(k - 1) * q == (Low(k - 1) * q) * p;
    }
    assert p * High(k) <= p * High(k - 1) * q by {
      MulOrder(High(k), High(k - 1) * q, p);
      assert p * High(k - 1) * q == (High(k - 1) * q) * p;
    }
    DivScale(p * Low(k - 1), d, q);
    DivScale(p * High(k - 1), d, q);
    DivMonotone(p * Low(k - 1) * q, p * Low(k), d * q);
    DivMonotone(p * High(k), p * High(k - 1) * q, d * q);
  }

  lemma LowBelowHigh(k: nat, i: nat)
    ensures Leading(k, i) <= LeadingHigh(k, i)
  {
    hide After, Pow10;
    MulOrder(Low(k), High(k), Pow10(i));
    DivMonotone(Pow10(i) * Low(k), Pow10(i) * High(k), After(k).den);
  }

  /** Once settled, digits stay settled and stay the same. */
  lemma {:induction false} StaysSettled(k: nat, later: nat, i: nat)
    requires k <= later && Settled(k, i)
    ensures Settled(later, i) && Leading(later, i) == Leading(k, i)
  {
    hide After, Leading, LeadingHigh;
    if k < later {
      StaysSettled(k, later - 1, i);
      LeadingMoves(later, i);
      LowBelowHigh(later, i);
    }
  }

  lemma OneMoreDigit(k: nat, i: nat)
    ensures 10 * Leading(k, i) <= Leading(k, i + 1) < 10 * Leading(k, i) + 10
    ensures 10 * LeadingHigh(k, i) <= LeadingHigh(k, i + 1) < 10 * LeadingHigh(k, i) + 10
  {
    hide After, Low, High;
    var p, d := Pow10(i), After(k).den;
    DivTen(p * Low(k), d);
    DivTen(p * High(k), d);
    assert Pow10(i + 1) * Low(k) == 10 * (p * Low(k)) && Pow10(i + 1) * High(k) == 10 * (p * High(k));
  }

  /** Digits in front of settled ones are settled. */
  lemma SettledBefore(k: nat, i: nat)
    requires Settled(k, i + 1)
    ensures Settled(k, i) && Leading(k, i) == Leading(k, i + 1) / 10
  {
    hide Leading, LeadingHigh;
    OneMoreDigit(k, i);
  }

  // ----- emitted digits -----

  lemma {:induction false} ValueDigits(a: seq<nat>, b: seq<nat>)
    requires |a| == |b| && Value(a) == Value(b)
    requires forall i :: 0 <= i < |a| ==> a[i] < 10 && b[i] < 10
    ensures a == b
  {
    if a != [] {
      var n := |a| - 1;
      ValueDigits(a[..n], b[..n]);
      assert a == a[..n] + [a[n]] && b == b[..n] + [b[n]];
    }
  }

  lemma EmittedPrefix(k: nat, ds: seq<nat>)
    requires Emitted(k, ds) && ds != []
    ensures Emitted(k, ds[..|ds| - 1])
  {
    hide After, Leading, LeadingHigh;
    if |ds| > 1 { SettledBefore(k, |ds| - 2); }
  }

  lemma EmittedLater(k: nat, later: nat, ds: seq<nat>)
    requires Emitted(k, ds) && k <= later
    ensures Emitted(later, ds)
  {
    hide Settled, Leading;
    if ds != [] { StaysSettled(k, later, |ds| - 1); }
  }

  /** However many terms two programs have taken, neither contradicts the other's digits. */
  lemma {:induction false} DigitsAgree(k: nat, a: seq<nat>, k': nat, b: seq<nat>)
    requires Emitted(k, a) && Emitted(k', b)
    ensures |a| <= |b| ==> a <= b
    ensures |b| <= |a| ==> b <= a
    decreases |a| + |b|
  {
    if |a| < |b| {
      EmittedPrefix(k', b);
      DigitsAgree(k, a, k', b[..|b| - 1]);
    } else if |b| < |a| {
      EmittedPrefix(k, a);
      DigitsAgree(k, a[..|a| - 1], k', b);
    } else if a != [] {
      var later := if k < k' then k' else k;
      hide Settled, Leading;
      EmittedLater(k, later, a);
      EmittedLater(k', later, b);
      ValueDigits(a, b);
    }
  }

  /** The next digit to read off the lower end. */
  function NextDigit(k: nat, ds: seq<nat>): int {
    Leading(k, |ds|) - 10 * Value(ds)
  }

  /** The first digit is between 3 and 4. */
  lemma {:induction false} FirstDigit(k: nat)
    ensures 3 <= Leading(k, 0) && LeadingHigh(k, 0) <= 4
  {
    hide Leading, LeadingHigh;
    if k > 0 {
      FirstDigit(k - 1);
      LeadingMoves(k, 0);
    } else {
      FirstInterval();
    }
  }

  lemma FirstInterval()
    ensures Leading(0, 0) == 3 && LeadingHigh(0, 0) == 4
  {
  }

  /** Both ends say that the next digit is a decimal digit. */
  lemma NextDigitRange(k: nat, ds: seq<nat>)
    requires Emitted(k, ds)
    ensures 0 <= NextDigit(k, ds) <= LeadingHigh(k, |ds|) - 10 * Value(ds) <= 9
  {
    hide Leading, LeadingHigh;
    LowBelowHigh(k, |ds|);
    if ds == [] { FirstDigit(k); } else { OneMoreDigit(k, |ds| - 1); }
  }

  lemma EmitNext(k: nat, ds: seq<nat>)
    requires Emitted(k, ds) && Settled(k, |ds|)
    ensures 0 <= NextDigit(k, ds) < 10 && Emitted(k, ds + [NextDigit(k, ds)])
  {
    hide Leading, LeadingHigh, After;
    NextDigitRange(k, ds);
    var longer := ds + [NextDigit(k, ds)];
    assert longer[..|longer| - 1] == ds;
  }
}
