/** Rounding up to a power of two with shifts and ors of 32-bit numbers. */
module Rounding {
  import opened Probing

  /** The number of values of an unsigned 32-bit word. */
  const UINT32: nat := 0x1_0000_0000

  // ----- bit operations on numbers -----

  function Or(a: nat, b: nat): nat {
    if a == 0 && b == 0 then 0 else 2 * Or(a / 2, b / 2) + if a % 2 == 1 || b % 2 == 1 then 1 else 0
  }

  /** `y >> n` */
  function Shift(y: nat, n: nat): nat {
    if n == 0 then y else Shift(y / 2, n - 1)
  }

  /** `y |= y >> n` */
  function OrShifted(y: nat, n: nat): nat {
    Or(y, Shift(y, n))
  }

  /** Subtract one, let every bit below the leading one be set, and add one, as 32-bit words do. */
  function KRoundUp32(x: nat): nat {
    var a := (x - 1) % UINT32;
    var b := OrShifted(a, 1);
    var c := OrShifted(b, 2);
    var d := OrShifted(c, 4);
    var e := OrShifted(d, 8);
    var f := OrShifted(e, 16);
    (f + 1) % UINT32
  }

  // ----- spreading the bits -----

  function TwoTo(k: nat): (n: nat)
    ensures n > 0
  {
    if k == 0 then 1 else 2 * TwoTo(k - 1)
  }

  /** The number after the first `k` of the steps. */
  function Spread(y: nat, k: nat): nat {
    if k == 0 then y else OrShifted(Spread(y, k - 1), TwoTo(k - 1))
  }

  /** Whether one of the lowest `n` bits is set. */
  predicate AnyOf(y: nat, n: nat) {
    n > 0 && (y % 2 == 1 || AnyOf(y / 2, n - 1))
  }

  lemma {:induction false} ShiftHalf(y: nat, n: nat)
    ensures Shift(y / 2, n) == Shift(y, n) / 2
  {
    if n > 0 { ShiftHalf(y / 2, n - 1); }
  }

  lemma {:induction false} SpreadHalf(y: nat, k: nat)
    ensures Spread(y / 2, k) == Spread(y, k) / 2
  {
    if k > 0 {
      SpreadHalf(y, k - 1);
      ShiftHalf(Spread(y, k - 1), TwoTo(k - 1));
    }
  }

  lemma {:induction false} SpreadShift(y: nat, k: nat, n: nat)
    ensures Spread(Shift(y, n), k) == Shift(Spread(y, k), n)
  {
    if n > 0 {
      SpreadShift(y / 2, k, n - 1);
      SpreadHalf(y, k);
    }
  }

  lemma {:induction false} AnyOfMore(y: nat, m: nat, n: nat)
    ensures AnyOf(y, m + n) <==> AnyOf(y, m) || AnyOf(Shift(y, m), n)
  {
    if m > 0 { AnyOfMore(y / 2, m - 1, n); }
  }

  /** The lowest bit after `k` steps tells whether any of the lowest 2^k bits was set. */
  lemma {:induction false} SpreadLowest(y: nat, k: nat)
    ensures Spread(y, k) % 2 == 1 <==> AnyOf(y, TwoTo(k))
    decreases k
  {
    if k > 0 {
      var n := TwoTo(k - 1);
      SpreadLowest(y, k - 1);
      SpreadLowest(Shift(y, n), k - 1);
      SpreadShift(y, k - 1, n);
      AnyOfMore(y, n, n);
    } else {
      assert AnyOf(y, 1) <==> y % 2 == 1 || AnyOf(y / 2, 0);
    }
  }

  lemma {:induction false} AnyOfAll(y: nat, n: nat)
    requires y < TwoTo(n)
    ensures AnyOf(y, n) <==> y > 0
  {
    if n > 0 { AnyOfAll(y / 2, n - 1); }
  }

  lemma Powers()
    ensures TwoTo(5) == 32 && TwoTo(32) == UINT32
  {
    assert TwoTo(4) == 16 && TwoTo(8) == 0x100 && TwoTo(12) == 0x1000 && TwoTo(16) == 0x1_0000;
    assert TwoTo(20) == 0x10_0000 && TwoTo(24) == 0x100_0000 && TwoTo(28) == 0x1000_0000;
  }

  lemma SpreadOdd(y: nat)
    requires y < UINT32
    ensures Spread(y, 5) % 2 == 1 <==> y > 0
  {
    hide AnyOf, Spread;
    Powers();
    AnyOfAll(y, 32);
    SpreadLowest(y, 5);
  }

  /** After five steps every bit below the leading one is set: one more is the next power of two. */
  lemma {:induction false} SpreadNext(y: nat)
    requires y < UINT32
    ensures var r := Spread(y, 5) + 1; IsPow2(r) && y < r <= if y == 0 then 1 else 2 * y
    decreases y
  {
    hide Spread;
    if y > 0 {
      SpreadNext(y / 2);
      SpreadHalf(y, 5);
      SpreadOdd(y);
      var r := Spread(y / 2, 5) + 1;
      assert Spread(y, 5) + 1 == 2 * r;
      assert (2 * r) / 2 == r;
      if y == 1 { SpreadZero(5); }
    } else {
      SpreadZero(5);
    }
  }

  lemma {:induction false} SpreadZero(k: nat)
    ensures Spread(0, k) == 0
  {
    if k > 0 {
      SpreadZero(k - 1);
      ShiftZero(TwoTo(k - 1));
    }
  }

  lemma {:induction false} ShiftZero(n: nat)
    ensures Shift(0, n) == 0
  {
    if n > 0 { ShiftZero(n - 1); }
  }

  lemma FiveSteps(y: nat)
    ensures OrShifted(OrShifted(OrShifted(OrShifted(OrShifted(y, 1), 2), 4), 8), 16) == Spread(y, 5)
  {
    hide OrShifted;
    assert TwoTo(0) == 1 && TwoTo(1) == 2 && TwoTo(2) == 4 && TwoTo(3) == 8 && TwoTo(4) == 16;
    assert Spread(y, 1) == OrShifted(Spread(y, 0), 1);
    assert Spread(y, 2) == OrShifted(Spread(y, 1), 2);
    assert Spread(y, 3) == OrShifted(Spread(y, 2), 4);
    assert Spread(y, 4) == OrShifted(Spread(y, 3), 8);
  }

  /**
    For a word up to 2^31 the trick gives the least power of two that is not below it; for zero and for
    anything larger it wraps round to zero.
  */
  lemma KRoundUpLeast(x: nat)
    requires x < UINT32
    ensures var r := KRoundUp32(x);
            if 0 < x <= UINT32 / 2 then IsPow2(r) && x <= r && (r == 1 || r < 2 * x) else r == 0
  {
    hide OrShifted, Spread, IsPow2;
    var y: nat := if x == 0 then UINT32 - 1 else x - 1;
    assert (x - 1) % UINT32 == y;
    FiveSteps(y);
    SpreadNext(y);
    var r := Spread(y, 5) + 1;
    BelowHalf(r);
    assert KRoundUp32(x) == r % UINT32;
    assert r == UINT32 || r < UINT32;
  }

  /** No power of two lies strictly between 2^31 and 2^32, or between 2^32 and 2^33. */
  lemma BelowHalf(r: nat)
    requires IsPow2(r)
    ensures r <= UINT32 / 2 || r == UINT32 || r >= 2 * UINT32
  {
    Powers();
    PowerGap(r, 31);
    PowerGap(r, 32);
  }

  lemma {:induction false} PowerGap(r: nat, k: nat)
    requires IsPow2(r)
    ensures r <= TwoTo(k) || r >= 2 * TwoTo(k)
    decreases k
  {
    if k > 0 && r > 1 { PowerGap(r / 2, k - 1); }
  }
}
