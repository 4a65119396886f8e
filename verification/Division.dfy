/** Facts about division with remainder. */
module Division {

  lemma DivUnique(x: int, d: int, q: int)
    requires d > 0 && q * d <= x < q * d + d
    ensures x / d == q
  {
    var r := x - q * d;
    assert x == (x / d) * d + x % d;
    if x / d > q { MulLess(q, x / d, d); }
    if x / d < q { MulLess(x / d, q, d); }
  }

  lemma {:induction false} MulLess(a: int, b: int, d: int)
    requires a < b && d > 0
    ensures a * d + d <= b * d
    decreases b - a
  {
    if a + 1 < b { MulLess(a, b - 1, d); }
  }

  lemma MulAssociative(a: int, b: int, c: int)
    ensures a * (b * c) == (a * b) * c
  {
  }

  lemma MulDistributes(a: int, b: int, c: int)
    ensures (a + b) * c == a * c + b * c
  {
  }

  lemma DivBounds(x: int, d: int)
    requires d > 0
    ensures (x / d) * d <= x < (x / d) * d + d
  {
  }

  lemma DivMonotone(x: int, y: int, d: int)
    requires d > 0 && x <= y
    ensures x / d <= y / d
  {
    DivBounds(x, d);
    DivBounds(y, d);
    if x / d > y / d { MulLess(y / d, x / d, d); }
  }

  lemma DivScale(x: int, d: int, q: int)
    requires d > 0 && q > 0
    ensures d * q > 0 && (x * q) / (d * q) == x / d
  {
    DivBounds(x, d);
    var v := x / d;
    MulLess(0, d, q);
    MulAssociative(v, d, q);
    MulDistributes(v * d, d, q);
    MulOrder(v * d, x, q);
    MulLess(x, v * d + d, q);
    DivUnique(x * q, d * q, v);
  }

  lemma MulOrder(a: int, b: int, d: int)
    requires a <= b && d >= 0
    ensures a * d <= b * d
  {
    if a < b && d > 0 { MulLess(a, b, d); }
  }

  lemma DivShift(x: int, d: int, y: int)
    requires d > 0
    ensures (x - y * d) / d == x / d - y
  {
    DivBounds(x, d);
    assert (x / d - y) * d == (x / d) * d - y * d;
    DivUnique(x - y * d, d, x / d - y);
  }

  /** Ten times as much has one more decimal digit. */
  lemma DivTen(x: int, d: int)
    requires d > 0
    ensures 10 * (x / d) <= (10 * x) / d < 10 * (x / d) + 10
  {
    DivBounds(x, d);
    var v := x / d;
    DivMonotone(10 * (v * d), 10 * x, d);
    DivShift(0, d, -10 * v);
    assert 10 * (v * d) == 0 - (-10 * v) * d;
    DivBounds(10 * x, d);
    assert (10 * v + 10) * d == 10 * (v * d + d);
    if (10 * x) / d >= 10 * v + 10 { MulOrder(10 * v + 10, (10 * x) / d, d); }
  }

  lemma DivModOf(q: int, d: int, r: int)
    requires 0 <= r < d
    ensures (q * d + r) / d == q && (q * d + r) % d == r
  {
    DivUnique(q * d + r, d, q);
  }
}
