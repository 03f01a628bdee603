/** Small facts of real arithmetic, each on bare variables so that the solver sees nothing else. */
module Reals {
  lemma MulNonneg(a: real, b: real)
    requires a >= 0.0 && b >= 0.0
    ensures a * b >= 0.0
  {
  }

  lemma MulPositive(a: real, b: real)
    requires a > 0.0 && b > 0.0
    ensures a * b > 0.0
  {
  }

  function Times(a: real, b: real): real { a * b }

  lemma TimesSigns(a: real, b: real)
    ensures a > 0.0 && b > 0.0 ==> Times(a, b) > 0.0
    ensures Times(-a, -b) == Times(a, b)
    ensures a == 0.0 ==> Times(a, b) == 0.0
  {
    if a > 0.0 && b > 0.0 {
      MulPositive(a, b);
    }
  }

  function Square(x: real): (r: real)
    ensures r >= 0.0 && (r == 0.0 <==> x == 0.0)
  {
    TimesSigns(x, x);
    TimesSigns(-x, -x);
    hide Times;
    Times(x, x)
  }

  lemma OneMinus(y: real, w: real)
    ensures (1.0 - y) * w == w - y * w
  {
  }

  lemma MulMonotone(w: real, a: real, b: real)
    requires w >= 0.0 && a <= b
    ensures w * a <= w * b
  {
    MulNonneg(w, b - a);
    assert w * b == w * a + w * (b - a);
  }

  lemma Distribute(a: real, b: real, c: real)
    ensures a * (b + c) == a * b + a * c
  {
  }

  lemma DivTimes(x: real, w: real)
    requires w != 0.0
    ensures (x / w) * w == x
  {
  }

  /** A factor of a non-negative product is non-negative if the other is positive. */
  lemma Factor(p: real, w: real)
    requires w > 0.0 && p * w >= 0.0
    ensures p >= 0.0
  {
    DivTimes(p * w, w);
  }

  lemma DivBounds(x: real, w: real, lo: real, hi: real)
    requires w > 0.0 && lo * w <= x <= hi * w
    ensures lo <= x / w <= hi
  {
    var q := x / w;
    DivTimes(x, w);
    assert (q - lo) * w == q * w - lo * w;
    assert (hi - q) * w == hi * w - q * w;
    Factor(q - lo, w);
    Factor(hi - q, w);
  }

  lemma DivScales(r: real, x: real, w: real)
    requires w != 0.0
    ensures (r * x) / w == r * (x / w)
  {
    DivTimes(x, w);
    var q := x / w;
    assert r * x == (r * q) * w;
    Cancel(r * q, w);
  }

  lemma Cancel(q: real, w: real)
    requires w != 0.0
    ensures (q * w) / w == q
  {
  }

  lemma DivAdds(a: real, b: real, w: real)
    requires w != 0.0
    ensures (a + b) / w == a / w + b / w
  {
    DivTimes(a, w);
    DivTimes(b, w);
    var p, q := a / w, b / w;
    assert a + b == (p + q) * w;
    Cancel(p + q, w);
  }

  lemma DivMonotone(a: real, b: real, w: real)
    requires w > 0.0 && a <= b
    ensures a / w <= b / w
  {
    DivTimes(a, w);
    DivTimes(b, w);
    var p, q := a / w, b / w;
    assert (q - p) * w == q * w - p * w;
    Factor(q - p, w);
  }
}
