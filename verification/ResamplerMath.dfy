/**
 The arithmetic of the quadratic resampler (src/resampler.c) over exact reals: positions, the
 three-point polynomial, and what one output sample is.
 */
module ResamplerMath {
  /** Where output frame `x` falls in the input, in frames. */
  function Position(x: nat, ratio: real): (p: real)
    requires ratio > 0.0
    ensures p >= 0.0
  {
    x as real / ratio
  }

  /** sum_input_frames after `out` output frames: the frame below the last one produced. */
  function SumInput(out: nat, ratio: real): (n: nat)
    requires ratio > 0.0
  {
    if out == 0 then 0 else Position(out - 1, ratio).Floor
  }

  /** min_input_frames of resampler_get_required_frames, counted from the start of the stream. */
  function Needed(out: nat, ratio: real): (n: nat)
    requires ratio > 0.0
  {
    (Position(out, ratio) + 2.0).Floor
  }

  function Ceil(x: real): int { -((-x).Floor) }

  lemma PositionMonotone(x: nat, y: nat, ratio: real)
    requires ratio > 0.0 && x <= y
    ensures Position(x, ratio) <= Position(y, ratio)
    ensures Position(x, ratio).Floor <= Position(y, ratio).Floor
  {
    assert (y - x) as real / ratio >= 0.0;
    assert y as real == x as real + (y - x) as real;
    assert Position(y, ratio) == Position(x, ratio) + (y - x) as real / ratio;
  }

  lemma PositionSum(x: nat, y: nat, ratio: real)
    requires ratio > 0.0
    ensures Position(x + y, ratio) == Position(x, ratio) + Position(y, ratio)
  {
    assert (x + y) as real == x as real + y as real;
  }

  lemma LessThanWhole(q: real, b: real)
    requires q < 1.0 && b > 0.0
    ensures q * b < b
  {
    assert (1.0 - q) * b > 0.0;
  }

  lemma PositionAtLeastOne(x: nat, ratio: real)
    requires 0.0 < ratio <= x as real
    ensures Position(x, ratio) >= 1.0
  {
    var q := Position(x, ratio);
    assert q * ratio == x as real;
    if q < 1.0 {
      LessThanWhole(q, ratio);
    }
  }

  lemma PositionStep(x: nat, ratio: real)
    requires ratio > 0.0
    ensures Position(x + 1, ratio) == Position(x, ratio) + 1.0 / ratio
    ensures Position(x + 1, ratio).Floor <= Position(x, ratio).Floor + Ceil(1.0 / ratio)
  {
    assert (x + 1) as real == x as real + 1.0;
  }

  lemma NeededIs(out: nat, ratio: real)
    requires ratio > 0.0
    ensures Needed(out, ratio) == Position(out, ratio).Floor + 2
    ensures SumInput(out, ratio) + 2 <= Needed(out, ratio)
  {
    if out > 0 {
      PositionMonotone(out - 1, out, ratio);
    }
  }

  // ----- the polynomial -----

  /** poly_create_3 followed by the evaluation in resampler_process. */
  function Quadratic(y0: real, y1: real, y2: real, v: real): real {
    var p2 := (y0 - 2.0 * y1 + y2) / 2.0;
    var p1 := -1.5 * y0 + 2.0 * y1 - 0.5 * y2;
    p2 * v * v + p1 * v + y0
  }

  /** A polynomial of degree at most two. */
  datatype Poly = Poly(a: real, b: real, c: real) {
    function At(t: real): real { a * t * t + b * t + c }
  }

  lemma QuadraticAtNodes(y0: real, y1: real, y2: real)
    ensures Quadratic(y0, y1, y2, 0.0) == y0
    ensures Quadratic(y0, y1, y2, 1.0) == y1
    ensures Quadratic(y0, y1, y2, 2.0) == y2
  {
  }

  /** The three-point polynomial through samples of a quadratic is that quadratic, everywhere. */
  lemma QuadraticReproduces(p: Poly, t: real, v: real)
    ensures Quadratic(p.At(t), p.At(t + 1.0), p.At(t + 2.0), v) == p.At(t + v)
  {
    var y0, y1, y2 := p.At(t), p.At(t + 1.0), p.At(t + 2.0);
    assert y1 - y0 == 2.0 * p.a * t + p.a + p.b;
    assert y2 - y0 == 4.0 * p.a * t + 4.0 * p.a + 2.0 * p.b;
    var p2 := (y0 - 2.0 * y1 + y2) / 2.0;
    var p1 := -1.5 * y0 + 2.0 * y1 - 0.5 * y2;
    assert p2 == p.a;
    assert p1 == 2.0 * p.a * t + p.b;
    assert p.At(t + v) == p.a * v * v + (2.0 * p.a * t + p.b) * v + y0;
  }

  /** The polynomial as a weighted sum of its three samples. */
  function Weight0(v: real): real { (1.0 - v) * (2.0 - v) / 2.0 }
  function Weight1(v: real): real { v * (2.0 - v) }
  function Weight2(v: real): real { v * (v - 1.0) / 2.0 }

  lemma QuadraticWeights(y0: real, y1: real, y2: real, v: real)
    ensures Quadratic(y0, y1, y2, v) == y0 * Weight0(v) + y1 * Weight1(v) + y2 * Weight2(v)
  {
  }

  function Abs(x: real): real { if x >= 0.0 then x else -x }

  lemma ProductSign(x: real, y: real)
    requires x >= 0.0 && y >= 0.0
    ensures x * y >= 0.0
  {
  }

  lemma SquareSign(x: real)
    ensures x * x >= 0.0
  {
    if x >= 0.0 {
      ProductSign(x, x);
    } else {
      ProductSign(-x, -x);
    }
  }

  /** Weights that add up to 1, one of them slightly negative. */
  lemma UpperBound(y0: real, y1: real, y2: real, w0: real, w1: real, w2: real, m: real)
    requires y0 <= m && y1 <= m && -m <= y2 && m >= 0.0
    requires w0 >= 0.0 && w1 >= 0.0 && -0.125 <= w2 <= 0.0 && w0 + w1 + w2 == 1.0
    ensures y0 * w0 + y1 * w1 + y2 * w2 <= 1.25 * m
  {
    ProductSign(m - y0, w0);
    ProductSign(m - y1, w1);
    ProductSign(m + y2, -w2);
    ProductSign(m, 0.25 + 2.0 * w2);
    assert m * w0 + m * w1 + m * w2 == m * (w0 + w1 + w2);
  }

  /** At the window start the third weight is the negative one, later the first. */
  lemma WeightSigns(v: real)
    requires 0.0 <= v < 2.0
    ensures Weight0(v) + Weight1(v) + Weight2(v) == 1.0 && Weight1(v) >= 0.0
    ensures v < 1.0 ==> Weight0(v) >= 0.0 && -0.125 <= Weight2(v) <= 0.0
    ensures v >= 1.0 ==> Weight2(v) >= 0.0 && -0.125 <= Weight0(v) <= 0.0
  {
    ProductSign(v, 2.0 - v);
    if v < 1.0 {
      ProductSign(1.0 - v, 2.0 - v);
      ProductSign(v, 1.0 - v);
      SquareSign(v - 0.5);
    } else {
      ProductSign(v - 1.0, 2.0 - v);
      ProductSign(v, v - 1.0);
      SquareSign(v - 1.5);
    }
  }

  lemma WeightedBound(y0: real, y1: real, y2: real, w0: real, w1: real, w2: real, m: real)
    requires Abs(y0) <= m && Abs(y1) <= m && Abs(y2) <= m
    requires w1 >= 0.0 && w0 + w1 + w2 == 1.0
    requires (w0 >= 0.0 && -0.125 <= w2 <= 0.0) || (w2 >= 0.0 && -0.125 <= w0 <= 0.0)
    ensures Abs(y0 * w0 + y1 * w1 + y2 * w2) <= 1.25 * m
  {
    if w0 >= 0.0 && w2 <= 0.0 {
      UpperBound(y0, y1, y2, w0, w1, w2, m);
      UpperBound(-y0, -y1, -y2, w0, w1, w2, m);
    } else {
      UpperBound(y2, y1, y0, w2, w1, w0, m);
      UpperBound(-y2, -y1, -y0, w2, w1, w0, m);
    }
  }

  /** No output sample overshoots its three input samples by more than a quarter of their bound. */
  lemma Overshoot(y0: real, y1: real, y2: real, v: real, m: real)
    requires Abs(y0) <= m && Abs(y1) <= m && Abs(y2) <= m && 0.0 <= v < 2.0
    ensures Abs(Quadratic(y0, y1, y2, v)) <= 1.25 * m
  {
    var q, w0, w1, w2 :| q == Quadratic(y0, y1, y2, v) && w0 == Weight0(v) && w1 == Weight1(v) && w2 == Weight2(v);
    assert q == y0 * w0 + y1 * w1 + y2 * w2 by { QuadraticWeights(y0, y1, y2, v); }
    WeightSigns(v);
    WeightedBound(y0, y1, y2, w0, w1, w2, m);
  }

  /** The bound is attained in both stencils, half-way between two samples. */
  lemma OvershootAttained(m: real)
    ensures Quadratic(m, m, -m, 0.5) == 1.25 * m
    ensures Quadratic(-m, m, m, 1.5) == 1.25 * m
  {
  }
}
