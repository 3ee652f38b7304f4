/** Weighted sums over vocabulary coordinates, in exact reals.  Products are written Mul
    so that a proof decides for itself when a product is to be multiplied out. */
module Vectors {
  function Mul(a: real, b: real): real {
    a * b
  }

  function Square(v: real): real {
    Mul(v, v)
  }

  // Sum of x*y.
  function Dot(x: seq<real>, y: seq<real>): real
    requires |x| == |y|
  {
    if x == [] then 0.0 else Dot(x[..|x| - 1], y[..|y| - 1]) + Mul(x[|x| - 1], y[|y| - 1])
  }

  // Sum of p*x*y.
  function Dot3(p: seq<real>, x: seq<real>, y: seq<real>): real
    requires |p| == |x| == |y|
  {
    if x == [] then 0.0
    else Dot3(p[..|p| - 1], x[..|x| - 1], y[..|y| - 1]) + Mul(Mul(p[|p| - 1], x[|x| - 1]), y[|y| - 1])
  }

  function Total(p: seq<real>): real {
    if p == [] then 0.0 else Total(p[..|p| - 1]) + p[|p| - 1]
  }

  // x - a*y, coordinate by coordinate.
  function Minus(x: seq<real>, a: real, y: seq<real>): (r: seq<real>)
    requires |x| == |y|
    ensures |r| == |x| && forall i :: 0 <= i < |x| ==> r[i] == x[i] - Mul(a, y[i])
  {
    seq(|x|, i requires 0 <= i < |x| => x[i] - Mul(a, y[i]))
  }

  function Shift(x: seq<real>, c: real): (r: seq<real>)
    ensures |r| == |x| && forall i :: 0 <= i < |x| ==> r[i] == x[i] - c
  {
    seq(|x|, i requires 0 <= i < |x| => x[i] - c)
  }

  // p*(x - c).
  function Tangent(p: seq<real>, x: seq<real>, c: real): (r: seq<real>)
    requires |p| == |x|
    ensures |r| == |x| && forall i :: 0 <= i < |x| ==> r[i] == Mul(p[i], x[i] - c)
  {
    seq(|x|, i requires 0 <= i < |x| => Mul(p[i], x[i] - c))
  }

  // Part of a probability distribution: nonnegative, and at most one in all.
  ghost predicate Weights(p: seq<real>) {
    (forall i :: 0 <= i < |p| ==> 0.0 <= p[i]) && Total(p) <= 1.0
  }

  // One at coordinate k, zero elsewhere.
  function Unit(n: nat, k: nat): (r: seq<real>)
    ensures |r| == n && forall i :: 0 <= i < n ==> r[i] == if i == k then 1.0 else 0.0
  {
    seq(n, i => if i == k then 1.0 else 0.0)
  }

  // The sum takes every coordinate once, with its own partner.
  lemma {:induction false} DotOfUnit(x: seq<real>, k: nat)
    ensures Dot(x, Unit(|x|, k)) == if k < |x| then x[k] else 0.0
    decreases |x|
  {
    if x != [] {
      var n := |x| - 1;
      DotOfUnit(x[..n], k);
      assert Unit(|x|, k)[..n] == Unit(n, k);
    }
  }

  // ----------------------------------------------------------- bilinear algebra

  lemma MinusPrefix(x: seq<real>, a: real, y: seq<real>, n: nat)
    requires |x| == |y| && n <= |x|
    ensures Minus(x, a, y)[..n] == Minus(x[..n], a, y[..n])
  {
    hide Mul;
    var l, r := Minus(x, a, y)[..n], Minus(x[..n], a, y[..n]);
    assert forall i :: 0 <= i < n ==> l[i] == r[i];
  }

  lemma {:induction false} Dot3Symmetric(p: seq<real>, x: seq<real>, y: seq<real>)
    requires |p| == |x| == |y|
    ensures Dot3(p, x, y) == Dot3(p, y, x)
    decreases |x|
  {
    hide Mul;
    if x != [] {
      var n := |x| - 1;
      Dot3Symmetric(p[..n], x[..n], y[..n]);
      Swap3(p[n], x[n], y[n]);
    }
  }

  lemma Swap3(p: real, x: real, y: real)
    ensures Mul(Mul(p, x), y) == Mul(Mul(p, y), x)
  {
  }

  lemma {:induction false} DotSymmetric(x: seq<real>, y: seq<real>)
    requires |x| == |y|
    ensures Dot(x, y) == Dot(y, x)
    decreases |x|
  {
    hide Mul;
    if x != [] {
      var n := |x| - 1;
      DotSymmetric(x[..n], y[..n]);
      Swap(x[n], y[n]);
    }
  }

  lemma Swap(x: real, y: real)
    ensures Mul(x, y) == Mul(y, x)
  {
  }

  lemma Dot3MinusTerm(d: real, dy: real, p: real, x: real, a: real, y: real, z: real)
    ensures (d - Mul(a, dy)) + Mul(Mul(p, x - Mul(a, y)), z) == (d + Mul(Mul(p, x), z)) - Mul(a, dy + Mul(Mul(p, y), z))
  {
  }

  lemma {:induction false} Dot3Minus(p: seq<real>, x: seq<real>, a: real, y: seq<real>, z: seq<real>)
    requires |p| == |x| == |y| == |z|
    ensures Dot3(p, Minus(x, a, y), z) == Dot3(p, x, z) - Mul(a, Dot3(p, y, z))
    decreases |x|
  {
    hide Mul, Minus;
    if x == [] {
      MulZero(a);
    } else {
      var n := |x| - 1;
      MinusPrefix(x, a, y, n);
      Dot3Minus(p[..n], x[..n], a, y[..n], z[..n]);
      Dot3MinusTerm(Dot3(p[..n], x[..n], z[..n]), Dot3(p[..n], y[..n], z[..n]), p[n], x[n], a, y[n], z[n]);
    }
  }

  lemma MulZero(a: real)
    ensures Mul(a, 0.0) == 0.0 && Mul(0.0, a) == 0.0
  {
  }

  lemma DotMinusTerm(d: real, dy: real, x: real, a: real, y: real, z: real)
    ensures (d - Mul(a, dy)) + Mul(x - Mul(a, y), z) == (d + Mul(x, z)) - Mul(a, dy + Mul(y, z))
  {
  }

  lemma {:induction false} DotMinus(x: seq<real>, a: real, y: seq<real>, z: seq<real>)
    requires |x| == |y| == |z|
    ensures Dot(Minus(x, a, y), z) == Dot(x, z) - Mul(a, Dot(y, z))
    decreases |x|
  {
    hide Mul, Minus;
    if x == [] {
      MulZero(a);
    } else {
      var n := |x| - 1;
      MinusPrefix(x, a, y, n);
      DotMinus(x[..n], a, y[..n], z[..n]);
      DotMinusTerm(Dot(x[..n], z[..n]), Dot(y[..n], z[..n]), x[n], a, y[n], z[n]);
    }
  }

  lemma DotMinusRight(z: seq<real>, x: seq<real>, a: real, y: seq<real>)
    requires |x| == |y| == |z|
    ensures Dot(z, Minus(x, a, y)) == Dot(z, x) - Mul(a, Dot(z, y))
  {
    hide Dot, Minus, Mul;
    DotMinus(x, a, y, z);
    DotSymmetric(Minus(x, a, y), z);
    DotSymmetric(x, z);
    DotSymmetric(y, z);
  }

  // |x - a*y|^2 = |x|^2 - 2a(x.y) + a^2|y|^2.
  lemma NormExpands(x: seq<real>, a: real, y: seq<real>)
    requires |x| == |y|
    ensures Dot(Minus(x, a, y), Minus(x, a, y)) == Dot(x, x) - 2.0 * Mul(a, Dot(x, y)) + Mul(Square(a), Dot(y, y))
  {
    hide Dot, Minus, Mul;
    DotMinus(x, a, y, Minus(x, a, y));
    DotMinusRight(x, x, a, y);
    DotMinusRight(y, x, a, y);
    DotSymmetric(x, y);
    Expand(a, Dot(x, x), Dot(x, y), Dot(y, y));
  }

  lemma Dot3Expands(p: seq<real>, x: seq<real>, a: real, y: seq<real>)
    requires |p| == |x| == |y|
    ensures Dot3(p, Minus(x, a, y), Minus(x, a, y))
            == Dot3(p, x, x) - 2.0 * Mul(a, Dot3(p, x, y)) + Mul(Square(a), Dot3(p, y, y))
  {
    hide Dot3, Minus, Mul;
    var r := Minus(x, a, y);
    Dot3Minus(p, x, a, y, r);
    Dot3Symmetric(p, x, r);
    Dot3Symmetric(p, y, r);
    Dot3Minus(p, x, a, y, x);
    Dot3Minus(p, x, a, y, y);
    Dot3Symmetric(p, x, y);
    Expand(a, Dot3(p, x, x), Dot3(p, x, y), Dot3(p, y, y));
  }

  lemma Expand(a: real, xx: real, xy: real, yy: real)
    ensures (xx - Mul(a, xy)) - Mul(a, xy - Mul(a, yy)) == xx - 2.0 * Mul(a, xy) + Mul(Square(a), yy)
  {
  }

  lemma SquareNonneg(v: real)
    ensures 0.0 <= Square(v)
  {
  }

  lemma ProductNonneg(a: real, b: real)
    requires 0.0 <= a && 0.0 <= b
    ensures 0.0 <= Mul(a, b)
  {
  }

  lemma WeightedSquare(p: real, v: real)
    requires 0.0 <= p
    ensures 0.0 <= Mul(Mul(p, v), v)
  {
    SquareNonneg(v);
    ProductNonneg(p, Square(v));
  }

  lemma {:induction false} Dot3Nonneg(p: seq<real>, x: seq<real>)
    requires |p| == |x| && forall i :: 0 <= i < |p| ==> 0.0 <= p[i]
    ensures 0.0 <= Dot3(p, x, x)
    decreases |x|
  {
    hide Mul;
    if x != [] {
      var n := |x| - 1;
      Dot3Nonneg(p[..n], x[..n]);
      WeightedSquare(p[n], x[n]);
    }
  }

  lemma {:induction false} DotSelfNonneg(x: seq<real>)
    ensures 0.0 <= Dot(x, x)
    decreases |x|
  {
    hide Mul;
    if x != [] {
      DotSelfNonneg(x[..|x| - 1]);
      SquareNonneg(x[|x| - 1]);
    }
  }

  lemma ShiftPrefix(x: seq<real>, c: real, n: nat)
    requires n <= |x|
    ensures Shift(x, c)[..n] == Shift(x[..n], c)
  {
  }

  lemma ShiftTerm(s: real, d: real, t: real, p: real, x: real, c: real)
    ensures (s - 2.0 * Mul(c, d) + Mul(Square(c), t)) + Mul(Mul(p, x - c), x - c)
            == (s + Mul(Mul(p, x), x)) - 2.0 * Mul(c, d + Mul(p, x)) + Mul(Square(c), t + p)
  {
  }

  lemma {:induction false} ShiftExpands(p: seq<real>, x: seq<real>, c: real)
    requires |p| == |x|
    ensures Dot3(p, Shift(x, c), Shift(x, c)) == Dot3(p, x, x) - 2.0 * Mul(c, Dot(p, x)) + Mul(Square(c), Total(p))
    decreases |x|
  {
    hide Mul, Shift, Square;
    if x == [] {
      MulZero(c);
      MulZero(Square(c));
    } else {
      var n := |x| - 1;
      ShiftPrefix(x, c, n);
      ShiftExpands(p[..n], x[..n], c);
      ShiftTerm(Dot3(p[..n], x[..n], x[..n]), Dot(p[..n], x[..n]), Total(p[..n]), p[n], x[n], c);
    }
  }

  // ---------------------------------------------------------------- concatenation

  lemma {:induction false} DotCut(x: seq<real>, y: seq<real>, a: nat, b: nat)
    requires |x| == |y| && a <= b <= |x|
    ensures Dot(x[..b], y[..b]) == Dot(x[..a], y[..a]) + Dot(x[a..b], y[a..b])
    decreases b
  {
    hide Mul;
    if a < b {
      DotCut(x, y, a, b - 1);
      assert x[..b][..b - 1] == x[..b - 1] && y[..b][..b - 1] == y[..b - 1];
      assert x[a..b][..b - 1 - a] == x[a..b - 1] && y[a..b][..b - 1 - a] == y[a..b - 1];
    }
  }

  lemma {:induction false} Dot3Cut(p: seq<real>, x: seq<real>, y: seq<real>, a: nat, b: nat)
    requires |p| == |x| == |y| && a <= b <= |x|
    ensures Dot3(p[..b], x[..b], y[..b]) == Dot3(p[..a], x[..a], y[..a]) + Dot3(p[a..b], x[a..b], y[a..b])
    decreases b
  {
    hide Mul;
    if a < b {
      Dot3Cut(p, x, y, a, b - 1);
      assert p[..b][..b - 1] == p[..b - 1] && x[..b][..b - 1] == x[..b - 1] && y[..b][..b - 1] == y[..b - 1];
      var p', x', y' := p[a..b], x[a..b], y[a..b];
      assert p'[..b - 1 - a] == p[a..b - 1] && x'[..b - 1 - a] == x[a..b - 1] && y'[..b - 1 - a] == y[a..b - 1];
    }
  }
}
