/** The Fisher geometry behind every FEC statistic (risk_aware_opsd/verpo_topk.py and
    verpo_zpd.py): variances and covariances under the Student weights p, the ridge
    projection of the task direction on the nuisance direction, and its residual.
    Norms are kept as squares, and the cosine as its numerator and squared denominator. */
module Fisher {
  import opened Vectors

  function Max0(v: real): real {
    if v < 0.0 then 0.0 else v
  }

  function Variance(p: seq<real>, x: seq<real>): real
    requires |p| == |x|
  {
    Dot3(p, x, x) - Square(Dot(p, x))
  }

  function Covariance(p: seq<real>, x: seq<real>, y: seq<real>): real
    requires |p| == |x| == |y|
  {
    Dot3(p, x, y) - Mul(Dot(p, x), Dot(p, y))
  }

  datatype Geometry = Geometry(
    projection: real, residualMean: real, fisherCost: real,
    displacementSq: real, taskSq: real, nuisanceSq: real,
    covariance: real, cosineDenominatorSq: real, leftover: real,
    residual: seq<real>)

  // The accumulated moments, and the scalars derived from them.
  datatype Sums = Sums(
    meanTask: real, meanNuisance: real, secondTask: real, secondNuisance: real,
    cross: real, taskSq: real, nuisanceSq: real)
  {
    function TaskVariance(): real {
      Max0(secondTask - Square(meanTask))
    }
    function NuisanceVariance(): real {
      Max0(secondNuisance - Square(meanNuisance))
    }
    function Cov(): real {
      cross - Mul(meanTask, meanNuisance)
    }
    function Projection(eps: real): real
      requires 0.0 < eps
    {
      Cov() / (NuisanceVariance() + eps)
    }
    function ResidualMean(a: real): real {
      meanTask - Mul(a, meanNuisance)
    }
    function ResidualVariance(a: real): real {
      Max0(TaskVariance() - 2.0 * Mul(a, Cov()) + Mul(Square(a), NuisanceVariance()))
    }
    function CosineDenominatorSq(eps: real): real {
      Mul(TaskVariance() + eps, NuisanceVariance() + eps)
    }
    function Leftover(a: real): real {
      Cov() - Mul(a, NuisanceVariance())
    }
  }

  function Moments(p: seq<real>, task: seq<real>, nuisance: seq<real>): Sums
    requires |p| == |task| == |nuisance|
  {
    Sums(Dot(p, task), Dot(p, nuisance), Dot3(p, task, task), Dot3(p, nuisance, nuisance),
         Dot3(p, task, nuisance), Dot(task, task), Dot(nuisance, nuisance))
  }

  function FisherGeometry(p: seq<real>, task: seq<real>, nuisance: seq<real>, eps: real): Geometry
    requires |p| == |task| == |nuisance| && 0.0 < eps
  {
    var s := Moments(p, task, nuisance);
    var a := s.Projection(eps);
    var residual := Minus(task, a, nuisance);
    Geometry(a, s.ResidualMean(a), s.ResidualVariance(a), Dot(residual, residual), s.taskSq, s.nuisanceSq,
             s.Cov(), s.CosineDenominatorSq(eps), s.Leftover(a), residual)
  }

  // ----------------------------------------------- the form is positive semidefinite

  /** The moment formula is a sum of squares about the mean plus what the omitted mass,
      sitting at zero, adds. */
  lemma VarianceIsCentered(p: seq<real>, x: seq<real>)
    requires |p| == |x|
    ensures var mu := Dot(p, x);
            Variance(p, x) == Dot3(p, Shift(x, mu), Shift(x, mu)) + Mul(1.0 - Total(p), Square(mu))
  {
    hide Dot, Dot3, Total, Shift, Mul;
    ShiftExpands(p, x, Dot(p, x));
    CenteredTerm(Dot3(p, x, x), Dot(p, x), Total(p));
  }

  lemma CenteredTerm(s: real, mu: real, m: real)
    ensures s - Square(mu) == (s - 2.0 * Mul(mu, mu) + Mul(Square(mu), m)) + Mul(1.0 - m, Square(mu))
  {
  }

  lemma VarianceIsNonnegative(p: seq<real>, x: seq<real>)
    requires |p| == |x| && Weights(p)
    ensures 0.0 <= Variance(p, x)
  {
    var mu := Dot(p, x);
    hide Mul, Square, Dot, Dot3, Total, Variance;
    Dot3Nonneg(p, Shift(x, mu));
    VarianceIsCentered(p, x);
    SquareNonneg(mu);
    ProductNonneg(1.0 - Total(p), Square(mu));
  }

  // Var(x - a*y) = Var(x) - 2a Cov(x,y) + a^2 Var(y).
  lemma VarianceExpands(p: seq<real>, x: seq<real>, a: real, y: seq<real>)
    requires |p| == |x| == |y|
    ensures Variance(p, Minus(x, a, y))
            == Variance(p, x) - 2.0 * Mul(a, Covariance(p, x, y)) + Mul(Square(a), Variance(p, y))
  {
    hide Dot, Dot3, Minus, Square, Mul;
    Dot3Expands(p, x, a, y);
    DotMinusRight(p, x, a, y);
    VarianceTerm(Dot3(p, x, x), Dot3(p, x, y), Dot3(p, y, y), Dot(p, x), Dot(p, y), a);
  }

  lemma VarianceTerm(xx: real, xy: real, yy: real, mx: real, my: real, a: real)
    ensures (xx - 2.0 * Mul(a, xy) + Mul(Square(a), yy)) - Square(mx - Mul(a, my))
            == (xx - Square(mx)) - 2.0 * Mul(a, xy - Mul(mx, my)) + Mul(Square(a), yy - Square(my))
  {
  }

  // Cov(x - a*y, y) = Cov(x,y) - a Var(y).
  lemma CovarianceOfResidual(p: seq<real>, x: seq<real>, a: real, y: seq<real>)
    requires |p| == |x| == |y|
    ensures Covariance(p, Minus(x, a, y), y) == Covariance(p, x, y) - Mul(a, Variance(p, y))
  {
    hide Dot, Dot3, Minus, Square, Mul;
    Dot3Minus(p, x, a, y, y);
    DotMinusRight(p, x, a, y);
    CovarianceTerm(Dot3(p, x, y), Dot3(p, y, y), Dot(p, x), Dot(p, y), a);
  }

  lemma CovarianceTerm(xy: real, yy: real, mx: real, my: real, a: real)
    ensures (xy - Mul(a, yy)) - Mul(mx - Mul(a, my), my) == (xy - Mul(mx, my)) - Mul(a, yy - Square(my))
  {
  }

  lemma CauchySchwarz(p: seq<real>, x: seq<real>, y: seq<real>)
    requires |p| == |x| == |y| && Weights(p)
    ensures Square(Covariance(p, x, y)) <= Mul(Variance(p, x), Variance(p, y))
  {
    hide Covariance, Variance, Square, Weights, Mul, Witness;
    var c, vx, vy := Covariance(p, x, y), Variance(p, x), Variance(p, y);
    VarianceIsNonnegative(p, x);
    VarianceIsNonnegative(p, y);
    var a := Witness(vx, c, vy);
    VarianceExpands(p, x, a, y);
    VarianceIsNonnegative(p, Minus(x, a, y));
    Discriminant(vx, c, vy);
  }

  // Where the quadratic vx - 2ac + a^2 vy is smallest, or negative if it has no minimum.
  function Witness(vx: real, c: real, vy: real): real {
    if vy != 0.0 then c / vy else if c != 0.0 then (vx + 1.0) / (2.0 * c) else 0.0
  }

  lemma Discriminant(vx: real, c: real, vy: real)
    requires 0.0 <= vy
    requires var a := Witness(vx, c, vy); 0.0 <= vx - 2.0 * Mul(a, c) + Mul(Square(a), vy)
    ensures Square(c) <= Mul(vx, vy)
  {
    hide Square, Mul;
    if vy != 0.0 {
      var a := c / vy;
      Quotient(c, vy);
      DiscriminantTerm(vx, c, vy, a);
    } else if c != 0.0 {
      Escape(vx, c);
      MulZero(Square(Witness(vx, c, vy)));
      assert false;
    } else {
      MulZero(vx);
      MulZero(c);
      assert Square(c) == 0.0 by { ZeroSquare(); }
    }
  }

  lemma ZeroSquare()
    ensures Square(0.0) == 0.0
  {
  }

  lemma Quotient(c: real, v: real)
    requires v != 0.0
    ensures Mul(c / v, v) == c
  {
  }

  lemma Escape(vx: real, c: real)
    requires c != 0.0
    ensures 2.0 * Mul((vx + 1.0) / (2.0 * c), c) == vx + 1.0
  {
    var d := 2.0 * c;
    var a := (vx + 1.0) / d;
    assert a * d == vx + 1.0;
    assert a * d == 2.0 * (a * c);
  }

  lemma DiscriminantTerm(vx: real, c: real, vy: real, a: real)
    requires 0.0 < vy && Mul(a, vy) == c && 0.0 <= vx - 2.0 * Mul(a, c) + Mul(Square(a), vy)
    ensures Square(c) <= Mul(vx, vy)
  {
    hide Mul, Square;
    Factor(a, vy);
    Regroup(a, vy);
    ProductNonneg(vx - Mul(a, c), vy);
    Subtract(vx, Mul(a, c), vy);
  }

  lemma Factor(a: real, v: real)
    ensures Mul(Square(a), v) == Mul(a, Mul(a, v))
  {
  }

  lemma Regroup(a: real, v: real)
    ensures Square(Mul(a, v)) == Mul(Mul(a, Mul(a, v)), v)
  {
  }

  lemma Subtract(x: real, y: real, v: real)
    ensures Mul(x - y, v) == Mul(x, v) - Mul(y, v)
  {
  }

  // -------------------------------------------------------------- exact geometry

  // In exact arithmetic the two moment clamps change nothing.
  lemma ClampsAreIdle(p: seq<real>, task: seq<real>, nuisance: seq<real>)
    requires |p| == |task| == |nuisance| && Weights(p)
    ensures Moments(p, task, nuisance).TaskVariance() == Variance(p, task)
    ensures Moments(p, task, nuisance).NuisanceVariance() == Variance(p, nuisance)
    ensures 0.0 <= Variance(p, task) && 0.0 <= Variance(p, nuisance)
    ensures Moments(p, task, nuisance).Cov() == Covariance(p, task, nuisance)
  {
    hide Dot, Dot3, Weights, Square, Mul;
    VarianceIsNonnegative(p, task);
    VarianceIsNonnegative(p, nuisance);
  }

  // The scalars, once the two clamped variances and the covariance are known.
  lemma SumsFields(s: Sums, eps: real, vt: real, vn: real, c: real)
    requires 0.0 < eps && 0.0 <= vn && s.TaskVariance() == vt && s.NuisanceVariance() == vn && s.Cov() == c
    ensures var a := s.Projection(eps);
      && Mul(a, vn + eps) == c
      && s.ResidualMean(a) == s.meanTask - Mul(a, s.meanNuisance)
      && s.ResidualVariance(a) == Max0(vt - 2.0 * Mul(a, c) + Mul(Square(a), vn))
      && s.CosineDenominatorSq(eps) == Mul(vt + eps, vn + eps)
      && s.Leftover(a) == c - Mul(a, vn)
  {
    hide Mul, Square, Max0, Sums.TaskVariance, Sums.NuisanceVariance, Sums.Cov, Sums.Projection;
    ProjectionSolves(s, eps);
  }

  // The geometry in terms of the two variances and the covariance.
  lemma GeometryFields(p: seq<real>, task: seq<real>, nuisance: seq<real>, eps: real)
    requires |p| == |task| == |nuisance| && Weights(p) && 0.0 < eps
    ensures var g := FisherGeometry(p, task, nuisance, eps);
      var c, vt, vn, a := Covariance(p, task, nuisance), Variance(p, task), Variance(p, nuisance), g.projection;
      && 0.0 <= vt && 0.0 <= vn && Mul(a, vn + eps) == c
      && g.residual == Minus(task, a, nuisance) && g.residualMean == Dot(p, task) - Mul(a, Dot(p, nuisance))
      && g.fisherCost == Max0(vt - 2.0 * Mul(a, c) + Mul(Square(a), vn))
      && g.covariance == c && g.cosineDenominatorSq == Mul(vt + eps, vn + eps)
      && g.leftover == c - Mul(a, vn)
  {
    hide Dot, Dot3, Weights, Square, Minus, Mul, Covariance, Variance, Max0;
    hide Sums.TaskVariance, Sums.NuisanceVariance, Sums.Cov, Sums.Projection;
    hide Sums.ResidualMean, Sums.ResidualVariance, Sums.CosineDenominatorSq, Sums.Leftover;
    ClampsAreIdle(p, task, nuisance);
    SumsFields(Moments(p, task, nuisance), eps, Variance(p, task), Variance(p, nuisance),
        Covariance(p, task, nuisance));
  }

  lemma ProjectionSolves(s: Sums, eps: real)
    requires 0.0 < eps && 0.0 <= s.NuisanceVariance()
    ensures Mul(s.Projection(eps), s.NuisanceVariance() + eps) == s.Cov()
  {
    hide Mul, Sums.NuisanceVariance, Sums.Cov;
    Quotient(s.Cov(), s.NuisanceVariance() + eps);
  }

  /** Every field of the geometry is what its name says of the actual residual vector:
      fisher_cost is its variance, residual_mean its mean, leftover its covariance with the
      nuisance; and the cost never exceeds the task's own variance. */
  lemma GeometryDescribesResidual(p: seq<real>, task: seq<real>, nuisance: seq<real>, eps: real)
    requires |p| == |task| == |nuisance| && Weights(p) && 0.0 < eps
    ensures var g := FisherGeometry(p, task, nuisance, eps);
      && |g.residual| == |p|
      && g.fisherCost == Variance(p, g.residual)
      && g.residualMean == Dot(p, g.residual)
      && g.leftover == Covariance(p, g.residual, nuisance)
      && g.leftover == Mul(g.projection, eps)
      && 0.0 <= g.fisherCost <= Variance(p, task)
  {
    GeometryFields(p, task, nuisance, eps);
    hide FisherGeometry, Covariance, Variance, Square, Weights, Dot, Minus, Mul;
    var g := FisherGeometry(p, task, nuisance, eps);
    var a, c, vn := g.projection, Covariance(p, task, nuisance), Variance(p, nuisance);
    VarianceExpands(p, task, a, nuisance);
    VarianceIsNonnegative(p, g.residual);
    CovarianceOfResidual(p, task, a, nuisance);
    DotMinusRight(p, task, a, nuisance);
    Distribute(a, vn, eps);
    CostDrops(a, vn, eps);
  }

  lemma Distribute(a: real, x: real, y: real)
    ensures Mul(a, x + y) == Mul(a, x) + Mul(a, y)
  {
  }

  lemma CostDrops(a: real, vn: real, eps: real)
    requires 0.0 <= vn && 0.0 < eps
    ensures - 2.0 * Mul(a, Mul(a, vn + eps)) + Mul(Square(a), vn) <= 0.0
  {
    hide Mul, Square;
    SquareNonneg(a);
    ProductNonneg(Square(a), vn);
    ProductNonneg(Square(a), eps);
    Factor(a, vn + eps);
    Distribute(Square(a), vn, eps);
  }

  // What the projection is meant to minimise.
  function RidgeObjective(p: seq<real>, task: seq<real>, nuisance: seq<real>, eps: real, a: real): real
    requires |p| == |task| == |nuisance|
  {
    Variance(p, Minus(task, a, nuisance)) + Mul(eps, Square(a))
  }

  lemma ObjectiveExpands(p: seq<real>, task: seq<real>, nuisance: seq<real>, eps: real, a: real)
    requires |p| == |task| == |nuisance|
    ensures RidgeObjective(p, task, nuisance, eps, a)
            == Variance(p, task) - 2.0 * Mul(a, Covariance(p, task, nuisance))
               + Mul(Square(a), Variance(p, nuisance) + eps)
  {
    hide Variance, Covariance, Square, Mul;
    VarianceExpands(p, task, a, nuisance);
    Distribute(Square(a), Variance(p, nuisance), eps);
    Swap(eps, Square(a));
  }

  /** The projection is the exact and only minimiser: any other coefficient costs more by
      (Var(nuisance) + eps) times its squared distance. */
  lemma ProjectionIsRidgeMinimiser(p: seq<real>, task: seq<real>, nuisance: seq<real>, eps: real, a: real)
    requires |p| == |task| == |nuisance| && Weights(p) && 0.0 < eps
    ensures var best := FisherGeometry(p, task, nuisance, eps).projection;
      && RidgeObjective(p, task, nuisance, eps, a)
         == RidgeObjective(p, task, nuisance, eps, best) + Mul(Square(a - best), Variance(p, nuisance) + eps)
      && RidgeObjective(p, task, nuisance, eps, best) <= RidgeObjective(p, task, nuisance, eps, a)
      && (RidgeObjective(p, task, nuisance, eps, best) == RidgeObjective(p, task, nuisance, eps, a) <==> a == best)
  {
    GeometryFields(p, task, nuisance, eps);
    hide FisherGeometry, Covariance, Variance, Square, Weights, RidgeObjective, Mul;
    var best := FisherGeometry(p, task, nuisance, eps).projection;
    ObjectiveExpands(p, task, nuisance, eps, a);
    ObjectiveExpands(p, task, nuisance, eps, best);
    var k := Variance(p, nuisance) + eps;
    CompleteSquare(k, best, a);
    StrictGap(k, a - best);
  }

  lemma CompleteSquare(k: real, best: real, a: real)
    ensures - 2.0 * Mul(a, Mul(best, k)) + Mul(Square(a), k)
            == - 2.0 * Mul(best, Mul(best, k)) + Mul(Square(best), k) + Mul(Square(a - best), k)
  {
  }

  lemma StrictGap(k: real, d: real)
    requires 0.0 < k
    ensures 0.0 <= Mul(Square(d), k) && (Mul(Square(d), k) == 0.0 <==> d == 0.0)
  {
    hide Mul, Square;
    if d != 0.0 {
      SquarePositive(d);
      PositiveProduct(Square(d), k);
    } else {
      ZeroSquare();
      MulZero(k);
    }
  }

  lemma SquarePositive(d: real)
    requires d != 0.0
    ensures 0.0 < Square(d)
  {
    if 0.0 < d {
      PositiveProduct(d, d);
    } else {
      PositiveProduct(-d, -d);
      assert Square(d) == Mul(-d, -d);
    }
  }

  lemma PositiveProduct(a: real, b: real)
    requires 0.0 < a && 0.0 < b
    ensures 0.0 < Mul(a, b)
  {
  }

  /** Whatever positive root the denominator has, the quotient already lies in [-1, 1],
      so clamping the cosine changes nothing. */
  lemma CosineNeedsNoClamp(p: seq<real>, task: seq<real>, nuisance: seq<real>, eps: real, root: real)
    requires |p| == |task| == |nuisance| && Weights(p) && 0.0 < eps
    requires 0.0 < root && Square(root) == FisherGeometry(p, task, nuisance, eps).cosineDenominatorSq
    ensures -1.0 <= FisherGeometry(p, task, nuisance, eps).covariance / root <= 1.0
  {
    GeometryFields(p, task, nuisance, eps);
    hide FisherGeometry, Covariance, Variance, Square, Weights, Mul;
    CauchySchwarz(p, task, nuisance);
    Enlarge(Variance(p, task), Variance(p, nuisance), eps);
    RootBounds(Covariance(p, task, nuisance), root);
  }

  lemma Enlarge(vt: real, vn: real, eps: real)
    requires 0.0 <= vt && 0.0 <= vn && 0.0 < eps
    ensures Mul(vt, vn) <= Mul(vt + eps, vn + eps)
  {
    hide Mul;
    ProductNonneg(eps, vt);
    ProductNonneg(eps, vn);
    ProductNonneg(eps, eps);
    Distribute(vt + eps, vn, eps);
    Swap(vt + eps, vn);
    Swap(vt + eps, eps);
    Distribute(vn, vt, eps);
    Distribute(eps, vt, eps);
    Swap(vn, vt);
    Swap(vn, eps);
  }

  lemma RootBounds(c: real, root: real)
    requires 0.0 < root && Square(c) <= Square(root)
    ensures -1.0 <= c / root <= 1.0
  {
    if root < c {
      assert false;
    } else if root < -c {
      assert false;
    } else {
      DivisionBounds(c, root);
    }
  }

  lemma DivisionBounds(c: real, root: real)
    requires 0.0 < root && -root <= c <= root
    ensures -1.0 <= c / root <= 1.0
  {
  }
}
