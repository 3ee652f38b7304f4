/** The FEC statistics of one token, computed in two passes over chunks of the whole vocabulary
    (risk_aware_opsd/verpo_zpd.py).  Softmax outputs and log-probabilities are given. */
module FecStats {
  import opened Vectors
  import opened Fisher

  datatype Stats = Stats(
    benefit: real, fisherCost: real, displacementSq: real, taskSq: real, nuisanceSq: real,
    covariance: real, cosineDenominatorSq: real, projection: real, leftover: real, alignment: real)

  datatype Outcome = Ok(stats: Stats) | Raises

  // The three Teacher rows: probabilities (Forward KL) or log-probabilities (Reverse KL).
  datatype Teachers = Teachers(positive: seq<real>, negative: seq<real>, noEvidence: seq<real>) {
    predicate Width(n: nat) {
      |positive| == |negative| == |noEvidence| == n
    }
    function Cut(a: nat, b: nat): (r: Teachers)
      requires Width(|positive|) && a <= b <= |positive|
      ensures r.Width(b - a)
    {
      Teachers(positive[a..b], negative[a..b], noEvidence[a..b])
    }
    function Task(): (r: seq<real>)
      requires Width(|positive|)
      ensures |r| == |positive| && forall i :: 0 <= i < |r| ==> r[i] == positive[i] - negative[i]
    {
      seq(|positive|, i requires 0 <= i < |positive| => TaskAt(i))
    }
    function Nuisance(): (r: seq<real>)
      requires Width(|positive|)
      ensures |r| == |positive|
      ensures forall i :: 0 <= i < |r| ==> r[i] == 0.5 * (positive[i] + negative[i]) - noEvidence[i]
    {
      seq(|positive|, i requires 0 <= i < |positive| => NuisanceAt(i))
    }
    function TaskAt(i: nat): real
      requires Width(|positive|) && i < |positive|
    {
      positive[i] - negative[i]
    }
    function NuisanceAt(i: nat): real
      requires Width(|positive|) && i < |positive|
    {
      0.5 * (positive[i] + negative[i]) - noEvidence[i]
    }
  }

  // The statistics of the token in slot `at`.
  function TokenStats(g: Geometry, at: nat, advantage: real): Stats
    requires at < |g.residual|
  {
    var alignment := g.residual[at] - g.residualMean;
    Stats(Mul(advantage, alignment), g.fisherCost, g.displacementSq, g.taskSq, g.nuisanceSq,
          g.covariance, g.cosineDenominatorSq, g.projection, g.leftover, alignment)
  }

  function ForwardGeometry(p: seq<real>, t: Teachers, eps: real): Geometry
    requires t.Width(|p|) && 0.0 < eps
  {
    FisherGeometry(p, t.Task(), t.Nuisance(), eps)
  }

  // Log-ratios are mapped to tangents p*(r - sum p r) before they are projected.
  function ReverseGeometry(p: seq<real>, task: seq<real>, nuisance: seq<real>, eps: real): Geometry
    requires |p| == |task| == |nuisance| && 0.0 < eps
  {
    FisherGeometry(p, Tangent(p, task, Dot(p, task)), Tangent(p, nuisance, Dot(p, nuisance)), eps)
  }

  // ---------------------------------------------------------- what the statistics mean

  // The statistics, at one coordinate, of projecting the direction x on the direction y under the
  // weights p: each field in terms of the two directions and the residual x - a*y.
  ghost predicate Describes(s: Stats, p: seq<real>, x: seq<real>, y: seq<real>, at: nat, advantage: real, eps: real)
    requires |p| == |x| == |y| && at < |p|
  {
    var a, c, vn := s.projection, Covariance(p, x, y), Max0(Variance(p, y));
    var residual := Minus(x, a, y);
    && Mul(a, vn + eps) == c && s.covariance == c && s.leftover == c - Mul(a, vn)
    && s.alignment == residual[at] - Dot(p, residual) && s.benefit == Mul(advantage, s.alignment)
    && s.displacementSq == Dot(residual, residual) && s.taskSq == Dot(x, x) && s.nuisanceSq == Dot(y, y)
    && s.cosineDenominatorSq == Mul(Max0(Variance(p, x)) + eps, vn + eps)
    && (Weights(p) ==>
          && s.fisherCost == Variance(p, residual) && s.leftover == Covariance(p, residual, y)
          && s.cosineDenominatorSq == Mul(Variance(p, x) + eps, Variance(p, y) + eps))
  }

  lemma MomentsDescribe(p: seq<real>, x: seq<real>, y: seq<real>, eps: real)
    requires |p| == |x| == |y| && 0.0 < eps
    ensures var s := Moments(p, x, y); var a := s.Projection(eps);
      && s.Cov() == Covariance(p, x, y) && s.taskSq == Dot(x, x) && s.nuisanceSq == Dot(y, y)
      && Mul(a, Max0(Variance(p, y)) + eps) == Covariance(p, x, y)
      && s.ResidualMean(a) == Dot(p, x) - Mul(a, Dot(p, y))
      && s.CosineDenominatorSq(eps) == Mul(Max0(Variance(p, x)) + eps, Max0(Variance(p, y)) + eps)
      && s.Leftover(a) == Covariance(p, x, y) - Mul(a, Max0(Variance(p, y)))
  {
    hide Mul, Dot, Dot3, Square;
    var s := Moments(p, x, y);
    assert 0.0 <= s.NuisanceVariance();
    ProjectionSolves(s, eps);
  }

  lemma StatsDescribe(p: seq<real>, x: seq<real>, y: seq<real>, at: nat, advantage: real, eps: real)
    requires |p| == |x| == |y| && at < |p| && 0.0 < eps
    ensures Describes(TokenStats(FisherGeometry(p, x, y, eps), at, advantage), p, x, y, at, advantage, eps)
  {
    MomentsDescribe(p, x, y, eps);
    var a := FisherGeometry(p, x, y, eps).projection;
    DotMinusRight(p, x, a, y);
    if Weights(p) {
      GeometryDescribesResidual(p, x, y, eps);
      VarianceIsNonnegative(p, x);
      VarianceIsNonnegative(p, y);
    }
    hide Mul, Dot, Moments, Minus, Weights, Variance, Covariance, Sums.Projection, Sums.ResidualMean,
        Sums.ResidualVariance, Sums.CosineDenominatorSq, Sums.Leftover, Sums.Cov;
  }

  // ---------------------------------------------------------- prefix accumulation

  function Add(s: Sums, t: Sums): Sums {
    Sums(s.meanTask + t.meanTask, s.meanNuisance + t.meanNuisance, s.secondTask + t.secondTask,
         s.secondNuisance + t.secondNuisance, s.cross + t.cross, s.taskSq + t.taskSq, s.nuisanceSq + t.nuisanceSq)
  }

  lemma MomentsCut(p: seq<real>, x: seq<real>, y: seq<real>, a: nat, b: nat)
    requires |p| == |x| == |y| && a <= b <= |p|
    ensures Moments(p[..b], x[..b], y[..b]) == Add(Moments(p[..a], x[..a], y[..a]), Moments(p[a..b], x[a..b], y[a..b]))
  {
    hide Dot, Dot3, Mul;
    DotCut(p, x, a, b);
    DotCut(p, y, a, b);
    DotCut(x, x, a, b);
    DotCut(y, y, a, b);
    Dot3Cut(p, x, x, a, b);
    Dot3Cut(p, y, y, a, b);
    Dot3Cut(p, x, y, a, b);
  }

  lemma DirectionsCut(t: Teachers, a: nat, b: nat)
    requires t.Width(|t.positive|) && a <= b <= |t.positive|
    ensures t.Cut(a, b).Task() == t.Task()[a..b] && t.Cut(a, b).Nuisance() == t.Nuisance()[a..b]
  {
    var c := t.Cut(a, b);
    assert forall i :: 0 <= i < b - a ==> c.TaskAt(i) == t.TaskAt(a + i);
    assert forall i :: 0 <= i < b - a ==> c.NuisanceAt(i) == t.NuisanceAt(a + i);
    var x, y := t.Task()[a..b], t.Nuisance()[a..b];
    assert forall i :: 0 <= i < b - a ==> c.Task()[i] == x[i];
    assert forall i :: 0 <= i < b - a ==> c.Nuisance()[i] == y[i];
  }

  lemma TangentCut(p: seq<real>, x: seq<real>, c: real, a: nat, b: nat)
    requires |p| == |x| && a <= b <= |p|
    ensures Tangent(p[a..b], x[a..b], c) == Tangent(p, x, c)[a..b]
  {
    hide Mul;
    var l, r := Tangent(p[a..b], x[a..b], c), Tangent(p, x, c)[a..b];
    assert forall i :: 0 <= i < b - a ==> l[i] == r[i];
  }

  lemma MinusCut(x: seq<real>, c: real, y: seq<real>, a: nat, b: nat)
    requires |x| == |y| && a <= b <= |x|
    ensures Minus(x[a..b], c, y[a..b]) == Minus(x, c, y)[a..b]
  {
    hide Mul;
    var l, r := Minus(x[a..b], c, y[a..b]), Minus(x, c, y)[a..b];
    assert forall i :: 0 <= i < b - a ==> l[i] == r[i];
  }

  // First pass: the seven moments, chunk by chunk.
  method AccumulateMoments(p: seq<real>, t: Teachers, chunk: nat) returns (s: Sums)
    requires t.Width(|p|) && 0 < chunk
    ensures s == Moments(p, t.Task(), t.Nuisance())
  {
    hide Moments;
    ghost var x, y := t.Task(), t.Nuisance();
    s := Sums(0.0, 0.0, 0.0, 0.0, 0.0, 0.0, 0.0);
    var start := 0;
    EmptyMoments(p, x, y);
    while start < |p|
      invariant start <= |p|
      invariant s == Moments(p[..start], x[..start], y[..start])
    {
      var stop := if start + chunk <= |p| then start + chunk else |p|;
      var cut := t.Cut(start, stop);
      s := Add(s, Moments(p[start..stop], cut.Task(), cut.Nuisance()));
      DirectionsCut(t, start, stop);
      MomentsCut(p, x, y, start, stop);
      start := stop;
    }
    assert p[..start] == p && x[..start] == x && y[..start] == y;
  }

  lemma EmptyMoments(p: seq<real>, x: seq<real>, y: seq<real>)
    requires |p| == |x| == |y|
    ensures Moments(p[..0], x[..0], y[..0]) == Sums(0.0, 0.0, 0.0, 0.0, 0.0, 0.0, 0.0)
  {
  }

  // Second pass: the squared length of the residual direction.
  method AccumulateResidual(t: Teachers, a: real, chunk: nat) returns (total: real)
    requires t.Width(|t.positive|) && 0 < chunk
    ensures total == Dot(Minus(t.Task(), a, t.Nuisance()), Minus(t.Task(), a, t.Nuisance()))
  {
    hide Minus, Mul;
    ghost var r := Minus(t.Task(), a, t.Nuisance());
    total := 0.0;
    var start := 0;
    while start < |t.positive|
      invariant start <= |t.positive| == |r|
      invariant total == Dot(r[..start], r[..start])
    {
      var stop := if start + chunk <= |t.positive| then start + chunk else |t.positive|;
      var cut := t.Cut(start, stop);
      var fec := Minus(cut.Task(), a, cut.Nuisance());
      total := total + Dot(fec, fec);
      DirectionsCut(t, start, stop);
      MinusCut(t.Task(), a, t.Nuisance(), start, stop);
      DotCut(r, r, start, stop);
      start := stop;
    }
    assert r[..start] == r;
  }

  /** The two-pass Forward-KL statistics equal the moment geometry of the whole vocabulary,
      whatever the chunk size; they raise exactly on mismatched rows, a token outside the
      vocabulary, or a chunk size or epsilon that is not positive. */
  method ForwardFecStats(p: seq<real>, t: Teachers, sampled: nat, advantage: real, chunk: int, eps: real)
      returns (out: Outcome)
    ensures out.Raises? <==> !(t.Width(|p|) && sampled < |p| && 0 < chunk && 0.0 < eps)
    ensures out.Ok? ==> out.stats == TokenStats(ForwardGeometry(p, t, eps), sampled, advantage)
    ensures out.Ok? ==> Describes(out.stats, p, t.Task(), t.Nuisance(), sampled, advantage, eps)
  {
    hide Mul, Dot, Moments, Sums.Projection, Sums.ResidualMean, Sums.ResidualVariance, Sums.CosineDenominatorSq,
        Sums.Leftover, Describes;
    if !t.Width(|p|) || |p| <= sampled || chunk <= 0 || eps <= 0.0 {
      return Raises;
    }
    var s := AccumulateMoments(p, t, chunk);
    var a := s.Projection(eps);
    var fecSq := AccumulateResidual(t, a, chunk);
    var alignment := (t.TaskAt(sampled) - Mul(a, t.NuisanceAt(sampled))) - s.ResidualMean(a);
    SumsOfMoments(p, t.Task(), t.Nuisance());
    out := Ok(Stats(Mul(advantage, alignment), s.ResidualVariance(a), fecSq, s.taskSq, s.nuisanceSq,
                    s.Cov(), s.CosineDenominatorSq(eps), a, s.Leftover(a), alignment));
    StatsDescribe(p, t.Task(), t.Nuisance(), sampled, advantage, eps);
  }

  lemma SumsOfMoments(p: seq<real>, x: seq<real>, y: seq<real>)
    requires |p| == |x| == |y|
    ensures Moments(p, x, y).taskSq == Dot(x, x) && Moments(p, x, y).nuisanceSq == Dot(y, y)
  {
  }

  // Reverse KL, first pass: the means of the two log-ratios.
  method AccumulateRatios(p: seq<real>, t: Teachers, chunk: nat) returns (meanTask: real, meanNuisance: real)
    requires t.Width(|p|) && 0 < chunk
    ensures meanTask == Dot(p, t.Task()) && meanNuisance == Dot(p, t.Nuisance())
  {
    hide Mul;
    ghost var x, y := t.Task(), t.Nuisance();
    meanTask, meanNuisance := 0.0, 0.0;
    var start := 0;
    while start < |p|
      invariant start <= |p|
      invariant meanTask == Dot(p[..start], x[..start]) && meanNuisance == Dot(p[..start], y[..start])
    {
      var stop := if start + chunk <= |p| then start + chunk else |p|;
      var cut := t.Cut(start, stop);
      meanTask := meanTask + Dot(p[start..stop], cut.Task());
      meanNuisance := meanNuisance + Dot(p[start..stop], cut.Nuisance());
      DirectionsCut(t, start, stop);
      DotCut(p, x, start, stop);
      DotCut(p, y, start, stop);
      start := stop;
    }
    assert p[..start] == p && x[..start] == x && y[..start] == y;
  }

  // Reverse KL, second pass: the moments of the tangents, and their plain inner product.
  method AccumulateTangents(p: seq<real>, t: Teachers, meanTask: real, meanNuisance: real, chunk: nat)
      returns (s: Sums, inner: real)
    requires t.Width(|p|) && 0 < chunk
    ensures var x, y := Tangent(p, t.Task(), meanTask), Tangent(p, t.Nuisance(), meanNuisance);
            s == Moments(p, x, y) && inner == Dot(x, y)
  {
    hide Mul, Moments, Tangent;
    ghost var x, y := Tangent(p, t.Task(), meanTask), Tangent(p, t.Nuisance(), meanNuisance);
    s, inner := Sums(0.0, 0.0, 0.0, 0.0, 0.0, 0.0, 0.0), 0.0;
    var start := 0;
    EmptyMoments(p, x, y);
    while start < |p|
      invariant start <= |p| == |x| == |y|
      invariant s == Moments(p[..start], x[..start], y[..start])
      invariant inner == Dot(x[..start], y[..start])
    {
      var stop := if start + chunk <= |p| then start + chunk else |p|;
      var cut := t.Cut(start, stop);
      var task := Tangent(p[start..stop], cut.Task(), meanTask);
      var nuisance := Tangent(p[start..stop], cut.Nuisance(), meanNuisance);
      s := Add(s, Moments(p[start..stop], task, nuisance));
      inner := inner + Dot(task, nuisance);
      DirectionsCut(t, start, stop);
      TangentCut(p, t.Task(), meanTask, start, stop);
      TangentCut(p, t.Nuisance(), meanNuisance, start, stop);
      MomentsCut(p, x, y, start, stop);
      DotCut(x, y, start, stop);
      start := stop;
    }
    assert p[..start] == p && x[..start] == x && y[..start] == y;
  }

  /** The two-pass Reverse-KL statistics, whose residual length is never summed but expanded
      as |t|^2 - 2a(t.n) + a^2|n|^2 and clamped, equal the tangent geometry of the whole vocabulary. */
  method ReverseFecStats(p: seq<real>, t: Teachers, sampled: nat, advantage: real, chunk: int, eps: real)
      returns (out: Outcome)
    ensures out.Raises? <==> !(t.Width(|p|) && sampled < |p| && 0 < chunk && 0.0 < eps)
    ensures out.Ok? ==> out.stats == TokenStats(ReverseGeometry(p, t.Task(), t.Nuisance(), eps), sampled, advantage)
    ensures out.Ok? ==>
      var x := Tangent(p, t.Task(), Dot(p, t.Task()));
      var y := Tangent(p, t.Nuisance(), Dot(p, t.Nuisance()));
      Describes(out.stats, p, x, y, sampled, advantage, eps)
  {
    hide Mul, Square, Dot, Moments, Minus, Tangent, Sums.Projection, Sums.ResidualMean, Sums.ResidualVariance,
        Sums.CosineDenominatorSq, Sums.Leftover, Describes;
    if !t.Width(|p|) || |p| <= sampled || chunk <= 0 || eps <= 0.0 {
      return Raises;
    }
    var meanTask, meanNuisance := AccumulateRatios(p, t, chunk);
    var s, inner := AccumulateTangents(p, t, meanTask, meanNuisance, chunk);
    var a := s.Projection(eps);
    var displacementSq := Max0(s.taskSq - 2.0 * Mul(a, inner) + Mul(Square(a), s.nuisanceSq));
    var taskAt := Mul(p[sampled], t.TaskAt(sampled) - meanTask);
    var nuisanceAt := Mul(p[sampled], t.NuisanceAt(sampled) - meanNuisance);
    var alignment := (taskAt - Mul(a, nuisanceAt)) - s.ResidualMean(a);
    ghost var x, y := Tangent(p, t.Task(), meanTask), Tangent(p, t.Nuisance(), meanNuisance);
    SumsOfMoments(p, x, y);
    NormExpands(x, a, y);
    DotSelfNonneg(Minus(x, a, y));
    assert Minus(x, a, y)[sampled] == taskAt - Mul(a, nuisanceAt);
    out := Ok(Stats(Mul(advantage, alignment), s.ResidualVariance(a), displacementSq, s.taskSq, s.nuisanceSq,
                    s.Cov(), s.CosineDenominatorSq(eps), a, s.Leftover(a), alignment));
    StatsDescribe(p, x, y, sampled, advantage, eps);
  }
}
