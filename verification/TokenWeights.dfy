/** The token weight drawn from benefit and Fisher cost (risk_aware_opsd/verpo_zpd.py). */
module TokenWeights {
  import opened Vectors
  import opened Fisher
  import opened FecStats
  import opened TopK
  import opened TruncatedStats

  // Refused: a hyperparameter is out of range, or the weight is not finite or, in the default
  // mode, not in [0, 1).
  datatype Weight = Weight(value: real) | Refused

  function TokenWeight(
    benefit: real, fisherCost: real, active: bool, costAlpha: real, costEpsilon: real, signed: bool): Weight
  {
    if costAlpha < 0.0 || costEpsilon <= 0.0 then Refused
    else if !active then Weight(0.0)
    else
      var h := if signed then benefit else Max0(benefit);
      var c := Mul(costAlpha, fisherCost) + costEpsilon;
      if h + c == 0.0 then Refused
      else
        var w := h / (h + c);
        if !signed && (w < 0.0 || 1.0 <= w) then Refused else Weight(w)
  }

  // w of h and c > 0, in lowest terms: w/(1 - w) = h/c.
  lemma Ratio(h: real, c: real)
    requires 0.0 < c && h + c != 0.0
    ensures var w := h / (h + c); Mul(w, c) == Mul(1.0 - w, h)
    ensures 0.0 <= h / (h + c) < 1.0 <==> 0.0 <= h
  {
    var s := h + c;
    var w := h / s;
    assert w * s == h;
    assert Mul(w, c) == Mul(1.0 - w, h) by {
      assert w * (h + c) == w * h + w * c;
    }
    Sign(w, h, c);
  }

  lemma Sign(w: real, h: real, c: real)
    requires 0.0 < c && h + c != 0.0 && w * (h + c) == h
    ensures 0.0 <= w < 1.0 <==> 0.0 <= h
  {
    var s := h + c;
    assert (1.0 - w) * (-s) == -c;
    if 0.0 <= h {
      NonnegativeFactor(w, s);
      NonnegativeFactor(1.0 - w, s);
      assert (1.0 - w) * s == c;
    } else if 0.0 < s {
      if 0.0 <= w {
        ProductNonneg(w, s);
        assert false;
      }
    } else if w < 1.0 {
      ProductNonneg(1.0 - w, -s);
      assert false;
    }
  }

  lemma NonnegativeFactor(w: real, s: real)
    requires 0.0 < s
    ensures 0.0 <= w * s ==> 0.0 <= w
    ensures 0.0 < w * s ==> 0.0 < w
  {
    if w <= 0.0 {
      ProductNonneg(-w, s);
      assert (-w) * s == -(w * s);
      if w < 0.0 {
        PositiveProduct(-w, s);
      }
    }
  }

  /** For a cost that is a variance the default mode never raises and its weight is in [0, 1);
      in signed mode the weight leaves that range exactly for a negative benefit, and the only
      failure is a benefit that cancels the cost. */
  lemma WeightIsAFraction(benefit: real, fisherCost: real, costAlpha: real, costEpsilon: real, signed: bool)
    requires 0.0 <= fisherCost && 0.0 <= costAlpha && 0.0 < costEpsilon
    ensures var r := TokenWeight(benefit, fisherCost, true, costAlpha, costEpsilon, signed);
      var c := Mul(costAlpha, fisherCost) + costEpsilon;
      && 0.0 < c
      && (r.Refused? <==> signed && benefit == -c)
      && (r.Weight? ==> Mul(r.value, c) == Mul(1.0 - r.value, if signed then benefit else Max0(benefit)))
      && (r.Weight? ==> (0.0 <= r.value < 1.0 <==> !signed || 0.0 <= benefit))
  {
    hide Mul;
    ProductNonneg(costAlpha, fisherCost);
    var c := Mul(costAlpha, fisherCost) + costEpsilon;
    var h := if signed then benefit else Max0(benefit);
    if h + c != 0.0 {
      Ratio(h, c);
    }
  }

  // For a positive benefit h and a cost c that is not positive, h/(h + c) is no fraction.
  lemma NoFraction(h: real, c: real)
    requires 0.0 < h && c <= 0.0 && h + c != 0.0
    ensures h / (h + c) < 0.0 || 1.0 <= h / (h + c)
  {
    var s := h + c;
    var w := h / s;
    assert w * s == h;
    if 0.0 < s {
      assert (w - 1.0) * s == -c;
      NonnegativeFactor(w - 1.0, s);
    } else {
      assert (-w) * (-s) == h;
      NonnegativeFactor(-w, -s);
    }
  }

  /** Every call, whatever the cost: it is refused on a bad hyperparameter or, for an active token,
      in signed mode when the benefit cancels the cost, and otherwise when the cost is not positive
      though the benefit is, or both are nothing.  An inactive token weighs nothing, and an active
      one what solves w * (h + c) = h. */
  lemma WeightOrRefused(
    benefit: real, fisherCost: real, active: bool, costAlpha: real, costEpsilon: real, signed: bool)
    ensures var r := TokenWeight(benefit, fisherCost, active, costAlpha, costEpsilon, signed);
      var c := Mul(costAlpha, fisherCost) + costEpsilon;
      var h := if signed || 0.0 <= benefit then benefit else 0.0;
      && (r.Refused? <==>
            || costAlpha < 0.0 || costEpsilon <= 0.0
            || (active && if signed then benefit + c == 0.0 else if 0.0 < benefit then c <= 0.0 else c == 0.0))
      && (r.Weight? && !active ==> r.value == 0.0)
      && (r.Weight? && active ==> Mul(r.value, h + c) == h)
  {
    hide Mul;
    var c := Mul(costAlpha, fisherCost) + costEpsilon;
    var h := if signed then benefit else Max0(benefit);
    if h + c != 0.0 {
      Quotient(h, h + c);
      if 0.0 < c {
        Ratio(h, c);
      } else if 0.0 < h {
        NoFraction(h, c);
      }
    }
  }

  // The default weight of a token with these statistics is in [0, 1).
  predicate GivesAFraction(s: Stats, costAlpha: real, costEpsilon: real) {
    var w := TokenWeight(s.benefit, s.fisherCost, true, costAlpha, costEpsilon, false);
    w.Weight? && 0.0 <= w.value < 1.0
  }

  lemma CostGivesAFraction(s: Stats, costAlpha: real, costEpsilon: real)
    requires 0.0 <= s.fisherCost && 0.0 <= costAlpha && 0.0 < costEpsilon
    ensures GivesAFraction(s, costAlpha, costEpsilon)
  {
    hide TokenWeight, Mul;
    WeightIsAFraction(s.benefit, s.fisherCost, costAlpha, costEpsilon, false);
  }

  /** The cost that the whole-vocabulary FEC statistics report, Forward or Reverse KL, is always
      one the weight accepts. */
  lemma FecWeightIsAFraction(
    p: seq<real>, t: Teachers, sampled: nat, advantage: real, eps: real, costAlpha: real, costEpsilon: real)
    requires t.Width(|p|) && Weights(p) && sampled < |p| && 0.0 < eps && 0.0 <= costAlpha && 0.0 < costEpsilon
    ensures var forward := TokenStats(ForwardGeometry(p, t, eps), sampled, advantage);
      GivesAFraction(forward, costAlpha, costEpsilon)
    ensures var reverse := TokenStats(ReverseGeometry(p, t.Task(), t.Nuisance(), eps), sampled, advantage);
      GivesAFraction(reverse, costAlpha, costEpsilon)
  {
    var x, y := Tangent(p, t.Task(), Dot(p, t.Task())), Tangent(p, t.Nuisance(), Dot(p, t.Nuisance()));
    hide FisherGeometry, Variance, Covariance, GivesAFraction, Mul, Weights, Dot, Tangent;
    GeometryDescribesResidual(p, t.Task(), t.Nuisance(), eps);
    GeometryDescribesResidual(p, x, y, eps);
    var forward := TokenStats(ForwardGeometry(p, t, eps), sampled, advantage);
    var reverse := TokenStats(ReverseGeometry(p, t.Task(), t.Nuisance(), eps), sampled, advantage);
    CostGivesAFraction(forward, costAlpha, costEpsilon);
    CostGivesAFraction(reverse, costAlpha, costEpsilon);
  }

  /** So is the cost on any truncated support. */
  lemma TruncatedWeightIsAFraction(
    p: seq<real>, t: Teachers, sources: seq<seq<nat>>, sampled: nat, advantage: real, eps: real,
    costAlpha: real, costEpsilon: real)
    requires t.Width(|p|) && Weights(p) && 0.0 < eps && sampled < |p| && 0.0 <= costAlpha && 0.0 < costEpsilon
    requires forall n :: 0 <= n < |sources| ==> Within(sources[n], |p|)
    ensures var sup := Build(sources, sampled);
      && Covers(sup, |p|)
      && var forward := TruncatedForward(p, t, sup, sampled, advantage, eps);
      var reverse := TruncatedReverse(p, t, sup, sampled, advantage, eps);
      && forward.Ok? && GivesAFraction(forward.stats, costAlpha, costEpsilon)
      && reverse.Ok? && GivesAFraction(reverse.stats, costAlpha, costEpsilon)
  {
    hide Build, Covers, TruncatedForward, TruncatedReverse, GivesAFraction, Variance, Mul, Weights;
    TruncatedStatsAreSound(p, t, sources, sampled, advantage, eps);
    var sup := Build(sources, sampled);
    CoversShaped(sup, |p|);
    CostGivesAFraction(TruncatedForward(p, t, sup, sampled, advantage, eps).stats, costAlpha, costEpsilon);
    CostGivesAFraction(TruncatedReverse(p, t, sup, sampled, advantage, eps).stats, costAlpha, costEpsilon);
  }

  lemma CoversShaped(sup: Support, V: nat)
    requires Covers(sup, V)
    ensures sup.Shaped() && Within(sup.ids, V)
  {
  }
}
