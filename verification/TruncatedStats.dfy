/** FEC statistics on a truncated Top-K support (risk_aware_opsd/verpo_topk.py), and what
    they are in terms of the whole vocabulary: the same geometry with every coordinate
    outside the support set to zero. */
module TruncatedStats {
  import opened Vectors
  import opened Fisher
  import opened FecStats
  import opened TopK

  // Gather a vocabulary row on the support; invalid slots hold zero.
  function OnSupport(x: seq<real>, sup: Support): (r: seq<real>)
    requires sup.Shaped() && Within(sup.ids, |x|)
    ensures |r| == |sup.ids| && forall i :: 0 <= i < |r| ==> r[i] == if sup.valid[i] then x[sup.ids[i]] else 0.0
  {
    seq(|sup.ids|, i requires 0 <= i < |sup.ids| => if sup.valid[i] then x[sup.ids[i]] else 0.0)
  }

  function TruncatedForward(p: seq<real>, t: Teachers, sup: Support, sampled: nat, advantage: real, eps: real): Outcome
    requires t.Width(|p|) && sup.Shaped() && Within(sup.ids, |p|)
  {
    var slot := SampledIndex(sup, sampled, 0);
    if eps <= 0.0 || slot.NoSlot? then Raises
    else
      SampledIndexFinds(sup, sampled, 0);
      Ok(TokenStats(FisherGeometry(OnSupport(p, sup), OnSupport(t.Task(), sup), OnSupport(t.Nuisance(), sup), eps),
          slot.index, advantage))
  }

  function TruncatedReverse(p: seq<real>, t: Teachers, sup: Support, sampled: nat, advantage: real, eps: real): Outcome
    requires t.Width(|p|) && sup.Shaped() && Within(sup.ids, |p|)
  {
    var slot := SampledIndex(sup, sampled, 0);
    if eps <= 0.0 || slot.NoSlot? then Raises
    else
      SampledIndexFinds(sup, sampled, 0);
      Ok(TokenStats(ReverseGeometry(OnSupport(p, sup), OnSupport(t.Task(), sup), OnSupport(t.Nuisance(), sup), eps),
          slot.index, advantage))
  }

  // The row with every coordinate outside s set to zero.
  ghost function Restrict(x: seq<real>, s: set<nat>): (r: seq<real>)
    ensures |r| == |x| && forall i :: 0 <= i < |x| ==> r[i] == if i in s then x[i] else 0.0
  {
    seq(|x|, i requires 0 <= i < |x| => if i in s then x[i] else 0.0)
  }

  // ------------------------------------------------------------ sums on the support

  function Times(x: seq<real>, y: seq<real>): (r: seq<real>)
    requires |x| == |y|
    ensures |r| == |x| && forall i :: 0 <= i < |x| ==> r[i] == Mul(x[i], y[i])
  {
    seq(|x|, i requires 0 <= i < |x| => Mul(x[i], y[i]))
  }

  lemma TimesPrefix(x: seq<real>, y: seq<real>, n: nat)
    requires |x| == |y| && n <= |x|
    ensures Times(x, y)[..n] == Times(x[..n], y[..n])
  {
    hide Mul;
    var l, r := Times(x, y)[..n], Times(x[..n], y[..n]);
    assert forall i :: 0 <= i < n ==> l[i] == r[i];
  }

  lemma {:induction false} Dot3IsDot(p: seq<real>, x: seq<real>, y: seq<real>)
    requires |p| == |x| == |y|
    ensures Dot3(p, x, y) == Dot(Times(p, x), y)
    decreases |x|
  {
    hide Mul, Times;
    if x != [] {
      var n := |x| - 1;
      TimesPrefix(p, x, n);
      Dot3IsDot(p[..n], x[..n], y[..n]);
    }
  }

  // A dot product of two gathered rows is a masked sum of gathered products.
  lemma {:induction false} DotIsMaskedSum(x: seq<real>, y: seq<real>, sup: Support)
    requires |x| == |y| && sup.Shaped() && Within(sup.ids, |x|)
    ensures Dot(OnSupport(x, sup), OnSupport(y, sup)) == MaskedSum(Gather(Times(x, y), sup.ids), sup.valid)
    decreases |sup.ids|
  {
    hide Mul;
    if sup.ids != [] {
      var n := |sup.ids| - 1;
      var rest := Support(sup.ids[..n], sup.valid[..n]);
      DotIsMaskedSum(x, y, rest);
      OnSupportPrefix(x, sup, rest);
      OnSupportPrefix(y, sup, rest);
      var f := Times(x, y);
      var g := Gather(f, sup.ids);
      assert g[..n] == Gather(f, rest.ids);
      MulZero(0.0);
    }
  }

  lemma OnSupportPrefix(x: seq<real>, sup: Support, rest: Support)
    requires sup.Shaped() && Within(sup.ids, |x|) && 0 < |sup.ids|
    requires rest == Support(sup.ids[..|sup.ids| - 1], sup.valid[..|sup.ids| - 1])
    ensures OnSupport(x, sup)[..|sup.ids| - 1] == OnSupport(x, rest)
  {
    var l, r := OnSupport(x, sup)[..|sup.ids| - 1], OnSupport(x, rest);
    assert forall i :: 0 <= i < |r| ==> l[i] == r[i];
  }

  lemma {:induction false} SetSumIsDot(x: seq<real>, y: seq<real>, s: set<nat>)
    requires |x| == |y|
    ensures SetSum(Times(x, y), s) == Dot(Restrict(x, s), Restrict(y, s))
    decreases |x|
  {
    hide Mul;
    if x != [] {
      var n := |x| - 1;
      SetSumIsDot(x[..n], y[..n], s);
      TimesPrefix(x, y, n);
      RestrictPrefix(x, s, n);
      RestrictPrefix(y, s, n);
      MulZero(0.0);
    }
  }

  lemma RestrictPrefix(x: seq<real>, s: set<nat>, n: nat)
    requires n <= |x|
    ensures Restrict(x, s)[..n] == Restrict(x[..n], s)
  {
    var l, r := Restrict(x, s)[..n], Restrict(x[..n], s);
    assert forall i :: 0 <= i < n ==> l[i] == r[i];
  }

  // What the proofs need of a support: a sum over its valid slots is a sum over its coordinates.
  ghost predicate Covers(sup: Support, V: nat) {
    && sup.Shaped() && Within(sup.ids, V)
    && forall f: seq<real> :: |f| == V ==> MaskedSum(Gather(f, sup.ids), sup.valid) == SetSum(f, sup.Coordinates())
  }

  lemma BuiltSupportCovers(sources: seq<seq<nat>>, sampled: nat, V: nat)
    requires sampled < V && forall n :: 0 <= n < |sources| ==> Within(sources[n], V)
    ensures Covers(Build(sources, sampled), V)
  {
    hide Build, MaskedSum, SetSum, Gather, Support.Coordinates;
    var zeros := seq(V, i => 0.0);
    MaskedSumIsSetSum(zeros, sources, sampled);
    forall f: seq<real> | |f| == V
      ensures MaskedSum(Gather(f, Build(sources, sampled).ids), Build(sources, sampled).valid) ==
          SetSum(f, Build(sources, sampled).Coordinates())
    {
      MaskedSumIsSetSum(f, sources, sampled);
    }
  }

  lemma DotOnSupport(x: seq<real>, y: seq<real>, sup: Support)
    requires |x| == |y| && Covers(sup, |x|)
    ensures Dot(OnSupport(x, sup), OnSupport(y, sup)) == Dot(Restrict(x, sup.Coordinates()),
        Restrict(y, sup.Coordinates()))
  {
    hide Dot, OnSupport, Restrict, MaskedSum, SetSum, Gather, Support.Coordinates;
    DotIsMaskedSum(x, y, sup);
    SetSumIsDot(x, y, sup.Coordinates());
    assert |Times(x, y)| == |x|;
  }

  lemma TimesOnSupport(x: seq<real>, y: seq<real>, sup: Support)
    requires |x| == |y| && sup.Shaped() && Within(sup.ids, |x|)
    ensures Times(OnSupport(x, sup), OnSupport(y, sup)) == OnSupport(Times(x, y), sup)
    ensures Times(Restrict(x, sup.Coordinates()), Restrict(y, sup.Coordinates())) ==
        Restrict(Times(x, y), sup.Coordinates())
  {
    hide Mul, Support.Coordinates;
    MulZero(0.0);
    var l, r := Times(OnSupport(x, sup), OnSupport(y, sup)), OnSupport(Times(x, y), sup);
    assert forall i :: 0 <= i < |r| ==> l[i] == r[i];
    var s := sup.Coordinates();
    var l', r' := Times(Restrict(x, s), Restrict(y, s)), Restrict(Times(x, y), s);
    assert forall i :: 0 <= i < |r'| ==> l'[i] == r'[i];
  }

  lemma Dot3OnSupport(p: seq<real>, x: seq<real>, y: seq<real>, sup: Support)
    requires |p| == |x| == |y| && Covers(sup, |x|)
    ensures Dot3(OnSupport(p, sup), OnSupport(x, sup), OnSupport(y, sup))
            == Dot3(Restrict(p, sup.Coordinates()), Restrict(x, sup.Coordinates()), Restrict(y, sup.Coordinates()))
  {
    hide Dot, Dot3, OnSupport, Restrict, Times, Support.Coordinates;
    var s := sup.Coordinates();
    Dot3IsDot(OnSupport(p, sup), OnSupport(x, sup), OnSupport(y, sup));
    Dot3IsDot(Restrict(p, s), Restrict(x, s), Restrict(y, s));
    TimesOnSupport(p, x, sup);
    DotOnSupport(Times(p, x), y, sup);
  }

  lemma MomentsOnSupport(p: seq<real>, x: seq<real>, y: seq<real>, sup: Support)
    requires |p| == |x| == |y| && Covers(sup, |p|)
    ensures var s := sup.Coordinates();
            Moments(OnSupport(p, sup), OnSupport(x, sup), OnSupport(y, sup)) ==
                Moments(Restrict(p, s), Restrict(x, s), Restrict(y, s))
  {
    hide Dot, Dot3, OnSupport, Restrict, Support.Coordinates;
    DotOnSupport(p, x, sup);
    DotOnSupport(p, y, sup);
    DotOnSupport(x, x, sup);
    DotOnSupport(y, y, sup);
    Dot3OnSupport(p, x, x, sup);
    Dot3OnSupport(p, y, y, sup);
    Dot3OnSupport(p, x, y, sup);
  }

  lemma MinusOnSupport(x: seq<real>, a: real, y: seq<real>, sup: Support)
    requires |x| == |y| && sup.Shaped() && Within(sup.ids, |x|)
    ensures Minus(OnSupport(x, sup), a, OnSupport(y, sup)) == OnSupport(Minus(x, a, y), sup)
    ensures Minus(Restrict(x, sup.Coordinates()), a, Restrict(y, sup.Coordinates())) ==
        Restrict(Minus(x, a, y), sup.Coordinates())
  {
    hide Mul, Support.Coordinates;
    MulZero(a);
    var l, r := Minus(OnSupport(x, sup), a, OnSupport(y, sup)), OnSupport(Minus(x, a, y), sup);
    assert forall i :: 0 <= i < |r| ==> l[i] == r[i];
    var s := sup.Coordinates();
    var l', r' := Minus(Restrict(x, s), a, Restrict(y, s)), Restrict(Minus(x, a, y), s);
    assert forall i :: 0 <= i < |r'| ==> l'[i] == r'[i];
  }

  // A slot that holds the sampled id.
  ghost predicate SlotOf(sup: Support, slot: nat, sampled: nat)
    requires sup.Shaped()
  {
    slot < |sup.ids| && sup.valid[slot] && sup.ids[slot] == sampled
  }

  lemma GeometryOnSupport(p: seq<real>, x: seq<real>, y: seq<real>, sup: Support, slot: nat, sampled: nat,
      advantage: real, eps: real)
    requires |p| == |x| == |y| && 0.0 < eps && Covers(sup, |p|) && SlotOf(sup, slot, sampled)
    ensures var s := sup.Coordinates();
            && |FisherGeometry(OnSupport(p, sup), OnSupport(x, sup), OnSupport(y, sup), eps).residual| == |sup.ids|
            && |FisherGeometry(Restrict(p, s), Restrict(x, s), Restrict(y, s), eps).residual| == |p| && sampled < |p|
            && TokenStats(FisherGeometry(OnSupport(p, sup), OnSupport(x, sup), OnSupport(y, sup), eps), slot, advantage)
               == TokenStats(FisherGeometry(Restrict(p, s), Restrict(x, s), Restrict(y, s), eps), sampled, advantage)
  {
    var s := sup.Coordinates();
    assert sampled in s;
    assert sampled < |p|;
    hide Mul, Dot, Moments, Covers, Sums.Projection, Sums.ResidualMean, Sums.ResidualVariance,
        Sums.CosineDenominatorSq, Sums.Leftover, Sums.Cov, Support.Coordinates;
    MomentsOnSupport(p, x, y, sup);
    var a := Moments(Restrict(p, s), Restrict(x, s), Restrict(y, s)).Projection(eps);
    MinusOnSupport(x, a, y, sup);
    DotOnSupport(Minus(x, a, y), Minus(x, a, y), sup);
  }

  /** Forward KL: the truncated statistics are those of the whole vocabulary with the
      directions and the Student weights zeroed outside the support. */
  lemma TruncatedForwardIsRestricted(p: seq<real>, t: Teachers, sources: seq<seq<nat>>, sampled: nat,
      advantage: real, eps: real)
    requires t.Width(|p|) && 0.0 < eps && sampled < |p| && forall n :: 0 <= n < |sources| ==> Within(sources[n], |p|)
    ensures var sup := Build(sources, sampled);
            var s := sup.Coordinates();
            var q, x, y := Restrict(p, s), Restrict(t.Task(), s), Restrict(t.Nuisance(), s);
            && Covers(sup, |p|)
            && TruncatedForward(p, t, sup, sampled, advantage, eps)
               == Ok(TokenStats(FisherGeometry(q, x, y, eps), sampled, advantage))
  {
    hide Build, Covers, FisherGeometry, TokenStats, OnSupport, Restrict, Support.Coordinates;
    var sup := Build(sources, sampled);
    BuiltSupportCovers(sources, sampled, |p|);
    var slot := FindSlot(sources, sampled, |p|);
    GeometryOnSupport(p, t.Task(), t.Nuisance(), sup, slot, sampled, advantage, eps);
  }

  lemma FindSlot(sources: seq<seq<nat>>, sampled: nat, V: nat) returns (slot: nat)
    requires sampled < V && forall n :: 0 <= n < |sources| ==> Within(sources[n], V)
    ensures Build(sources, sampled).Shaped() && SampledIndex(Build(sources, sampled), sampled, 0) == Slot(slot)
    ensures SlotOf(Build(sources, sampled), slot, sampled) && sampled in Build(sources, sampled).Coordinates()
  {
    BuildMembers(sources, sampled, sampled);
    hide Build;
    var sup := Build(sources, sampled);
    SampledIndexFinds(sup, sampled, 0);
    slot := SampledIndex(sup, sampled, 0).index;
  }

  lemma TangentOnSupport(p: seq<real>, x: seq<real>, c: real, sup: Support)
    requires |p| == |x| && sup.Shaped() && Within(sup.ids, |x|)
    ensures var s := sup.Coordinates();
      && Tangent(OnSupport(p, sup), OnSupport(x, sup), c) == OnSupport(Tangent(Restrict(p, s), Restrict(x, s), c), sup)
      && Restrict(Tangent(Restrict(p, s), Restrict(x, s), c), s) == Tangent(Restrict(p, s), Restrict(x, s), c)
  {
    hide Mul;
    MulZero(0.0 - c);
    var s := sup.Coordinates();
    var whole := Tangent(Restrict(p, s), Restrict(x, s), c);
    var l, r := Tangent(OnSupport(p, sup), OnSupport(x, sup), c), OnSupport(whole, sup);
    assert forall i :: 0 <= i < |r| && sup.valid[i] ==> sup.ids[i] in s;
    assert forall i :: 0 <= i < |r| ==> l[i] == r[i];
    var z := Restrict(whole, s);
    assert forall i :: 0 <= i < |z| ==> z[i] == whole[i];
  }

  lemma ReverseGeometryOnSupport(p: seq<real>, x: seq<real>, y: seq<real>, sup: Support, slot: nat, sampled: nat,
      advantage: real, eps: real)
    requires |p| == |x| == |y| && 0.0 < eps && Covers(sup, |p|) && SlotOf(sup, slot, sampled)
    ensures var s := sup.Coordinates();
            && |ReverseGeometry(OnSupport(p, sup), OnSupport(x, sup), OnSupport(y, sup), eps).residual| == |sup.ids|
            && |ReverseGeometry(Restrict(p, s), Restrict(x, s), Restrict(y, s), eps).residual| == |p| && sampled < |p|
            && TokenStats(ReverseGeometry(OnSupport(p, sup), OnSupport(x, sup), OnSupport(y, sup), eps), slot,
                  advantage)
               == TokenStats(ReverseGeometry(Restrict(p, s), Restrict(x, s), Restrict(y, s), eps), sampled, advantage)
  {
    hide FisherGeometry, TokenStats, OnSupport, Restrict, Tangent, Dot, Mul, MaskedSum, SetSum, Support.Coordinates;
    var s := sup.Coordinates();
    DotOnSupport(p, x, sup);
    DotOnSupport(p, y, sup);
    var mx, my := Dot(Restrict(p, s), Restrict(x, s)), Dot(Restrict(p, s), Restrict(y, s));
    TangentOnSupport(p, x, mx, sup);
    TangentOnSupport(p, y, my, sup);
    GeometryOnSupport(p, Tangent(Restrict(p, s), Restrict(x, s), mx), Tangent(Restrict(p, s), Restrict(y, s), my), sup,
        slot, sampled, advantage, eps);
  }

  /** Reverse KL: the same, through the tangent map. */
  lemma TruncatedReverseIsRestricted(p: seq<real>, t: Teachers, sources: seq<seq<nat>>, sampled: nat,
      advantage: real, eps: real)
    requires t.Width(|p|) && 0.0 < eps && sampled < |p| && forall n :: 0 <= n < |sources| ==> Within(sources[n], |p|)
    ensures var sup := Build(sources, sampled);
            var s := sup.Coordinates();
            var q, x, y := Restrict(p, s), Restrict(t.Task(), s), Restrict(t.Nuisance(), s);
            && Covers(sup, |p|)
            && TruncatedReverse(p, t, sup, sampled, advantage, eps)
               == Ok(TokenStats(ReverseGeometry(q, x, y, eps), sampled, advantage))
  {
    hide Build, Covers, ReverseGeometry, TokenStats, OnSupport, Restrict, Support.Coordinates;
    var sup := Build(sources, sampled);
    BuiltSupportCovers(sources, sampled, |p|);
    var slot := FindSlot(sources, sampled, |p|);
    ReverseGeometryOnSupport(p, t.Task(), t.Nuisance(), sup, slot, sampled, advantage, eps);
  }

  /** On a support every reported field says what it should of the Teacher rows with the
      coordinates outside the support set to zero: directly in Forward KL, and in Reverse KL
      of the tangents, the directions centred by their weighted means and scaled by the weights. */
  lemma TruncatedStatsDescribe(p: seq<real>, t: Teachers, sources: seq<seq<nat>>, sampled: nat, advantage: real,
      eps: real)
    requires t.Width(|p|) && 0.0 < eps && sampled < |p| && forall n :: 0 <= n < |sources| ==> Within(sources[n], |p|)
    ensures var sup := Build(sources, sampled);
      && Covers(sup, |p|)
      && var forward := TruncatedForward(p, t, sup, sampled, advantage, eps);
      var reverse := TruncatedReverse(p, t, sup, sampled, advantage, eps);
      var s := sup.Coordinates();
      var q, x, y := Restrict(p, s), Restrict(t.Task(), s), Restrict(t.Nuisance(), s);
      && forward.Ok? && Describes(forward.stats, q, x, y, sampled, advantage, eps)
      && reverse.Ok?
      && Describes(reverse.stats, q, Tangent(q, x, Dot(q, x)), Tangent(q, y, Dot(q, y)), sampled, advantage, eps)
  {
    BuiltSupportCovers(sources, sampled, |p|);
    hide Build, Covers, TruncatedForward, TruncatedReverse, FisherGeometry, TokenStats, Restrict, Describes, Dot,
        Tangent, Support.Coordinates;
    TruncatedForwardIsRestricted(p, t, sources, sampled, advantage, eps);
    TruncatedReverseIsRestricted(p, t, sources, sampled, advantage, eps);
    var s := Build(sources, sampled).Coordinates();
    var q, x, y := Restrict(p, s), Restrict(t.Task(), s), Restrict(t.Nuisance(), s);
    StatsDescribe(q, x, y, sampled, advantage, eps);
    StatsDescribe(q, Tangent(q, x, Dot(q, x)), Tangent(q, y, Dot(q, y)), sampled, advantage, eps);
  }

  // --------------------------------------------------- where the two modes meet

  lemma RestrictToAll(x: seq<real>, s: set<nat>)
    requires forall v: nat :: v in s <==> v < |x|
    ensures Restrict(x, s) == x
  {
  }

  /** At the threshold where the dispatcher switches to the full-vocabulary passes
      (top_k no smaller than the vocabulary) the truncated path gives the same statistics. */
  lemma ModesAgreeAtTheThreshold(p: seq<real>, t: Teachers, logits: seq<seq<real>>, k: nat, sources: seq<seq<nat>>,
      sampled: nat, advantage: real, eps: real)
    requires t.Width(|p|) && 0.0 < eps && sampled < |p| <= k && |logits| == |sources| && 0 < |sources|
    requires forall m :: 0 <= m < |logits| ==> |logits[m]| == |p| && IsTopK(logits[m], k, sources[m])
    ensures var sup := Build(sources, sampled);
      && Covers(sup, |p|)
      && TruncatedForward(p, t, sup, sampled, advantage, eps) ==
            Ok(TokenStats(ForwardGeometry(p, t, eps), sampled, advantage))
      && TruncatedReverse(p, t, sup, sampled, advantage, eps)
         == Ok(TokenStats(ReverseGeometry(p, t.Task(), t.Nuisance(), eps), sampled, advantage))
  {
    var sup := Build(sources, sampled);
    LargeTopKKeepsEverything(logits, k, sources, sampled, |p|);
    forall n | 0 <= n < |sources| ensures Within(sources[n], |p|) {
      assert IsTopK(logits[n], k, sources[n]);
    }
    hide Build, Covers, TruncatedForward, TruncatedReverse, Support.Coordinates, FisherGeometry, ReverseGeometry,
        IsTopK;
    TruncatedForwardIsRestricted(p, t, sources, sampled, advantage, eps);
    TruncatedReverseIsRestricted(p, t, sources, sampled, advantage, eps);
    RestrictToAll(p, sup.Coordinates());
    RestrictToAll(t.Task(), sup.Coordinates());
    RestrictToAll(t.Nuisance(), sup.Coordinates());
  }

  lemma {:induction false} RestrictShrinks(p: seq<real>, s: set<nat>)
    requires forall i :: 0 <= i < |p| ==> 0.0 <= p[i]
    ensures Total(Restrict(p, s)) <= Total(p)
    ensures Total(p) <= 1.0 ==> Weights(Restrict(p, s))
    decreases |p|
  {
    if p != [] {
      var n := |p| - 1;
      RestrictPrefix(p, s, n);
      RestrictShrinks(p[..n], s);
    }
  }

  /** On any support, in either direction, the residual cost is a true variance between zero and
      the task's, and the leftover covariance is exactly the ridge's: the geometry survives truncation. */
  lemma TruncatedStatsAreSound(p: seq<real>, t: Teachers, sources: seq<seq<nat>>, sampled: nat, advantage: real,
      eps: real)
    requires t.Width(|p|) && Weights(p) && 0.0 < eps && sampled < |p| && forall n :: 0 <= n < |sources| ==>
        Within(sources[n], |p|)
    ensures var sup := Build(sources, sampled);
      && Covers(sup, |p|)
      && var s := sup.Coordinates();
      var q, x, y := Restrict(p, s), Restrict(t.Task(), s), Restrict(t.Nuisance(), s);
      var forward, reverse := TruncatedForward(p, t, sup, sampled, advantage, eps),
          TruncatedReverse(p, t, sup, sampled, advantage, eps);
      && forward.Ok? && 0.0 <= forward.stats.fisherCost <= Variance(q, x)
      && forward.stats.leftover == Mul(forward.stats.projection, eps)
      && reverse.Ok? && 0.0 <= reverse.stats.fisherCost <= Variance(q, Tangent(q, x, Dot(q, x)))
      && reverse.stats.leftover == Mul(reverse.stats.projection, eps)
  {
    BuiltSupportCovers(sources, sampled, |p|);
    hide Build, Covers, TruncatedForward, TruncatedReverse, Support.Coordinates, FisherGeometry, Variance, Mul, Dot,
        Tangent, Restrict, Weights;
    var s := Build(sources, sampled).Coordinates();
    var q, x, y := Restrict(p, s), Restrict(t.Task(), s), Restrict(t.Nuisance(), s);
    TruncatedForwardIsRestricted(p, t, sources, sampled, advantage, eps);
    TruncatedReverseIsRestricted(p, t, sources, sampled, advantage, eps);
    RestrictShrinks(p, s);
    GeometryDescribesResidual(q, x, y, eps);
    GeometryDescribesResidual(q, Tangent(q, x, Dot(q, x)), Tangent(q, y, Dot(q, y)), eps);
  }
}
