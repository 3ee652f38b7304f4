/** The fixed-width, sorted, de-duplicated Top-K support
    (risk_aware_opsd/verpo_topk.py).  Which indices a source's Top-K consists of is
    taken as given; the support is built from them and the sampled token. */
module TopK {
  import opened Flattening
  import opened Finite
  import opened Cuts

  datatype Support = Support(ids: seq<nat>, valid: seq<bool>) {
    predicate Shaped() {
      |ids| == |valid|
    }
    // The retained coordinates.
    ghost function Coordinates(): set<nat>
      requires Shaped()
    {
      set i | 0 <= i < |ids| && valid[i] :: ids[i]
    }
  }

  // A selection torch.topk may return: k distinct indices, none of them below an index left out.
  ghost predicate IsTopK(logits: seq<real>, k: nat, ids: seq<nat>) {
    && |ids| == (if k <= |logits| then k else |logits|)
    && (forall i :: 0 <= i < |ids| ==> ids[i] < |logits|)
    && (forall i, j :: 0 <= i < j < |ids| ==> ids[i] != ids[j])
    && (forall i, v :: 0 <= i < |ids| && 0 <= v < |logits| && v !in ids ==> logits[v] <= logits[ids[i]])
  }

  // The best index below n that is not in ids, if there is one.
  lemma {:induction false} BestLeft(logits: seq<real>, ids: seq<nat>, n: nat) returns (best: int)
    requires n <= |logits|
    ensures best < n && (0 <= best ==> best !in ids)
    ensures forall v :: 0 <= v < n && v !in ids ==> 0 <= best && logits[v] <= logits[best]
    decreases n
  {
    best := -1;
    if n > 0 {
      best := BestLeft(logits, ids, n - 1);
      if n - 1 !in ids && (best < 0 || logits[best] < logits[n - 1]) {
        best := n - 1;
      }
    }
  }

  /** There always is such a selection. */
  lemma {:induction false} TopKExists(logits: seq<real>, k: nat) returns (ids: seq<nat>)
    ensures IsTopK(logits, k, ids)
    decreases k
  {
    ids := [];
    if k > 0 {
      ids := TopKExists(logits, k - 1);
      if k <= |logits| {
        SomeIndexIsLeft(ids, |logits|);
        var v := BestLeft(logits, ids, |logits|);
        ids := ids + [v];
      }
    }
  }

  lemma SomeIndexIsLeft(ids: seq<nat>, n: nat)
    requires |ids| < n && forall i, j :: 0 <= i < j < |ids| ==> ids[i] != ids[j]
    ensures exists u: nat :: u < n && u !in ids
  {
    if forall u: nat :: u < n ==> u in ids {
      MembersSize(ids);
      forall u: nat | u in Below(n) ensures u in Members(ids) {
        assert u < n && u in ids;
        var i :| 0 <= i < |ids| && ids[i] == u;
      }
      SubsetSize(Below(n), Members(ids));
      assert false;
    }
  }

  // ------------------------------------------------------------------ sorting

  predicate Sorted(s: seq<nat>) {
    forall i, j :: 0 <= i < j < |s| ==> s[i] <= s[j]
  }

  function Insert(s: seq<nat>, x: nat): (r: seq<nat>)
    ensures multiset(r) == multiset(s) + multiset{x}
  {
    if s == [] then [x]
    else if s[|s| - 1] <= x then s + [x]
    else
      assert s == s[..|s| - 1] + [s[|s| - 1]];
      Insert(s[..|s| - 1], x) + [s[|s| - 1]]
  }

  lemma InsertMembers(s: seq<nat>, x: nat, i: nat)
    requires i < |Insert(s, x)|
    ensures Insert(s, x)[i] == x || Insert(s, x)[i] in s
  {
    assert Insert(s, x)[i] in multiset(Insert(s, x));
  }

  lemma {:induction false} InsertSorts(s: seq<nat>, x: nat)
    requires Sorted(s)
    ensures Sorted(Insert(s, x))
    decreases |s|
  {
    if s != [] && x < s[|s| - 1] {
      var t := s[..|s| - 1];
      InsertSorts(t, x);
      var rest := Insert(t, x);
      assert Insert(s, x) == rest + [s[|s| - 1]];
      hide Insert;
      forall i | 0 <= i < |rest| ensures rest[i] <= s[|s| - 1] {
        InsertMembers(t, x, i);
      }
    }
  }

  function Sort(s: seq<nat>): (r: seq<nat>)
    ensures Sorted(r) && multiset(r) == multiset(s)
  {
    if s == [] then []
    else
      assert s == s[..|s| - 1] + [s[|s| - 1]];
      InsertSorts(Sort(s[..|s| - 1]), s[|s| - 1]);
      Insert(Sort(s[..|s| - 1]), s[|s| - 1])
  }

  lemma SortLength(s: seq<nat>)
    ensures |Sort(s)| == |s|
  {
    assert |multiset(Sort(s))| == |multiset(s)|;
  }

  // ----------------------------------------------------------------- building

  // A sorted position is valid unless it repeats the one before it.
  function FirstOfRun(s: seq<nat>): (r: seq<bool>)
    ensures |r| == |s| && forall i :: 0 <= i < |s| ==> r[i] == (i == 0 || s[i] != s[i - 1])
  {
    seq(|s|, i requires 0 <= i < |s| => i == 0 || s[i] != s[i - 1])
  }

  function Masked(s: seq<nat>, valid: seq<bool>): (r: seq<nat>)
    requires |s| == |valid|
    ensures |r| == |s| && forall i :: 0 <= i < |s| ==> r[i] == if valid[i] then s[i] else 0
  {
    seq(|s|, i requires 0 <= i < |s| => if valid[i] then s[i] else 0)
  }

  function Build(sources: seq<seq<nat>>, sampled: nat): Support {
    var sorted := Sort(Flatten(sources) + [sampled]);
    var valid := FirstOfRun(sorted);
    Support(Masked(sorted, valid), valid)
  }

  // ---------------------------------------------------------- the exact set

  lemma SortedMembers(s: seq<nat>, x: nat)
    ensures x in Sort(s) <==> x in s
  {
    assert x in multiset(Sort(s)) <==> x in multiset(s);
  }

  lemma {:induction false} FlattenMembers(sources: seq<seq<nat>>, x: nat)
    ensures x in Flatten(sources) <==> exists k :: 0 <= k < |sources| && x in sources[k]
    decreases |sources|
  {
    if sources != [] {
      FlattenMembers(sources[1..], x);
      if x in sources[0] {
        assert exists k :: 0 <= k < |sources| && x in sources[k];
      }
      if k :| 0 <= k < |sources[1..]| && x in sources[1..][k] {
        assert x in sources[k + 1];
      }
      if k :| 0 <= k < |sources| && x in sources[k] {
        if k > 0 {
          assert x in sources[1..][k - 1];
        }
      }
    }
  }

  lemma {:induction false} FlattenWidth(sources: seq<seq<nat>>, k: nat)
    requires forall i :: 0 <= i < |sources| ==> |sources[i]| == k
    ensures |Flatten(sources)| == |sources| * k
    decreases |sources|
  {
    if sources != [] {
      FlattenWidth(sources[1..], k);
      assert |sources| * k == k + (|sources| - 1) * k;
    }
  }

  // Every value of a sorted sequence has a first position.
  lemma {:induction false} FirstPosition(s: seq<nat>, i: nat) returns (f: nat)
    requires Sorted(s) && i < |s|
    ensures f <= i && s[f] == s[i] && FirstOfRun(s)[f]
    decreases i
  {
    if i == 0 || s[i] != s[i - 1] {
      f := i;
    } else {
      f := FirstPosition(s, i - 1);
    }
  }

  // The support laid over a sorted sequence: repeats are invalid and zeroed.
  function Dedup(s: seq<nat>): Support {
    Support(Masked(s, FirstOfRun(s)), FirstOfRun(s))
  }

  lemma DedupIncreases(s: seq<nat>, i: nat, j: nat)
    requires Sorted(s) && i < j < |s| && FirstOfRun(s)[i] && FirstOfRun(s)[j]
    ensures Dedup(s).ids[i] < Dedup(s).ids[j]
  {
    assert s[i] <= s[j - 1] <= s[j] && s[j] != s[j - 1];
  }

  lemma DedupMembers(s: seq<nat>, x: nat)
    requires Sorted(s)
    ensures Dedup(s).Shaped() && (x in Dedup(s).Coordinates() <==> x in s)
  {
    if x in s {
      var i :| 0 <= i < |s| && s[i] == x;
      var f := FirstPosition(s, i);
      assert Dedup(s).ids[f] == x && Dedup(s).valid[f];
    }
  }

  ghost predicate SomeSourceHas(sources: seq<seq<nat>>, x: nat) {
    exists n :: 0 <= n < |sources| && x in sources[n]
  }

  ghost predicate StrictlyIncreasing(sup: Support)
    requires sup.Shaped()
  {
    forall i, j :: 0 <= i < j < |sup.ids| && sup.valid[i] && sup.valid[j] ==> sup.ids[i] < sup.ids[j]
  }

  lemma BuildWidth(sources: seq<seq<nat>>, sampled: nat, k: nat)
    requires forall i :: 0 <= i < |sources| ==> |sources[i]| == k
    ensures Build(sources, sampled).Shaped() && |Build(sources, sampled).ids| == |sources| * k + 1
  {
    FlattenWidth(sources, k);
    SortLength(Flatten(sources) + [sampled]);
    hide Sort, Flatten;
  }

  lemma BuildIncreases(sources: seq<seq<nat>>, sampled: nat)
    ensures Build(sources, sampled).Shaped() && StrictlyIncreasing(Build(sources, sampled))
  {
    hide Flatten, Masked, FirstOfRun, Sort;
    var s := Sort(Flatten(sources) + [sampled]);
    assert Build(sources, sampled) == Dedup(s);
    forall i, j | 0 <= i < j < |s| && FirstOfRun(s)[i] && FirstOfRun(s)[j] ensures Dedup(s).ids[i] < Dedup(s).ids[j] {
      DedupIncreases(s, i, j);
    }
  }

  lemma BuildMembers(sources: seq<seq<nat>>, sampled: nat, x: nat)
    ensures Build(sources, sampled).Shaped()
    ensures x in Build(sources, sampled).Coordinates() <==> x == sampled || SomeSourceHas(sources, x)
  {
    hide Flatten, Masked, FirstOfRun, Sort;
    var all := Flatten(sources) + [sampled];
    DedupMembers(Sort(all), x);
    assert Build(sources, sampled) == Dedup(Sort(all));
    SortedMembers(all, x);
    FlattenMembers(sources, x);
    hide Build, Dedup;
    assert x in all <==> x in Flatten(sources) || x == sampled;
  }

  /** The support has the same width at every position, its valid ids are strictly
      increasing, and they are exactly the sources' Top-K ids and the sampled id. */
  lemma SupportIsExact(sources: seq<seq<nat>>, sampled: nat, k: nat)
    requires forall i :: 0 <= i < |sources| ==> |sources[i]| == k
    ensures Build(sources, sampled).Shaped() && |Build(sources, sampled).ids| == |sources| * k + 1
    ensures StrictlyIncreasing(Build(sources, sampled))
    ensures forall x: nat :: x in Build(sources, sampled).Coordinates() <==> x == sampled || SomeSourceHas(sources, x)
  {
    hide Build, StrictlyIncreasing, SomeSourceHas, Support.Coordinates;
    BuildWidth(sources, sampled, k);
    BuildIncreases(sources, sampled);
    forall x: nat ensures x in Build(sources, sampled).Coordinates() <==> x == sampled || SomeSourceHas(sources, x) {
      BuildMembers(sources, sampled, x);
    }
  }

  /** An id the support leaves out is outside every source's Top-K, so each source
      ranks k retained ids at least as high (and there are more than k ids to choose from). */
  lemma OmittedIdsAreDominated(logits: seq<seq<real>>, k: nat, sources: seq<seq<nat>>, sampled: nat, n: nat, v: nat)
    requires |logits| == |sources| && n < |logits| && v < |logits[n]|
    requires forall m :: 0 <= m < |logits| ==> IsTopK(logits[m], k, sources[m])
    requires Build(sources, sampled).Shaped() && v !in Build(sources, sampled).Coordinates()
    ensures k < |logits[n]| && |sources[n]| == k && v !in sources[n]
    ensures forall i :: 0 <= i < k ==> sources[n][i] < |logits[n]| && logits[n][v] <= logits[n][sources[n][i]]
  {
    BuildMembers(sources, sampled, v);
    hide Build;
    assert IsTopK(logits[n], k, sources[n]);
    assert v !in sources[n];
    if |logits[n]| <= k {
      AllIndices(sources[n], |logits[n]|, v);
    }
  }

  /** With top_k no smaller than the vocabulary the support is the whole vocabulary. */
  lemma LargeTopKKeepsEverything(logits: seq<seq<real>>, k: nat, sources: seq<seq<nat>>, sampled: nat, V: nat)
    requires |logits| == |sources| && 0 < |sources| && sampled < V <= k
    requires forall m :: 0 <= m < |logits| ==> |logits[m]| == V && IsTopK(logits[m], k, sources[m])
    ensures Build(sources, sampled).Shaped()
    ensures forall v: nat :: v in Build(sources, sampled).Coordinates() <==> v < V
  {
    BuildMembers(sources, sampled, 0);
    hide Build, Support.Coordinates;
    forall v: nat ensures v in Build(sources, sampled).Coordinates() <==> v < V {
      BuildMembers(sources, sampled, v);
      if v < V {
        assert IsTopK(logits[0], k, sources[0]);
        AllIndices(sources[0], V, v);
        assert SomeSourceHas(sources, v);
      } else if SomeSourceHas(sources, v) {
        assert false;
      }
    }
  }

  // --------------------------------------------------------------- masked sum

  function MaskedSum(values: seq<real>, valid: seq<bool>): real
    requires |values| == |valid|
  {
    if values == [] then 0.0
    else
      var last := |values| - 1;
      MaskedSum(values[..last], valid[..last]) + (if valid[last] then values[last] else 0.0)
  }

  function Gather(f: seq<real>, ids: seq<nat>): (r: seq<real>)
    requires forall i :: 0 <= i < |ids| ==> ids[i] < |f|
    ensures |r| == |ids| && forall i :: 0 <= i < |ids| ==> r[i] == f[ids[i]]
  {
    seq(|ids|, i requires 0 <= i < |ids| => f[ids[i]])
  }

  // Sum of f over the members of a set, each counted once.
  ghost function SetSum(f: seq<real>, s: set<nat>): real {
    if f == [] then 0.0
    else SetSum(f[..|f| - 1], s) + (if |f| - 1 in s then f[|f| - 1] else 0.0)
  }

  lemma {:induction false} SetSumAdd(f: seq<real>, s: set<nat>, x: nat)
    requires x !in s && x < |f|
    ensures SetSum(f, s + {x}) == SetSum(f, s) + f[x]
    decreases |f|
  {
    if x == |f| - 1 {
      SetSumSame(f[..|f| - 1], s, s + {x});
    } else {
      SetSumAdd(f[..|f| - 1], s, x);
    }
  }

  lemma {:induction false} SetSumSame(f: seq<real>, s: set<nat>, t: set<nat>)
    requires forall x :: 0 <= x < |f| ==> (x in s <==> x in t)
    ensures SetSum(f, s) == SetSum(f, t)
    decreases |f|
  {
    if f != [] {
      SetSumSame(f[..|f| - 1], s, t);
    }
  }

  lemma MaskedSumSnoc(values: seq<real>, valid: seq<bool>, v: real, ok: bool)
    requires |values| == |valid|
    ensures MaskedSum(values + [v], valid + [ok]) == MaskedSum(values, valid) + (if ok then v else 0.0)
  {
    assert (values + [v])[..|values|] == values && (valid + [ok])[..|valid|] == valid;
  }

  lemma FirstOfRunSnoc(s: seq<nat>, x: nat)
    ensures FirstOfRun(s + [x]) == FirstOfRun(s) + [s == [] || s[|s| - 1] != x]
  {
    var l, r := FirstOfRun(s + [x]), FirstOfRun(s) + [s == [] || s[|s| - 1] != x];
    assert |l| == |r|;
    forall i | 0 <= i < |l| ensures l[i] == r[i] {
      assert l[i] == (i == 0 || (s + [x])[i] != (s + [x])[i - 1]);
    }
    assert l == r;
  }

  lemma DedupSnoc(s: seq<nat>, x: nat)
    ensures var isNew := s == [] || s[|s| - 1] != x;
            && FirstOfRun(s + [x]) == FirstOfRun(s) + [isNew]
            && Masked(s + [x], FirstOfRun(s + [x])) == Masked(s, FirstOfRun(s)) + [if isNew then x else 0]
  {
    FirstOfRunSnoc(s, x);
  }

  lemma GatherSnoc(f: seq<real>, ids: seq<nat>, x: nat)
    requires x < |f| && forall i :: 0 <= i < |ids| ==> ids[i] < |f|
    ensures Gather(f, ids + [x]) == Gather(f, ids) + [f[x]]
  {
  }

  lemma MembersSnoc(s: seq<nat>, x: nat)
    requires Sorted(s + [x])
    ensures Members(s + [x]) == Members(s) + {x}
    ensures x in Members(s) <==> s != [] && s[|s| - 1] == x
  {
    var t := s + [x];
    forall y ensures y in Members(t) <==> y in Members(s) + {x} {
      if y in Members(s) {
        var i :| 0 <= i < |s| && s[i] == y;
        assert t[i] == y;
      }
      assert t[|s|] == x;
    }
    if x in Members(s) {
      var i :| 0 <= i < |s| && s[i] == x;
      assert t[i] <= t[|s| - 1] <= t[|s|];
    }
  }

  lemma SumSnoc(f: seq<real>, ids: seq<nat>, valid: seq<bool>, s: set<nat>, x: nat, isNew: bool)
    requires |ids| == |valid| && x < |f| && forall i :: 0 <= i < |ids| ==> ids[i] < |f|
    requires isNew <==> x !in s
    requires MaskedSum(Gather(f, ids), valid) == SetSum(f, s)
    ensures MaskedSum(Gather(f, ids + [if isNew then x else 0]), valid + [isNew]) == SetSum(f, s + {x})
  {
    var put := if isNew then x else 0;
    GatherSnoc(f, ids, put);
    MaskedSumSnoc(Gather(f, ids), valid, f[put], isNew);
    hide MaskedSum, Gather, SetSum;
    if isNew {
      SetSumAdd(f, s, x);
    } else {
      assert s + {x} == s;
    }
  }

  // What the last of some sorted ids adds to the support.
  lemma DedupLast(s: seq<nat>)
    requires Sorted(s) && s != []
    ensures var t, x := s[..|s| - 1], s[|s| - 1]; var isNew := t == [] || t[|t| - 1] != x;
      && Sorted(t) && Members(s) == Members(t) + {x} && (isNew <==> x !in Members(t))
      && Dedup(s).ids == Dedup(t).ids + [if isNew then x else 0] && Dedup(s).valid == Dedup(t).valid + [isNew]
  {
    var t, x := s[..|s| - 1], s[|s| - 1];
    assert s == t + [x];
    MembersSnoc(t, x);
    DedupSnoc(t, x);
    hide Members, Masked, FirstOfRun;
  }

  lemma {:induction false} SortedSum(f: seq<real>, s: seq<nat>)
    requires Sorted(s) && 0 < |f| && forall i :: 0 <= i < |s| ==> s[i] < |f|
    ensures MaskedSum(Gather(f, Dedup(s).ids), Dedup(s).valid) == SetSum(f, Members(s))
    decreases |s|
  {
    hide MaskedSum, Gather, Masked, FirstOfRun, SetSum, Sorted, Members;
    if s == [] {
      MaskedSumEmpty(f);
      SetSumEmpty(f);
      NoMembers();
    } else {
      var t, x := s[..|s| - 1], s[|s| - 1];
      DedupLast(s);
      SortedSum(f, t);
      SumSnoc(f, Dedup(t).ids, Dedup(t).valid, Members(t), x, t == [] || t[|t| - 1] != x);
    }
  }

  lemma NoMembers()
    ensures Members([]) == {}
  {
  }

  lemma MaskedSumEmpty(f: seq<real>)
    ensures Dedup([]).Shaped() && Dedup([]).ids == [] && MaskedSum(Gather(f, Dedup([]).ids), Dedup([]).valid) == 0.0
  {
  }

  lemma {:induction false} SetSumEmpty(f: seq<real>)
    ensures SetSum(f, {}) == 0.0
    decreases |f|
  {
    if f != [] {
      SetSumEmpty(f[..|f| - 1]);
    }
  }

  ghost predicate Within(ids: seq<nat>, V: nat) {
    forall i :: 0 <= i < |ids| ==> ids[i] < V
  }

  lemma BuildWithin(sources: seq<seq<nat>>, sampled: nat, V: nat)
    requires sampled < V && forall n :: 0 <= n < |sources| ==> Within(sources[n], V)
    ensures Within(Sort(Flatten(sources) + [sampled]), V) && Within(Build(sources, sampled).ids, V)
  {
    var all := Flatten(sources) + [sampled];
    var s := Sort(all);
    hide Sort, Flatten, FirstOfRun, Masked;
    forall i | 0 <= i < |s| ensures s[i] < V {
      SortedMembers(all, s[i]);
      FlattenMembers(sources, s[i]);
    }
  }

  lemma CoordinatesAreMembers(s: seq<nat>)
    requires Sorted(s)
    ensures Dedup(s).Shaped() && Dedup(s).Coordinates() == Members(s)
  {
    hide Masked, FirstOfRun, Dedup;
    DedupMembers(s, 0);
    forall x: nat ensures Dedup(s).Shaped() && (x in Dedup(s).Coordinates() <==> x in Members(s)) {
      DedupMembers(s, x);
    }
  }

  /** Summing over the support's valid slots is summing over its set of coordinates:
      an id proposed by several sources counts once, and padding never counts. */
  lemma MaskedSumIsSetSum(f: seq<real>, sources: seq<seq<nat>>, sampled: nat)
    requires sampled < |f| && forall n :: 0 <= n < |sources| ==> Within(sources[n], |f|)
    ensures var sup := Build(sources, sampled);
            && sup.Shaped() && Within(sup.ids, |f|)
            && MaskedSum(Gather(f, sup.ids), sup.valid) == SetSum(f, sup.Coordinates())
  {
    BuildWithin(sources, sampled, |f|);
    hide Sort, Flatten, MaskedSum, SetSum, Gather, FirstOfRun, Masked;
    var s := Sort(Flatten(sources) + [sampled]);
    SortedSum(f, s);
    CoordinatesAreMembers(s);
    assert Build(sources, sampled) == Dedup(s);
  }

  // ------------------------------------------------------------ sampled token

  // argmax of the match mask: its first hit, or None where the source raises.
  datatype Slot = NoSlot | Slot(index: nat)

  function SampledIndex(sup: Support, sampled: nat, from: nat): Slot
    requires sup.Shaped() && from <= |sup.ids|
    decreases |sup.ids| - from
  {
    if from == |sup.ids| then NoSlot
    else if sup.valid[from] && sup.ids[from] == sampled then Slot(from)
    else SampledIndex(sup, sampled, from + 1)
  }

  lemma {:induction false} SampledIndexFinds(sup: Support, sampled: nat, from: nat)
    requires sup.Shaped() && from <= |sup.ids|
    ensures SampledIndex(sup, sampled, from).NoSlot? <==> forall i :: from <= i < |sup.ids| ==>
        !(sup.valid[i] && sup.ids[i] == sampled)
    ensures SampledIndex(sup, sampled, from).Slot? ==>
      var i := SampledIndex(sup, sampled, from).index; from <= i < |sup.ids| && sup.valid[i] && sup.ids[i] == sampled
    decreases |sup.ids| - from
  {
    if from < |sup.ids| {
      SampledIndexFinds(sup, sampled, from + 1);
    }
  }

  /** In a built support the lookup never raises and finds the only valid slot of the sampled token. */
  lemma SampledHasOneSlot(sources: seq<seq<nat>>, sampled: nat, k: nat)
    requires forall i :: 0 <= i < |sources| ==> |sources[i]| == k
    ensures var sup := Build(sources, sampled);
      && sup.Shaped() && SampledIndex(sup, sampled, 0).Slot?
      && (forall i :: 0 <= i < |sup.ids| ==> (sup.valid[i] && sup.ids[i] == sampled <==>
            i == SampledIndex(sup, sampled, 0).index))
  {
    SupportIsExact(sources, sampled, k);
    var sup := Build(sources, sampled);
    hide Build;
    assert sampled in sup.Coordinates();
    SampledIndexFinds(sup, sampled, 0);
    var found := SampledIndex(sup, sampled, 0).index;
    forall i | 0 <= i < |sup.ids| && sup.valid[i] && sup.ids[i] == sampled ensures i == found {
      assert !(i < found) && !(found < i);
    }
  }
}
