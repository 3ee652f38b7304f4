/** Sharding layers over pipeline ranks (verl/verl/model_merger/megatron_model_merger.py). */
module PipelineShards {
  import opened Flattening
  import opened Arithmetic
  import opened Cuts
  import opened Sums

  datatype Outcome = Ok(shards: seq<int>) | ValueError | IndexError

  // A candidate sharding for one middle size.
  function FirstSize(layers: int, ranks: int, middle: int): int {
    (layers - Product(middle, ranks - 2)) / 2
  }

  function LastSize(layers: int, ranks: int, middle: int): int {
    layers - Product(middle, ranks - 2) - FirstSize(layers, ranks, middle)
  }

  predicate Fits(layers: int, ranks: int, middle: int) {
    && 0 < FirstSize(layers, ranks, middle) <= middle
    && 0 < LastSize(layers, ranks, middle) <= middle
  }

  function Strategy(layers: int, ranks: int, middle: int): seq<int>
    requires 3 <= ranks
  {
    [FirstSize(layers, ranks, middle)] + seq(ranks - 2, i => middle) + [LastSize(layers, ranks, middle)]
  }

  function Abs(v: int): nat {
    if v < 0 then -v else v
  }

  // Whether the search finds anything, decided without searching.
  predicate Shardable(layers: int, ranks: int) {
    0 < ranks && Product(CeilDiv(layers, ranks), ranks - 2) <= layers - 2
  }

  // ------------------------------------------------------------- the closed form

  // A middle size fits exactly between the even share and what leaves two layers over.
  lemma FitsIsAnInterval(layers: int, ranks: int, middle: int)
    requires 3 <= ranks
    ensures Fits(layers, ranks, middle) <==>
              CeilDiv(layers, ranks) <= middle && Product(middle, ranks - 2) <= layers - 2
  {
    hide Product, CeilDiv;
    CeilDivBounds(layers, ranks, middle);
    SplitOffTwo(middle, ranks);
  }

  lemma SplitOffTwo(middle: int, ranks: int)
    ensures Product(middle, ranks) == Product(middle, ranks - 2) + 2 * middle
  {
  }

  // Larger middle sizes are less even: the spread grows strictly.
  lemma SpreadGrows(layers: int, ranks: int, a: int, b: int)
    requires 3 <= ranks && a < b && Fits(layers, ranks, a) && Fits(layers, ranks, b)
    ensures Abs(FirstSize(layers, ranks, a) - a) < Abs(FirstSize(layers, ranks, b) - b)
  {
    hide Product;
    ProductGrows(a, b, ranks - 2);
  }

  lemma FittingIsSmall(layers: int, ranks: int, middle: int)
    requires 3 <= ranks && Fits(layers, ranks, middle)
    ensures 0 < middle < layers
  {
    FitsIsAnInterval(layers, ranks, middle);
    ProductGrows(1, ranks - 2, middle);
    assert Product(ranks - 2, middle) == Product(middle, ranks - 2);
  }

  lemma ShardableIffSomeFit(layers: int, ranks: int, middle: int)
    requires 3 <= ranks && 0 < layers
    ensures Shardable(layers, ranks) <==> Fits(layers, ranks, CeilDiv(layers, ranks))
    ensures Fits(layers, ranks, middle) ==> Shardable(layers, ranks)
  {
    hide Product, CeilDiv, FirstSize, LastSize;
    FitsIsAnInterval(layers, ranks, middle);
    FitsIsAnInterval(layers, ranks, CeilDiv(layers, ranks));
    if Fits(layers, ranks, middle) {
      ProductGrows(CeilDiv(layers, ranks), middle, ranks - 2);
    }
  }

  lemma {:induction false} SumOfConstant(n: nat, v: int)
    ensures Sum(seq(n, i => v)) == Product(v, n)
  {
    if n > 0 {
      assert seq(n, i => v)[..n - 1] == seq(n - 1, i => v);
      SumOfConstant(n - 1, v);
      assert Product(v, n) == Product(v, n - 1) + v;
    }
  }

  lemma SumSnoc(s: seq<int>, v: int)
    ensures Sum(s + [v]) == Sum(s) + v
  {
    assert (s + [v])[..|s|] == s;
  }

  lemma {:induction false} SumCons(v: int, s: seq<int>)
    ensures Sum([v] + s) == v + Sum(s)
    decreases |s|
  {
    if s == [] {
      assert ([v] + s)[..0] == [];
    } else {
      var n := |s| - 1;
      assert ([v] + s)[..n + 1] == [v] + s[..n];
      SumCons(v, s[..n]);
    }
  }

  lemma StrategySums(layers: int, ranks: int, middle: int)
    requires 3 <= ranks
    ensures Sum(Strategy(layers, ranks, middle)) == layers
  {
    hide Product;
    var mid := seq(ranks - 2, i => middle);
    SumOfConstant(ranks - 2, middle);
    SumCons(FirstSize(layers, ranks, middle), mid);
    SumSnoc([FirstSize(layers, ranks, middle)] + mid, LastSize(layers, ranks, middle));
  }

  // ------------------------------------------------------------------ the search

  datatype Candidate = Candidate(shards: seq<int>, spread: nat)

  function CandidateOf(layers: int, ranks: int, middle: int): Candidate
    requires 3 <= ranks
  {
    Candidate(Strategy(layers, ranks, middle), Abs(FirstSize(layers, ranks, middle) - middle))
  }

  // Everything the loop appends for middle sizes below n.
  ghost function Candidates(layers: int, ranks: int, n: nat): seq<Candidate>
    requires 3 <= ranks
  {
    if n == 0 then []
    else
      Candidates(layers, ranks, n - 1)
      + (if Fits(layers, ranks, n - 1) then [CandidateOf(layers, ranks, n - 1)] else [])
  }

  ghost predicate IsStableLeast(s: seq<Candidate>, k: nat)
    requires k < |s|
  {
    && (forall j :: 0 <= j < |s| ==> s[k].spread <= s[j].spread)
    && (forall j :: 0 <= j < k ==> s[k].spread < s[j].spread)
  }

  // The head of a stable sort by spread: the first candidate of least spread.
  method StableLeast(s: seq<Candidate>) returns (best: Candidate)
    requires s != []
    ensures exists k :: 0 <= k < |s| && best == s[k] && IsStableLeast(s, k)
  {
    var k := 0;
    for n := 1 to |s|
      invariant 0 <= k < n
      invariant forall j :: 0 <= j < n ==> s[k].spread <= s[j].spread
      invariant forall j :: 0 <= j < k ==> s[k].spread < s[j].spread
    {
      if s[n].spread < s[k].spread {
        k := n;
      }
    }
    best := s[k];
    assert IsStableLeast(s, k);
  }

  lemma {:induction false} CandidatesAreFits(layers: int, ranks: int, n: nat, k: nat) returns (middle: nat)
    requires 3 <= ranks && k < |Candidates(layers, ranks, n)|
    ensures middle < n && Fits(layers, ranks, middle)
    ensures Candidates(layers, ranks, n)[k] == CandidateOf(layers, ranks, middle)
    decreases n
  {
    hide Fits, CandidateOf;
    if k < |Candidates(layers, ranks, n - 1)| {
      middle := CandidatesAreFits(layers, ranks, n - 1, k);
    } else {
      middle := n - 1;
    }
  }

  lemma {:induction false} FitsAreCandidates(layers: int, ranks: int, n: nat, middle: nat) returns (k: nat)
    requires 3 <= ranks && middle < n && Fits(layers, ranks, middle)
    ensures k < |Candidates(layers, ranks, n)| && Candidates(layers, ranks, n)[k] == CandidateOf(layers, ranks, middle)
    decreases n
  {
    hide Fits, CandidateOf;
    if middle == n - 1 {
      k := |Candidates(layers, ranks, n - 1)|;
    } else {
      k := FitsAreCandidates(layers, ranks, n - 1, middle);
    }
  }

  // Least spread among the candidates belongs to the even share.
  lemma LeastIsEvenShare(layers: int, ranks: int, best: Candidate, k: nat)
    requires 3 <= ranks && 0 < layers && k < |Candidates(layers, ranks, layers)| &&
        best == Candidates(layers, ranks, layers)[k]
    requires forall j :: 0 <= j < |Candidates(layers, ranks, layers)| ==>
        best.spread <= Candidates(layers, ranks, layers)[j].spread
    ensures Shardable(layers, ranks) && best.shards == Strategy(layers, ranks, CeilDiv(layers, ranks))
  {
    var middle := CandidatesAreFits(layers, ranks, layers, k);
    var even := CeilDiv(layers, ranks);
    ShardableIffSomeFit(layers, ranks, middle);
    FitsIsAnInterval(layers, ranks, middle);
    FittingIsSmall(layers, ranks, even);
    var j := FitsAreCandidates(layers, ranks, layers, even);
    hide Candidates, Fits, Strategy, FirstSize;
    if even < middle {
      SpreadGrows(layers, ranks, even, middle);
      assert false;
    }
  }

  /** The search returns exactly the closed form: it fails with an empty candidate list if and
      only if giving every middle rank the even share, rounded up, leaves fewer than two layers
      for the two ends. */
  method GetDynamicPipelineShards(layers: int, ranks: int) returns (r: Outcome)
    ensures r.ValueError? <==> layers < ranks || ranks < 1
    ensures r.IndexError? <==> 3 <= ranks <= layers && !Shardable(layers, ranks)
    ensures r.Ok? && ranks == 1 ==> r.shards == [layers]
    ensures r.Ok? && ranks == 2 ==> r.shards == [layers / 2, layers - layers / 2]
    ensures r.Ok? && 3 <= ranks ==> r.shards == Strategy(layers, ranks, CeilDiv(layers, ranks))
    ensures r.Ok? ==> r.shards == ShardsOf(layers, ranks)
  {
    hide Shardable, Fits, Strategy, CeilDiv;
    if layers < ranks || ranks < 1 {
      return ValueError;
    }
    if ranks == 1 {
      return Ok([layers]);
    }
    if ranks == 2 {
      return Ok([layers / 2, layers - layers / 2]);
    }
    var found: seq<Candidate> := [];
    for middle := 0 to layers
      invariant found == Candidates(layers, ranks, middle)
    {
      if Fits(layers, ranks, middle) {
        found := found + [CandidateOf(layers, ranks, middle)];
      }
    }
    if found == [] {
      NothingFound(layers, ranks);
      return IndexError;
    }
    var best := StableLeast(found);
    ghost var k :| 0 <= k < |found| && best == found[k] && IsStableLeast(found, k);
    LeastIsEvenShare(layers, ranks, best, k);
    r := Ok(best.shards);
  }

  lemma NothingFound(layers: int, ranks: int)
    requires 3 <= ranks <= layers && Candidates(layers, ranks, layers) == []
    ensures !Shardable(layers, ranks)
  {
    ShardableIffSomeFit(layers, ranks, 0);
    if Shardable(layers, ranks) {
      FittingIsSmall(layers, ranks, CeilDiv(layers, ranks));
      var k := FitsAreCandidates(layers, ranks, layers, CeilDiv(layers, ranks));
      assert false;
    }
  }

  /** What a caller gets: one positive share per rank, adding up to all the layers (so the
      function's own final assertion holds), ends no larger than the middle and at most one apart. */
  lemma ShardsAreEven(layers: int, ranks: int)
    requires 3 <= ranks <= layers && Shardable(layers, ranks)
    ensures var s := Strategy(layers, ranks, CeilDiv(layers, ranks)); var m := CeilDiv(layers, ranks);
      && |s| == ranks && Sum(s) == layers
      && (forall i :: 0 < i < ranks - 1 ==> s[i] == m)
      && 0 < s[0] <= s[ranks - 1] <= m && s[ranks - 1] - s[0] <= 1
      && Product(m, ranks) - ranks < layers <= Product(m, ranks)
  {
    var m := CeilDiv(layers, ranks);
    ShardableIffSomeFit(layers, ranks, m);
    StrategySums(layers, ranks, m);
    assert Product(m, ranks) - ranks < layers <= Product(m, ranks);
    hide Product, CeilDiv, Sum;
  }

  // More layers than ranks is not enough.
  lemma FiveLayersOnFourRanks()
    ensures 3 <= 4 <= 5 && !Shardable(5, 4)
  {
  }

  // -------------------------------------------------------- who owns which layer

  // numpy's cumulative sum shifted by one: where each rank's layers start.
  function Start(shards: seq<int>, rank: nat): int
    requires rank <= |shards|
  {
    Sum(shards[..rank])
  }

  predicate Positive(shards: seq<int>) {
    forall i :: 0 <= i < |shards| ==> 0 < shards[i]
  }

  lemma NextStart(shards: seq<int>, rank: nat)
    requires rank < |shards|
    ensures Start(shards, rank + 1) == Start(shards, rank) + shards[rank]
  {
    assert shards[..rank + 1] == shards[..rank] + [shards[rank]];
    SumSnoc(shards[..rank], shards[rank]);
  }

  lemma {:induction false} StartsGrow(shards: seq<int>, a: nat, b: nat)
    requires Positive(shards) && a <= b <= |shards|
    ensures Start(shards, a) + (b - a) <= Start(shards, b)
    decreases b
  {
    if a < b {
      StartsGrow(shards, a, b - 1);
      NextStart(shards, b - 1);
    }
  }

  // Whether the rank's slot range, scaled, holds an index.
  predicate Holds(shards: seq<int>, scale: nat, rank: nat, index: int)
    requires rank < |shards|
  {
    Product(Start(shards, rank), scale) <= index < Product(Start(shards, rank) + shards[rank], scale)
  }

  /** Layers (scale 1) and output files (scale saves_per_layer) are tiled by the ranks: each
      index below the total belongs to exactly one rank, and no rank owns one beyond it. */
  lemma RanksTileTheTotal(shards: seq<int>, scale: nat, index: nat) returns (owner: nat)
    requires Positive(shards) && 0 < scale && index < Product(Sum(shards), scale)
    ensures owner < |shards| && Holds(shards, scale, owner, index)
    ensures forall r :: 0 <= r < |shards| && Holds(shards, scale, r, index) ==> r == owner
  {
    assert shards[..|shards|] == shards;
    owner := FindOwner(shards, scale, index, |shards|);
    forall r | 0 <= r < |shards| && Holds(shards, scale, r, index) ensures r == owner {
      OwnersMeet(shards, scale, index, r, owner);
    }
  }

  lemma {:induction false} FindOwner(shards: seq<int>, scale: nat, index: nat, n: nat) returns (owner: nat)
    requires Positive(shards) && n <= |shards| && index < Product(Start(shards, n), scale)
    ensures owner < n && Holds(shards, scale, owner, index)
    decreases n
  {
    hide Product;
    ZeroProduct(scale);
    assert shards[..0] == [];
    if n == 0 {
      assert false;
    } else if Product(Start(shards, n - 1), scale) <= index {
      owner := n - 1;
      NextStart(shards, n - 1);
    } else {
      owner := FindOwner(shards, scale, index, n - 1);
    }
  }

  lemma OwnersMeet(shards: seq<int>, scale: nat, index: int, a: nat, b: nat)
    requires Positive(shards) && a < |shards| && b < |shards| && Holds(shards, scale, a, index) &&
        Holds(shards, scale, b, index)
    ensures a == b
  {
    hide Product;
    if a < b {
      Apart(shards, scale, a, b);
      assert false;
    } else if b < a {
      Apart(shards, scale, b, a);
      assert false;
    }
  }

  lemma Apart(shards: seq<int>, scale: nat, a: nat, b: nat)
    requires Positive(shards) && a < b < |shards|
    ensures Product(Start(shards, a) + shards[a], scale) <= Product(Start(shards, b), scale)
  {
    NextStart(shards, a);
    StartsGrow(shards, a + 1, b);
    ProductGrows(Start(shards, a) + shards[a], Start(shards, b), scale);
  }

  /** Ranks own their indices in rank order: a later index never belongs to an earlier rank. */
  lemma OwnersAreInOrder(shards: seq<int>, scale: nat, a: nat, b: nat, i: int, j: int)
    requires Positive(shards) && a < |shards| && b < |shards|
    requires Holds(shards, scale, a, i) && Holds(shards, scale, b, j)
    ensures i <= j ==> a <= b
  {
    hide Product;
    if b < a {
      Apart(shards, scale, b, a);
    }
  }

  lemma NothingBeyond(shards: seq<int>, scale: nat, rank: nat, index: int)
    requires Positive(shards) && rank < |shards| && Holds(shards, scale, rank, index)
    ensures 0 <= index < Product(Sum(shards), scale)
  {
    hide Product;
    assert shards[..|shards|] == shards;
    assert shards[..0] == [];
    NextStart(shards, rank);
    StartsGrow(shards, rank + 1, |shards|);
    StartsGrow(shards, 0, rank);
    ProductGrows(Start(shards, rank) + shards[rank], Sum(shards), scale);
    ProductGrows(0, Start(shards, rank), scale);
    ZeroProduct(scale);
  }

  function SavesPerLayer(layers: int): nat {
    if layers < 30 then 1 else 2
  }

  // The file a rank writes its i-th chunk of keys to (numbered from one in the name).
  function SaveIndex(shards: seq<int>, layers: int, rank: nat, i: nat): int
    requires rank < |shards|
  {
    Product(Start(shards, rank), SavesPerLayer(layers)) + i
  }

  predicate Writes(shards: seq<int>, layers: int, rank: nat, i: nat, file: int) {
    rank < |shards| && i < Product(shards[rank], SavesPerLayer(layers)) && SaveIndex(shards, layers, rank, i) == file
  }

  /** Every output-file number from 0 to the total is written by exactly one rank, as exactly
      one of its chunks; there is one file for each layer of a model of fewer than 30, else two. */
  lemma FilesAreNumberedOnce(shards: seq<int>, layers: int, file: nat) returns (rank: nat, i: nat)
    requires Positive(shards) && Sum(shards) == layers && file < (if layers < 30 then layers else 2 * layers)
    ensures Writes(shards, layers, rank, i, file)
    ensures forall r: nat, j: nat :: Writes(shards, layers, r, j, file) ==> r == rank && j == i
    ensures i < (if layers < 30 then shards[rank] else 2 * shards[rank])
  {
    var k := SavesPerLayer(layers);
    assert Product(layers, k) == if layers < 30 then layers else 2 * layers;
    rank := RanksTileTheTotal(shards, k, file);
    hide Product;
    i := file - Product(Start(shards, rank), k);
    Spread(Start(shards, rank), shards[rank], k);
    forall r: nat, j: nat | Writes(shards, layers, r, j, file) ensures r == rank && j == i {
      Spread(Start(shards, r), shards[r], k);
      assert Holds(shards, k, r, file);
    }
  }

  lemma StrategyIsPositive(layers: int, ranks: int)
    requires 3 <= ranks <= layers && Shardable(layers, ranks)
    ensures Positive(Strategy(layers, ranks, CeilDiv(layers, ranks))) &&
        Sum(Strategy(layers, ranks, CeilDiv(layers, ranks))) == layers
    ensures |Strategy(layers, ranks, CeilDiv(layers, ranks))| == ranks
  {
    ShardsAreEven(layers, ranks);
    hide CeilDiv, Product, Sum, Strategy;
  }

  lemma SmallShards(layers: int)
    ensures Sum([layers]) == layers && Sum([layers / 2, layers - layers / 2]) == layers
  {
    SumCons(layers, []);
    assert [layers] + [] == [layers];
    SumSnoc([layers / 2], layers - layers / 2);
    SumCons(layers / 2, []);
    assert [layers / 2] + [] == [layers / 2];
    assert [layers / 2] + [layers - layers / 2] == [layers / 2, layers - layers / 2];
  }

  // What the search returns when it returns, as a function.
  function ShardsOf(layers: int, ranks: int): seq<int>
    requires 1 <= ranks <= layers
  {
    if ranks == 1 then [layers]
    else if ranks == 2 then [layers / 2, layers - layers / 2]
    else Strategy(layers, ranks, CeilDiv(layers, ranks))
  }

  /** Whatever shards the search returns, each rank has a positive share, every layer belongs to
      exactly one rank, and every output file is written exactly once, by one rank. */
  lemma SearchTilesLayersAndFiles(layers: int, ranks: int, layer: nat, file: nat)
      returns (owner: nat, writer: nat, chunk: nat)
    requires 1 <= ranks <= layers && (3 <= ranks ==> Shardable(layers, ranks))
    requires layer < layers && file < (if layers < 30 then layers else 2 * layers)
    ensures var shards := ShardsOf(layers, ranks);
      && |shards| == ranks && Positive(shards) && Sum(shards) == layers
      && owner < ranks && Start(shards, owner) <= layer < Start(shards, owner) + shards[owner]
      && (forall r :: 0 <= r < ranks && Start(shards, r) <= layer < Start(shards, r) + shards[r] ==> r == owner)
      && Writes(shards, layers, writer, chunk, file)
      && (forall r: nat, j: nat :: Writes(shards, layers, r, j, file) ==> r == writer && j == chunk)
  {
    var shards := ShardsOf(layers, ranks);
    SmallShards(layers);
    if 3 <= ranks {
      StrategyIsPositive(layers, ranks);
    }
    hide Strategy, CeilDiv, Shardable, Sum, Start, ShardsOf, SavesPerLayer;
    TimesOne(layers);
    owner := RanksTileTheTotal(shards, 1, layer);
    forall r | 0 <= r < ranks
      ensures Holds(shards, 1, r, layer) <==> Start(shards, r) <= layer < Start(shards, r) + shards[r]
    {
      TimesOne(Start(shards, r));
      TimesOne(Start(shards, r) + shards[r]);
      hide Product;
    }
    writer, chunk := FilesAreNumberedOnce(shards, layers, file);
  }

  lemma TimesOne(k: int)
    ensures Product(k, 1) == k
  {
  }

  // ------------------------------------------------------- keys over a rank's files

  /** A rank's keys go to its files in order, each exactly once, and evenly: when the keys do not
      divide, the first files take one more. */
  lemma KeysAreSavedOnce<T>(keys: seq<T>, n: nat)
    requires 0 < n
    ensures Flatten(ArraySplit(keys, n)) == keys
    ensures forall j :: 0 <= j < n ==> |ArraySplit(keys, n)[j]| == |keys| / n + if j < |keys| % n then 1 else 0
  {
    FlattenParts(keys, n, n);
    assert ArraySplit(keys, n)[..n] == ArraySplit(keys, n);
    assert keys[..|keys|] == keys;
    hide PartStart, Flatten;
    forall j | 0 <= j < n ensures |ArraySplit(keys, n)[j]| == |keys| / n + if j < |keys| % n then 1 else 0 {
      PartInRange(|keys|, n, j);
      PartInRange(|keys|, n, j + 1);
      PartSize(|keys|, n, j);
    }
  }

  // ------------------------------------------------------- renumbering merged layers

  // How far one state dictionary moves the base: one past its highest local layer, where a
  // dictionary without layers counts as having handled layer 0.
  function Advance(layers: nat): nat {
    if layers == 0 then 1 else layers
  }

  function Base(counts: seq<nat>, from: int, n: nat): int
    requires n <= |counts|
  {
    if n == 0 then from else Base(counts, from, n - 1) + Advance(counts[n - 1])
  }

  function Total(counts: seq<nat>): nat {
    if counts == [] then 0 else Total(counts[..|counts| - 1]) + counts[|counts| - 1]
  }

  // The number a layer should have: its predecessors in order, after `from`.
  function Position(counts: seq<nat>, from: int, n: nat, local: nat): int
    requires n < |counts|
  {
    from + Total(counts[..n]) + local
  }

  // Dictionaries without layers.
  function Empties(counts: seq<nat>): nat {
    if counts == [] then 0 else Empties(counts[..|counts| - 1]) + (if counts[|counts| - 1] == 0 then 1 else 0)
  }

  // The base is all layers before, and one for each dictionary that had none.
  lemma {:induction false} BaseIs(counts: seq<nat>, from: int, n: nat)
    requires n <= |counts|
    ensures Base(counts, from, n) == from + Total(counts[..n]) + Empties(counts[..n])
  {
    if n > 0 {
      BaseIs(counts, from, n - 1);
      assert counts[..n][..n - 1] == counts[..n - 1];
    }
  }

  // The renumbering loop over dictionaries holding local layers 0..counts[n]-1.
  method RenumberLayers(counts: seq<nat>, from: int) returns (global: seq<seq<int>>)
    ensures |global| == |counts|
    ensures forall n :: 0 <= n < |counts| ==> |global[n]| == counts[n]
    ensures forall n, k :: 0 <= n < |counts| && 0 <= k < counts[n] ==> global[n][k] == Base(counts, from, n) + k
    ensures forall n, k :: 0 <= n < |counts| && 0 <= k < counts[n] ==>
              global[n][k] == from + Total(counts[..n]) + Empties(counts[..n]) + k
  {
    global := [];
    var cum := from;
    for n := 0 to |counts|
      invariant cum == Base(counts, from, n) && |global| == n
      invariant forall j :: 0 <= j < n ==> |global[j]| == counts[j]
      invariant forall j, k :: 0 <= j < n && 0 <= k < counts[j] ==> global[j][k] == Base(counts, from, j) + k
    {
      var handled, row := 0, [];
      for local := 0 to counts[n]
        invariant |row| == local && handled == (if local == 0 then 0 else local - 1)
        invariant forall k :: 0 <= k < local ==> row[k] == cum + k
      {
        handled := if local < handled then handled else local;
        row := row + [local + cum];
      }
      global := global + [row];
      cum := cum + handled + 1;
    }
    forall n | 0 <= n < |counts|
      ensures Base(counts, from, n) == from + Total(counts[..n]) + Empties(counts[..n])
    {
      BaseIs(counts, from, n);
    }
  }

  ghost predicate NumberedInOrder(counts: seq<nat>, from: int) {
    forall n, k :: 0 <= n < |counts| && 0 <= k < counts[n] ==> Base(counts, from, n) + k == Position(counts, from, n, k)
  }

  ghost predicate NoEmptyBefore(counts: seq<nat>) {
    forall m, n :: 0 <= m < n < |counts| && counts[m] == 0 ==> counts[n] == 0
  }

  lemma {:induction false} BaseRunsAhead(counts: seq<nat>, from: int, n: nat)
    requires n <= |counts|
    ensures Base(counts, from, n) >= from + Total(counts[..n])
    ensures (forall m :: 0 <= m < n ==> counts[m] > 0) ==> Base(counts, from, n) == from + Total(counts[..n])
    ensures (exists m :: 0 <= m < n && counts[m] == 0) ==> Base(counts, from, n) > from + Total(counts[..n])
  {
    if n > 0 {
      BaseRunsAhead(counts, from, n - 1);
      assert counts[..n][..n - 1] == counts[..n - 1];
    }
  }

  /** Layer numbers come out consecutive if and only if no dictionary without layers precedes
      one with layers: such a dictionary moves the base by one for nothing. */
  lemma NumberingIsConsecutiveIff(counts: seq<nat>, from: int)
    ensures NumberedInOrder(counts, from) <==> NoEmptyBefore(counts)
  {
    forall n | 0 <= n < |counts|
      ensures Base(counts, from, n) == from + Total(counts[..n]) <==> forall m :: 0 <= m < n ==> counts[m] > 0
    {
      BaseRunsAhead(counts, from, n);
    }
    if NumberedInOrder(counts, from) {
      forall m, n | 0 <= m < n < |counts| && counts[m] == 0 ensures counts[n] == 0 {
        assert counts[n] > 0 ==> Base(counts, from, n) + 0 == Position(counts, from, n, 0);
      }
    }
    if NoEmptyBefore(counts) {
      forall n, k | 0 <= n < |counts| && 0 <= k < counts[n]
        ensures Base(counts, from, n) + k == Position(counts, from, n, k)
      {
        assert forall m :: 0 <= m < n ==> counts[m] > 0;
      }
    }
  }
}
