/** Layouts of the fused attention weight (verl/scripts/converter_hf_to_mcore.py,
    verl/verl/model_merger/megatron_model_merger.py, verl/scripts/legacy_model_merger.py).
    A tensor is the sequence of its rows. */
module Qkv {
  import opened Flattening
  import opened Arithmetic
  import opened Cuts

  datatype Parts<T> = Parts(q: seq<T>, k: seq<T>, v: seq<T>)
  datatype Result<T> = Ok(parts: Parts<T>) | Failed

  // --------------------------------------------------- splitting the fused tensor

  // chunk.split([a, b, b]) on every chunk, appending to three lists.
  function Gather<T>(blocks: seq<seq<T>>, a: nat, b: nat): Result<T> {
    if blocks == [] then Ok(Parts([], [], []))
    else
      var r, last := Gather(blocks[..|blocks| - 1], a, b), blocks[|blocks| - 1];
      if r.Failed? || |last| != a + b + b then Failed
      else Ok(Parts(r.parts.q + last[..a], r.parts.k + last[a..a + b], r.parts.v + last[a + b..]))
  }

  // Rows of the key part of a tensor, by truncating division.
  function KvSize(rows: nat, queriesPerGroup: nat): nat {
    rows / (queriesPerGroup + 2)
  }

  function PerGroup(heads: nat, groups: nat): nat
    requires 0 < groups
  {
    heads / groups
  }

  // The three split sizes of one group: query rows, and key rows (twice).
  function QueryRows(kv: nat, per: nat, n: nat): nat
    requires 0 < n
  {
    Nonnegative(kv, per);
    Product(kv, per) / n
  }

  function HeadRows(kv: nat, n: nat): nat
    requires 0 < n
  {
    kv / n
  }

  // The two assertions (and the division) that precede the loop.
  predicate ShapeOk(rows: nat, heads: nat, groups: nat) {
    0 < groups && heads % groups == 0 && rows % (PerGroup(heads, groups) + 2) == 0
  }

  function Split<T>(t: seq<T>, heads: nat, groups: nat): Result<T> {
    if !ShapeOk(|t|, heads, groups) then Failed
    else
      var per := PerGroup(heads, groups);
      var kv := KvSize(|t|, per);
      Gather(TorchChunk(t, groups), QueryRows(kv, per, groups), HeadRows(kv, groups))
  }

  function ChunkAll<T>(shards: seq<seq<T>>, n: nat): seq<seq<T>>
    requires 0 < n
  {
    if shards == [] then [] else ChunkAll(shards[..|shards| - 1], n) + TorchChunk(shards[|shards| - 1], n)
  }

  function Merge<T>(shards: seq<seq<T>>, heads: nat, groups: nat): Result<T> {
    if shards == [] || !ShapeOk(|shards[0]|, heads, groups) || groups < |shards| then Failed
    else
      var per := PerGroup(heads, groups);
      var kv := KvSize(|shards[0]|, per);
      var local := LocalGroups(groups, |shards|);
      Gather(ChunkAll(shards, local), QueryRows(kv, per, local), HeadRows(kv, local))
  }

  // Key-value groups per tensor-parallel shard.
  function LocalGroups(groups: nat, shards: nat): (r: nat)
    requires 0 < shards <= groups
    ensures 0 < r
  {
    groups / shards
  }

  method GatherChunks<T>(blocks: seq<seq<T>>, a: nat, b: nat, before: Parts<T>) returns (r: Result<T>)
    ensures Gather(blocks, a, b).Failed? ==> r.Failed?
    ensures Gather(blocks, a, b).Ok? ==> r == Ok(After(before, Gather(blocks, a, b).parts))
  {
    hide Gather;
    var parts := before;
    NothingGathered<T>(a, b);
    for n := 0 to |blocks|
      invariant Gather(blocks[..n], a, b).Ok? && parts == After(before, Gather(blocks[..n], a, b).parts)
    {
      var chunk := blocks[n];
      NextBlock(blocks, n, a, b);
      ghost var sofar := Gather(blocks[..n], a, b).parts;
      if |chunk| != a + b + b {
        GatherStaysFailed(blocks, n + 1, |blocks|, a, b);
        assert blocks[..|blocks|] == blocks;
        return Failed;
      }
      AfterAssociates(before, sofar, Parts(chunk[..a], chunk[a..a + b], chunk[a + b..]));
      parts := Parts(parts.q + chunk[..a], parts.k + chunk[a..a + b], parts.v + chunk[a + b..]);
    }
    assert blocks[..|blocks|] == blocks;
    r := Ok(parts);
  }

  lemma NothingGathered<T>(a: nat, b: nat)
    ensures Gather<T>([], a, b) == Ok(Parts([], [], []))
  {
  }

  function After<T>(x: Parts<T>, y: Parts<T>): Parts<T> {
    Parts(x.q + y.q, x.k + y.k, x.v + y.v)
  }

  lemma NextBlock<T>(blocks: seq<seq<T>>, n: nat, a: nat, b: nat)
    requires n < |blocks|
    ensures Gather(blocks[..n + 1], a, b)
            == if Gather(blocks[..n], a, b).Failed? || |blocks[n]| != a + b + b then Failed
               else Ok(After(Gather(blocks[..n], a, b).parts,
                   Parts(blocks[n][..a], blocks[n][a..a + b], blocks[n][a + b..])))
  {
    assert blocks[..n + 1][..n] == blocks[..n];
  }

  lemma {:induction false} GatherStaysFailed<T>(blocks: seq<seq<T>>, m: nat, n: nat, a: nat, b: nat)
    requires m <= n <= |blocks| && Gather(blocks[..m], a, b).Failed?
    ensures Gather(blocks[..n], a, b).Failed?
    decreases n
  {
    if m < n {
      GatherStaysFailed(blocks, m, n - 1, a, b);
      NextBlock(blocks, n - 1, a, b);
    }
  }

  method SplitTensors<T>(t: seq<T>, heads: nat, groups: nat) returns (r: Result<T>)
    ensures r == Split(t, heads, groups)
  {
    hide Gather, TorchChunk, KvSize, PerGroup, QueryRows, HeadRows;
    if !ShapeOk(|t|, heads, groups) {
      return Failed;
    }
    var per := PerGroup(heads, groups);
    var kv := KvSize(|t|, per);
    r := GatherChunks(TorchChunk(t, groups), QueryRows(kv, per, groups), HeadRows(kv, groups), Parts([], [], []));
  }

  lemma {:induction false} GatherAppends<T>(x: seq<seq<T>>, y: seq<seq<T>>, a: nat, b: nat)
    ensures Gather(x + y, a, b) ==
            if Gather(x, a, b).Failed? || Gather(y, a, b).Failed? then Failed
            else Ok(After(Gather(x, a, b).parts, Gather(y, a, b).parts))
    decreases |y|
  {
    if y == [] {
      assert x + y == x;
    } else {
      var n := |y| - 1;
      GatherAppends(x, y[..n], a, b);
      assert (x + y)[..|x| + n] == x + y[..n];
      NextBlock(y, n, a, b);
      NextBlock(x + y, |x| + n, a, b);
      assert y[..n + 1] == y && (x + y)[..|x| + n + 1] == x + y;
      hide Gather;
      if Gather(x, a, b).Ok? && Gather(y[..n], a, b).Ok? && |y[n]| == a + b + b {
        AfterAssociates(Gather(x, a, b).parts, Gather(y[..n], a, b).parts,
            Parts(y[n][..a], y[n][a..a + b], y[n][a + b..]));
      }
    }
  }

  lemma AfterAssociates<T>(x: Parts<T>, y: Parts<T>, z: Parts<T>)
    ensures After(After(x, y), z) == After(x, After(y, z))
  {
    assert (x.q + y.q) + z.q == x.q + (y.q + z.q);
    assert (x.k + y.k) + z.k == x.k + (y.k + z.k);
    assert (x.v + y.v) + z.v == x.v + (y.v + z.v);
  }

  method MergeAcrossTp<T>(shards: seq<seq<T>>, heads: nat, groups: nat) returns (r: Result<T>)
    ensures r == Merge(shards, heads, groups)
  {
    hide Gather, TorchChunk, KvSize, PerGroup, QueryRows, HeadRows, LocalGroups, ChunkAll;
    if shards == [] || !ShapeOk(|shards[0]|, heads, groups) || groups < |shards| {
      return Failed;
    }
    var per := PerGroup(heads, groups);
    var kv := KvSize(|shards[0]|, per);
    var local := LocalGroups(groups, |shards|);
    var a, b := QueryRows(kv, per, local), HeadRows(kv, local);
    var parts := Parts([], [], []);
    NothingGathered<T>(a, b);
    NoShards<T>(local);
    for n := 0 to |shards|
      invariant Gather(ChunkAll(shards[..n], local), a, b) == Ok(parts)
    {
      NextShard(shards, n, local);
      GatherAppends(ChunkAll(shards[..n], local), TorchChunk(shards[n], local), a, b);
      var more := GatherChunks(TorchChunk(shards[n], local), a, b, parts);
      if more.Failed? {
        ShardsStayFailed(shards, n + 1, |shards|, local, a, b);
        assert shards[..|shards|] == shards;
        return Failed;
      }
      parts := more.parts;
    }
    assert shards[..|shards|] == shards;
    r := Ok(parts);
  }

  lemma NoShards<T>(local: nat)
    requires 0 < local
    ensures ChunkAll<T>([], local) == []
  {
  }

  lemma NextShard<T>(shards: seq<seq<T>>, n: nat, local: nat)
    requires n < |shards| && 0 < local
    ensures ChunkAll(shards[..n + 1], local) == ChunkAll(shards[..n], local) + TorchChunk(shards[n], local)
  {
    assert shards[..n + 1][..n] == shards[..n];
  }

  lemma {:induction false} ShardsStayFailed<T>(shards: seq<seq<T>>, m: nat, n: nat, local: nat, a: nat, b: nat)
    requires m <= n <= |shards| && 0 < local && Gather(ChunkAll(shards[..m], local), a, b).Failed?
    ensures Gather(ChunkAll(shards[..n], local), a, b).Failed?
    decreases n
  {
    hide Gather, ChunkAll, TorchChunk;
    if m < n {
      ShardsStayFailed(shards, m, n - 1, local, a, b);
      NextShard(shards, n - 1, local);
      GatherAppends(ChunkAll(shards[..n - 1], local), TorchChunk(shards[n - 1], local), a, b);
    }
  }

  // ------------------------------------------------ interleaving, and back again

  // The group blocks of the fused weight: each group's query rows, then its key and value rows.
  function Blocks<T>(q: seq<T>, k: seq<T>, v: seq<T>, n: nat, a: nat, b: nat): (r: seq<seq<T>>)
    requires |q| == Product(n, a) && |k| == Product(n, b) && |v| == Product(n, b)
    ensures |r| == n
    decreases n
  {
    if n == 0 then []
    else
      Room(n, a);
      Room(n, b);
      var i, j := Product(n - 1, a), Product(n - 1, b);
      Blocks(q[..i], k[..j], v[..j], n - 1, a, b) + [q[i..] + k[j..] + v[j..]]
  }

  function Interleave<T>(q: seq<T>, k: seq<T>, v: seq<T>, n: nat, a: nat, b: nat): seq<T>
    requires |q| == Product(n, a) && |k| == Product(n, b) && |v| == Product(n, b)
  {
    Flatten(Blocks(q, k, v, n, a, b))
  }

  lemma {:induction false} BlocksGather<T>(q: seq<T>, k: seq<T>, v: seq<T>, n: nat, a: nat, b: nat)
    requires |q| == Product(n, a) && |k| == Product(n, b) && |v| == Product(n, b)
    ensures Uniform(Blocks(q, k, v, n, a, b), a + b + b)
    ensures Gather(Blocks(q, k, v, n, a, b), a, b) == Ok(Parts(q, k, v))
    decreases n
  {
    hide Product;
    ZeroProduct(a);
    ZeroProduct(b);
    if n > 0 {
      Room(n, a);
      Room(n, b);
      var i, j := Product(n - 1, a), Product(n - 1, b);
      BlocksGather(q[..i], k[..j], v[..j], n - 1, a, b);
      var blocks := Blocks(q, k, v, n, a, b);
      var last := q[i..] + k[j..] + v[j..];
      assert blocks[..n - 1] == Blocks(q[..i], k[..j], v[..j], n - 1, a, b) && blocks[n - 1] == last;
      assert last[..a] == q[i..] && last[a..a + b] == k[j..] && last[a + b..] == v[j..];
      assert q == q[..i] + q[i..] && k == k[..j] + k[j..] && v == v[..j] + v[j..];
    }
  }

  lemma {:induction false} FlattenLength<T>(blocks: seq<seq<T>>, size: nat)
    requires Uniform(blocks, size)
    ensures |Flatten(blocks)| == Product(|blocks|, size)
    decreases |blocks|
  {
    hide Product;
    ZeroProduct(size);
    if blocks != [] {
      FlattenLength(blocks[1..], size);
      Spread(|blocks| - 1, 1, size);
      OneProduct(size);
    }
  }

  // The sizes the splitter computes for a tensor of n blocks of nq*b + 2b rows.
  lemma SplitSizes(n: nat, b: nat, nq: nat, rows: nat)
    requires 0 < n && rows == Product(n, Product(nq, b) + b + b)
    ensures rows % (nq + 2) == 0 && KvSize(rows, nq) == Product(n, b) && 0 <= Product(n, b)
    ensures QueryRows(Product(n, b), nq, n) == Product(nq, b) && HeadRows(Product(n, b), n) == b
    ensures 0 < rows ==> CeilDiv(rows, n) == Product(nq, b) + b + b
  {
    ExactDivision(Product(n, b), nq + 2, rows);
    ExactDivision(b, n, Product(n, b));
    Reorder(n, b, nq);
    ExactDivision(Product(nq, b), n, Product(Product(n, b), nq));
    var size := Product(nq, b) + b + b;
    ExactCeil(size, n, rows);
  }

  lemma Reorder(n: nat, b: nat, nq: nat)
    ensures Product(Product(n, b), nq) == Product(Product(nq, b), n)
    ensures Product(n, b) == Product(b, n)
  {
  }

  lemma ExactDivision(q: nat, d: nat, t: int)
    requires 0 < d && (t == Product(q, d) || t == Product(d, q))
    ensures t / d == q && t % d == 0
  {
    hide Product;
    Commute(q, d);
    ModIs(d, q, 0);
  }

  /** Splitting the interleaved weight gives back the query, key and value rows, row for row. */
  lemma SplitInvertsInterleave<T>(q: seq<T>, k: seq<T>, v: seq<T>, groups: nat, nq: nat, headDim: nat)
    requires 0 < groups && 0 < headDim
    requires 0 <= Product(nq, headDim) && 0 <= Product(groups, nq)
    requires |q| == Product(groups, Product(nq, headDim)) && |k| == Product(groups, headDim) &&
        |v| == Product(groups, headDim)
    ensures Split(Interleave(q, k, v, groups, Product(nq, headDim), headDim), Product(groups, nq), groups) ==
        Ok(Parts(q, k, v))
  {
    hide Product, Gather, Flatten, Blocks, CeilDiv, KvSize, QueryRows, HeadRows;
    var a, b := Product(nq, headDim), headDim;
    var blocks := Blocks(q, k, v, groups, a, b);
    var t := Flatten(blocks);
    BlocksGather(q, k, v, groups, a, b);
    FlattenLength(blocks, a + b + b);
    PiecesOfBlocks(blocks, a + b + b);
    hide Pieces;
    SplitSizes(groups, b, nq, |t|);
    ExactDivision(nq, groups, Product(groups, nq));
  }

  // ---------------------------------------------------------- when splitting works

  lemma {:induction false} UniformGathers<T>(blocks: seq<seq<T>>, a: nat, b: nat)
    requires Uniform(blocks, a + b + b)
    ensures Gather(blocks, a, b).Ok?
    ensures var r := Gather(blocks, a, b).parts; var n := |blocks|;
            && |r.q| == Product(n, a) && |r.k| == Product(n, b) && |r.v| == Product(n, b)
            && Blocks(r.q, r.k, r.v, n, a, b) == blocks
    decreases |blocks|
  {
    hide Product;
    ZeroProduct(a);
    ZeroProduct(b);
    if blocks != [] {
      var n := |blocks|;
      UniformGathers(blocks[..n - 1], a, b);
      Room(n, a);
      Room(n, b);
      var r, s, last := Gather(blocks, a, b).parts, Gather(blocks[..n - 1], a, b).parts, blocks[n - 1];
      assert r.q[..|s.q|] == s.q && r.k[..|s.k|] == s.k && r.v[..|s.v|] == s.v;
      assert r.q[|s.q|..] == last[..a] && r.k[|s.k|..] == last[a..a + b] && r.v[|s.v|..] == last[a + b..];
      assert last == last[..a] + last[a..a + b] + last[a + b..];
    }
  }

  lemma {:induction false} BadBlockFails<T>(blocks: seq<seq<T>>, a: nat, b: nat, i: nat)
    requires i < |blocks| && |blocks[i]| != a + b + b
    ensures Gather(blocks, a, b).Failed?
    decreases |blocks|
  {
    if i < |blocks| - 1 {
      BadBlockFails(blocks[..|blocks| - 1], a, b, i);
    }
  }

  // The caller's check: whole query heads per group, whole heads per tensor, whole groups.
  predicate Splittable(rows: nat, heads: nat, groups: nat) {
    ShapeOk(rows, heads, groups) && KvSize(rows, PerGroup(heads, groups)) % groups == 0
  }

  // The shape of a splittable tensor: groups blocks of nq*b + 2b rows.
  lemma SplittableShape(rows: nat, heads: nat, groups: nat) returns (b: nat)
    requires Splittable(rows, heads, groups)
    ensures var nq := PerGroup(heads, groups); rows == Product(groups, Product(nq, b) + b + b) && 0 <= Product(nq, b)
    ensures 0 < rows ==> 0 < b
  {
    var nq := PerGroup(heads, groups);
    var kv := KvSize(rows, nq);
    b := kv / groups;
    DivisionIdentity(rows, nq + 2);
    DivisionIdentity(kv, groups);
    Reorder(groups, b, nq);
    if b == 0 {
      ZeroProduct(groups);
      ZeroProduct(nq + 2);
    }
  }

  lemma SplitOnShape<T>(t: seq<T>, heads: nat, groups: nat, b: nat)
    requires 0 < groups && heads % groups == 0 && t != [] && 0 < b
    requires var nq := PerGroup(heads, groups); |t| == Product(groups, Product(nq, b) + b + b) && 0 <= Product(nq, b)
    ensures var nq := PerGroup(heads, groups);
      Split(t, heads, groups) == Gather(Pieces(t, Product(nq, b) + b + b), Product(nq, b), b)
    ensures var nq := PerGroup(heads, groups); var blocks := Pieces(t, Product(nq, b) + b + b);
      |blocks| == groups && Uniform(blocks, Product(nq, b) + b + b) && Flatten(blocks) == t
  {
    var nq := PerGroup(heads, groups);
    hide Product, Gather, Pieces, CeilDiv, KvSize, Flatten, QueryRows, HeadRows, PerGroup;
    SplitSizes(groups, b, nq, |t|);
    PiecesAreUniform(t, Product(nq, b) + b + b, groups);
  }

  lemma GatherSnoc<T>(blocks: seq<seq<T>>, a: nat, b: nat)
    requires Uniform(blocks, a + b + b) && blocks != []
    ensures var n := |blocks| - 1;
      && Uniform(blocks[..n], a + b + b) && Gather(blocks, a, b).Ok? && Gather(blocks[..n], a, b).Ok?
      && |blocks[n]| == a + b + b
      && var r, s := Gather(blocks, a, b).parts, Gather(blocks[..n], a, b).parts;
      && |s.q| == Product(n, a) && |s.k| == |s.v| == Product(n, b)
      && r.q == s.q + blocks[n][..a] && r.k == s.k + blocks[n][a..a + b] && r.v == s.v + blocks[n][a + b..]
  {
    hide Product;
    UniformGathers(blocks, a, b);
    UniformGathers(blocks[..|blocks| - 1], a, b);
    hide Blocks;
  }

  lemma SubSlice<T>(t: seq<T>, lo: nat, hi: nat, x: nat, y: nat)
    requires lo <= hi <= |t| && x <= y <= hi - lo
    ensures t[lo..hi][x..y] == t[lo + x..lo + y]
  {
    var l, r := t[lo..hi][x..y], t[lo + x..lo + y];
    assert forall i :: 0 <= i < y - x ==> l[i] == r[i];
  }

  // The rows of block g in one of the three parts, when every block gives it n rows.
  function BlockRows<T>(part: seq<T>, g: nat, n: nat): (r: seq<T>)
    requires 0 <= Product(g, n) <= Product(g, n) + n <= |part|
  {
    part[Product(g, n)..Product(g, n) + n]
  }

  lemma BlockInFront<T>(s: seq<T>, t: seq<T>, g: nat, n: nat)
    requires 0 <= Product(g, n) <= Product(g, n) + n <= |s|
    ensures BlockRows(s + t, g, n) == BlockRows(s, g, n)
  {
    hide Product;
  }

  lemma BlockBehind<T>(s: seq<T>, t: seq<T>, g: nat, n: nat)
    requires |s| == Product(g, n) && |t| == n
    ensures BlockRows(s + t, g, n) == t
  {
    hide Product;
  }

  lemma {:induction false} GatherRow<T>(blocks: seq<seq<T>>, a: nat, b: nat, g: nat)
    requires Uniform(blocks, a + b + b) && g < |blocks|
    ensures Gather(blocks, a, b).Ok? && |blocks[g]| == a + b + b
    ensures var r := Gather(blocks, a, b).parts;
      && 0 <= Product(g, a) <= Product(g, a) + a <= |r.q|
      && 0 <= Product(g, b) <= Product(g, b) + b <= |r.k| && |r.k| == |r.v|
      && BlockRows(r.q, g, a) == blocks[g][..a]
      && BlockRows(r.k, g, b) == blocks[g][a..a + b]
      && BlockRows(r.v, g, b) == blocks[g][a + b..]
    decreases |blocks|
  {
    GatherSnoc(blocks, a, b);
    hide *;
    var n := |blocks| - 1;
    var s, last := Gather(blocks[..n], a, b).parts, blocks[n];
    if g < n {
      GatherRow(blocks[..n], a, b, g);
      assert blocks[..n][g] == blocks[g];
      BlockInFront(s.q, last[..a], g, a);
      BlockInFront(s.k, last[a..a + b], g, b);
      BlockInFront(s.v, last[a + b..], g, b);
    } else {
      BlockBehind(s.q, last[..a], g, a);
      BlockBehind(s.k, last[a..a + b], g, b);
      BlockBehind(s.v, last[a + b..], g, b);
    }
  }

  /** Where the rows of a splittable tensor go: group by group, first the group's query rows, then
      its key rows, then its value rows. */
  lemma SplitTakesRows<T>(t: seq<T>, heads: nat, groups: nat, g: nat) returns (a: nat, b: nat)
    requires t != [] && Splittable(|t|, heads, groups) && g < groups
    ensures Product(PerGroup(heads, groups), b) == a && |t| == Product(groups, a + b + b)
    ensures Split(t, heads, groups).Ok?
    ensures var r, at := Split(t, heads, groups).parts, Product(g, a + b + b);
      && 0 <= Product(g, a) <= Product(g, a) + a <= |r.q|
      && 0 <= Product(g, b) <= Product(g, b) + b <= |r.k| && |r.k| == |r.v|
      && 0 <= at <= at + a + b + b <= |t|
      && BlockRows(r.q, g, a) == t[at..at + a]
      && BlockRows(r.k, g, b) == t[at + a..at + a + b]
      && BlockRows(r.v, g, b) == t[at + a + b..at + a + b + b]
  {
    b := SplittableShape(|t|, heads, groups);
    a := Product(PerGroup(heads, groups), b);
    SplitOnShape(t, heads, groups, b);
    BlockOfRows(t, a, b, groups, g);
    hide *;
    GatherRow(Pieces(t, a + b + b), a, b, g);
  }

  // The three parts of one block of a tensor, as rows of the tensor.
  lemma BlockOfRows<T>(t: seq<T>, a: nat, b: nat, n: nat, g: nat)
    requires t != [] && 0 < a + b + b && |t| == Product(n, a + b + b) && g < n
    requires |Pieces(t, a + b + b)| == n
    ensures var at, block := Product(g, a + b + b), Pieces(t, a + b + b)[g];
      && 0 <= at <= at + a + b + b <= |t| && |block| == a + b + b
      && block[..a] == t[at..at + a] && block[a..a + b] == t[at + a..at + a + b]
      && block[a + b..] == t[at + a + b..at + a + b + b]
  {
    hide Product, Pieces;
    var size := a + b + b;
    PieceAt(t, size, g);
    Spread(g, 1, size);
    OneProduct(size);
    ProductGrows(g + 1, n, size);
    var at := Product(g, size);
    var block := t[at..at + size];
    assert Pieces(t, size)[g] == block;
    SubSlice(t, at, at + size, 0, a);
    SubSlice(t, at, at + size, a, a + b);
    SubSlice(t, at, at + size, a + b, size);
    assert block[..a] == block[0..a] && block[a + b..] == block[a + b..size];
  }

  // torch.chunk pieces too large for the truncated split sizes.
  lemma UnevenPieceIsLarger(kv: nat, nq: nat, groups: nat, rows: nat)
    requires 0 < groups && rows == Product(kv, nq + 2) && kv % groups != 0 && 0 <= Product(kv, nq)
    ensures 0 < rows
    ensures QueryRows(kv, nq, groups) + HeadRows(kv, groups) + HeadRows(kv, groups) < CeilDiv(rows, groups) <= rows
  {
    var a, b, c := QueryRows(kv, nq, groups), HeadRows(kv, groups), CeilDiv(rows, groups);
    DivisionIdentity(Product(kv, nq), groups);
    DivisionIdentity(kv, groups);
    hide Product, CeilDiv, QueryRows, HeadRows;
    Commute(kv, nq + 2);
    Spread(nq, 2, kv);
    Commute(kv, nq);
    Spread(1, 1, kv);
    OneProduct(kv);
    Spread(a, b + b, groups);
    Spread(b, b, groups);
    CeilDivBounds(rows, groups, c);
    Smaller(a + b + b, c, groups);
    CeilAtMost(rows, groups);
  }

  lemma NothingSplits<T>(nq: nat, groups: nat)
    requires 0 < groups
    ensures KvSize(0, nq) == 0 && QueryRows(0, nq, groups) == 0 && HeadRows(0, groups) == 0
    ensures Gather<T>(seq(groups, i => []), 0, 0).Ok?
  {
    UniformGathers<T>(seq(groups, i => []), 0, 0);
  }

  /** Splitting succeeds if and only if the rows are whole key heads and every group gets a
      whole number of them; otherwise a torch.chunk piece is longer than its truncated split. */
  lemma SplitSucceedsIff<T>(t: seq<T>, heads: nat, groups: nat)
    ensures Split(t, heads, groups).Ok? <==> Splittable(|t|, heads, groups)
  {
    if Splittable(|t|, heads, groups) {
      var b := SplittableShape(|t|, heads, groups);
      var nq := PerGroup(heads, groups);
      hide Product, Gather, CeilDiv;
      if t == [] {
        NothingSplits<T>(nq, groups);
      } else {
        SplitOnShape(t, heads, groups, b);
        UniformGathers(Pieces(t, Product(nq, b) + b + b), Product(nq, b), b);
      }
    } else if ShapeOk(|t|, heads, groups) {
      UnevenFails(t, heads, groups);
    }
  }

  lemma UnevenFails<T>(t: seq<T>, heads: nat, groups: nat)
    requires ShapeOk(|t|, heads, groups) && KvSize(|t|, PerGroup(heads, groups)) % groups != 0
    ensures Split(t, heads, groups).Failed?
  {
    var nq := PerGroup(heads, groups);
    var kv := KvSize(|t|, nq);
    DivisionIdentity(|t|, nq + 2);
    Nonnegative(kv, nq);
    hide Product, CeilDiv, Gather, KvSize, QueryRows, HeadRows, PerGroup;
    UnevenPieceIsLarger(kv, nq, groups, |t|);
    assert |Pieces(t, CeilDiv(|t|, groups))[0]| == CeilDiv(|t|, groups);
    hide Pieces;
    BadBlockFails(TorchChunk(t, groups), QueryRows(kv, nq, groups), HeadRows(kv, groups), 0);
  }

  /** Interleaving what was split gives back the fused tensor. */
  lemma InterleaveInvertsSplit<T>(t: seq<T>, heads: nat, groups: nat) returns (b: nat)
    requires t != [] && Splittable(|t|, heads, groups)
    ensures var nq := PerGroup(heads, groups);
      && 0 <= Product(nq, b) && Split(t, heads, groups).Ok?
      && var r := Split(t, heads, groups).parts;
      && |r.q| == Product(groups, Product(nq, b)) && |r.k| == Product(groups, b) && |r.v| == Product(groups, b)
      && Interleave(r.q, r.k, r.v, groups, Product(nq, b), b) == t
  {
    b := SplittableShape(|t|, heads, groups);
    var nq := PerGroup(heads, groups);
    hide Product, Gather, Pieces, Split, Splittable, Flatten, Blocks;
    SplitOnShape(t, heads, groups, b);
    UniformGathers(Pieces(t, Product(nq, b) + b + b), Product(nq, b), b);
  }

  // -------------------------------------------------------- tensor-parallel shards

  // Chunking contiguous shards is chunking the whole.
  lemma {:induction false} ChunksOfShards<T>(t: seq<T>, size: nat, local: nat, n: nat)
    requires 0 < size && 0 < local && t != [] && 0 < Product(local, size) && |t| == Product(n, Product(local, size))
    ensures |Pieces(t, Product(local, size))| == n
    ensures Chunked(Pieces(t, Product(local, size)), local) == Pieces(t, size)
    decreases n
  {
    var shard := Product(local, size);
    hide Product, CeilDiv;
    ZeroProduct(shard);
    PiecesAreUniform(t, shard, n);
    if n > 0 {
      Spread(n - 1, 1, shard);
      OneProduct(shard);
      if n == 1 {
        ExactCeil(size, local, shard);
        assert Chunked([t], local) == TorchChunk(t, local) + Chunked([], local);
      } else {
        ProductGrows(1, n - 1, shard);
        var first, rest := t[..shard], t[shard..];
        ChunksOfShards(rest, size, local, n - 1);
        ExactCeil(size, local, shard);
        PiecesAppend(first, rest, size, local);
        assert t == first + rest;
        assert Pieces(t, shard)[1..] == Pieces(rest, shard);
      }
    }
  }

  // ChunkAll, read from the first shard.
  function Chunked<T>(shards: seq<seq<T>>, n: nat): seq<seq<T>>
    requires 0 < n
  {
    if shards == [] then [] else TorchChunk(shards[0], n) + Chunked(shards[1..], n)
  }

  lemma {:induction false} ChunkedIsChunkAll<T>(shards: seq<seq<T>>, n: nat)
    requires 0 < n
    ensures Chunked(shards, n) == ChunkAll(shards, n)
    decreases |shards|
  {
    hide TorchChunk;
    if |shards| == 1 {
      assert Chunked(shards[1..], n) == [] && ChunkAll(shards[..0], n) == [];
    } else if shards != [] {
      var m := |shards| - 1;
      ChunkedIsChunkAll(shards[1..], n);
      ChunkedIsChunkAll(shards[..m], n);
      ChunkedIsChunkAll(shards[1..][..m - 1], n);
      assert shards[..m][1..] == shards[1..][..m - 1];
      assert shards[1..][m - 1] == shards[m];
    }
  }

  // Sizes computed on one shard are the sizes computed on the whole.
  lemma ShardSizes(groups: nat, shards: nat, local: nat, nq: nat, b: nat)
    requires 0 < local && 0 < shards && groups == Product(shards, local)
    ensures shards <= groups && LocalGroups(groups, shards) == local
    ensures var size := Product(nq, b) + b + b; var rows := Product(local, size);
      && 0 <= rows && rows % (nq + 2) == 0 && KvSize(rows, nq) == Product(local, b) && 0 <= Product(local, b)
      && 0 <= Product(nq, b) && QueryRows(Product(local, b), nq, local) == Product(nq, b) &&
            HeadRows(Product(local, b), local) == b
      && Product(shards, rows) == Product(groups, size)
  {
    var size := Product(nq, b) + b + b;
    Nonnegative(local, size);
    SplitSizes(local, b, nq, Product(local, size));
    ExactDivision(local, shards, groups);
    Regroup(shards, local, size);
    ProductGrows(1, local, shards);
    Commute(shards, local);
    OneProduct(shards);
  }

  lemma Regroup(a: int, b: int, c: int)
    ensures Product(a, Product(b, c)) == Product(Product(a, b), c)
  {
  }

  // The shard size, given the block size.
  lemma ShardRows(total: nat, size: nat, groups: nat, tp: nat, local: nat) returns (rows: nat)
    requires 0 < total && total == Product(groups, size) && groups == Product(tp, local) && 0 < tp
    ensures 0 < local && rows == Product(local, size) && 0 < rows && total == Product(tp, rows)
  {
    hide Product;
    Nonnegative(local, size);
    rows := Product(local, size);
    Regroup(tp, local, size);
    Commute(tp, local);
    Commute(tp, rows);
    ZeroProduct(tp);
    ZeroProduct(size);
  }

  // On a known shape, the merger computes the splitter's sizes and visits its chunks.
  lemma MergeOnShape<T>(t: seq<T>, heads: nat, groups: nat, tp: nat, local: nat, b: nat, rows: nat)
    requires t != [] && 0 < groups && heads % groups == 0 && 0 < tp && 0 < local && 0 < b && 0 < rows &&
        groups == Product(tp, local)
    requires var nq := PerGroup(heads, groups);
      0 <= Product(nq, b) && rows == Product(local, Product(nq, b) + b + b) && |t| == Product(tp, rows)
    ensures var nq := PerGroup(heads, groups);
      && |Pieces(t, rows)| == tp
      && Merge(Pieces(t, rows), heads, groups) == Gather(Pieces(t, Product(nq, b) + b + b), Product(nq, b), b)
  {
    hide Product, Gather, CeilDiv, KvSize, LocalGroups, Pieces, QueryRows, HeadRows, PerGroup, TorchChunk;
    var nq := PerGroup(heads, groups);
    ShardSizes(groups, tp, local, nq, b);
    ChunksOfShards(t, Product(nq, b) + b + b, local, tp);
    ChunkedIsChunkAll(Pieces(t, rows), local);
    PiecesAreUniform(t, rows, tp);
  }

  /** Merging the contiguous tensor-parallel shards of a fused weight is splitting the whole
      weight, for every shard count that divides the key-value groups. */
  lemma MergeIsSplitOfWhole<T>(t: seq<T>, heads: nat, groups: nat, tp: nat, local: nat) returns (rows: nat)
    requires t != [] && Splittable(|t|, heads, groups) && 0 < tp && groups == Product(tp, local)
    ensures 0 < rows && |t| == Product(tp, rows)
    ensures |Pieces(t, rows)| == tp && Merge(Pieces(t, rows), heads, groups) == Split(t, heads, groups)
  {
    var b := SplittableShape(|t|, heads, groups);
    var nq := PerGroup(heads, groups);
    hide Product, Gather, CeilDiv, KvSize, Pieces, PerGroup, Split, Merge;
    rows := ShardRows(|t|, Product(nq, b) + b + b, groups, tp, local);
    SplitOnShape(t, heads, groups, b);
    MergeOnShape(t, heads, groups, tp, local, b, rows);
  }

  // ------------------------------------------------------------------ gate and up

  datatype GateUp<T> = Pair(gate: seq<T>, up: seq<T>) | BadUnpack

  // gate, up = tensor.chunk(2)
  function SplitGateUp<T>(t: seq<T>): GateUp<T> {
    var c := TorchChunk(t, 2);
    if |c| == 2 then Pair(c[0], c[1]) else BadUnpack
  }

  function MergeGateUp<T>(shards: seq<seq<T>>): GateUp<T> {
    if shards == [] then Pair([], [])
    else
      var r, last := MergeGateUp(shards[..|shards| - 1]), SplitGateUp(shards[|shards| - 1]);
      if r.BadUnpack? || last.BadUnpack? then BadUnpack else Pair(r.gate + last.gate, r.up + last.up)
  }

  lemma HalvesSplit<T>(gate: seq<T>, up: seq<T>)
    requires |gate| == |up|
    ensures SplitGateUp(gate + up) == Pair(gate, up)
  {
    var t := gate + up;
    if t != [] {
      assert CeilDiv(|t|, 2) == |gate|;
      assert t[..|gate|] == gate && t[|gate|..] == up;
      assert Pieces(t, |gate|) == [gate] + Pieces(up, |gate|);
    } else {
      assert gate == [] && up == [];
    }
  }

  lemma {:induction false} JoinLengths<T>(gates: seq<seq<T>>, ups: seq<seq<T>>)
    requires |gates| == |ups| && forall i :: 0 <= i < |gates| ==> |gates[i]| == |ups[i]|
    ensures |Flatten(gates)| == |Flatten(ups)|
    decreases |gates|
  {
    if gates != [] {
      JoinLengths(gates[1..], ups[1..]);
    }
  }

  /** Shards that each stack their own gate rows on their own up rows merge to the whole gate
      and the whole up, which is also how the whole stack splits. */
  lemma {:induction false} StackedShardsMerge<T>(gates: seq<seq<T>>, ups: seq<seq<T>>)
    requires |gates| == |ups| && forall i :: 0 <= i < |gates| ==> |gates[i]| == |ups[i]|
    ensures MergeGateUp(Stacked(gates, ups)) == Pair(Flatten(gates), Flatten(ups))
    ensures SplitGateUp(Flatten(gates) + Flatten(ups)) == Pair(Flatten(gates), Flatten(ups))
    decreases |gates|
  {
    JoinLengths(gates, ups);
    HalvesSplit(Flatten(gates), Flatten(ups));
    hide SplitGateUp, Flatten;
    if gates != [] {
      var n := |gates| - 1;
      StackedShardsMerge(gates[..n], ups[..n]);
      var shards := Stacked(gates, ups);
      var rest := Stacked(gates[..n], ups[..n]);
      assert shards[..n] == rest;
      HalvesSplit(gates[n], ups[n]);
      LastOf(gates);
      LastOf(ups);
    } else {
      assert Flatten(gates) == [] && Flatten(ups) == [] by {
        NothingJoined(gates);
        NothingJoined(ups);
      }
    }
  }

  // Shard i of a stacked weight: its gate rows, then its up rows.
  function Stacked<T>(gates: seq<seq<T>>, ups: seq<seq<T>>): (r: seq<seq<T>>)
    requires |gates| == |ups|
    ensures |r| == |gates| && forall i :: 0 <= i < |r| ==> r[i] == gates[i] + ups[i]
  {
    seq(|gates|, i requires 0 <= i < |gates| => gates[i] + ups[i])
  }

  lemma NothingJoined<T>(s: seq<seq<T>>)
    requires s == []
    ensures Flatten(s) == []
  {
  }

  lemma LastOf<T>(s: seq<seq<T>>)
    requires s != []
    ensures Flatten(s) == Flatten(s[..|s| - 1]) + s[|s| - 1]
  {
    assert s == s[..|s| - 1] + [s[|s| - 1]];
    FlattenSnoc(s[..|s| - 1], s[|s| - 1]);
  }

  /** Contiguous halves of the whole stack do not merge back: the two quarters of each half
      trade places, so gate comes out as half gate, half up. */
  lemma ContiguousHalvesDoNotMerge<T>(a: seq<T>, b: seq<T>, c: seq<T>, d: seq<T>)
    requires |a| == |b| == |c| == |d|
    ensures MergeGateUp([a + b, c + d]) == Pair(a + c, b + d)
    ensures SplitGateUp((a + b) + (c + d)) == Pair(a + b, c + d)
    ensures MergeGateUp([a + b, c + d]) == SplitGateUp((a + b) + (c + d)) <==> b == c
  {
    HalvesSplit(a, b);
    HalvesSplit(c, d);
    HalvesSplit(a + b, c + d);
    hide SplitGateUp;
    assert [a + b, c + d][..1] == [a + b] && [a + b][..0] == [];
    assert MergeGateUp([a + b]) == Pair(a, b) by {
      assert [] + a == a && [] + b == b;
    }
    if b != c {
      assert (a + c)[|a|..] == c && (a + b)[|a|..] == b;
    }
  }
}
