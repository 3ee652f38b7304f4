/** Cutting named tensors into byte chunks of at most one bucket, and gluing a
    stream of chunks back into tensors (verl/checkpoint_engine/base.py).

    `Split` and `Merge` specify the two generators; `SplitWeightChunks` and
    `MergeWeightChunks` are the loops, the latter writing into a merge buffer in
    place.  The main result is `MergePlacedExactly`: whatever bucket offsets the
    transport gives the chunks, the receiver rebuilds the sender's tensors
    exactly, unless it raises on a small tensor whose offset its dtype cannot be
    viewed at, and then it always raises. */
module Chunks {
  import opened Arithmetic

  datatype Option<+T> = None | Some(value: T)

  type Byte = b: int | 0 <= b < 256

  datatype Dtype = Dtype(name: string, itemsize: nat)

  datatype Tensor = Tensor(name: string, shape: seq<nat>, dtype: Dtype, bytes: seq<Byte>) {
    predicate Valid() {
      |bytes| == Nbytes(shape, dtype)
    }
  }

  // `offset` is the position of the chunk in its bucket; the splitter leaves it unset.
  datatype TensorMeta = TensorMeta(
    name: string, shape: seq<nat>, dtype: Dtype,
    chunkOffset: nat, chunkSize: nat, offset: Option<nat>)

  datatype Chunk = Chunk(meta: TensorMeta, bytes: seq<Byte>) {
    predicate Valid() {
      |bytes| == meta.chunkSize
    }
  }

  function Numel(shape: seq<nat>): nat {
    if shape == [] then 1
    else
      Nonnegative(shape[0], Numel(shape[1..]));
      Product(shape[0], Numel(shape[1..]))
  }

  function Nbytes(shape: seq<nat>, dtype: Dtype): nat {
    Nonnegative(Numel(shape), dtype.itemsize);
    Product(Numel(shape), dtype.itemsize)
  }

  predicate AllValid(ws: seq<Tensor>) {
    forall i :: 0 <= i < |ws| ==> ws[i].Valid()
  }

  predicate DistinctNames(ws: seq<Tensor>) {
    forall i, j :: 0 <= i < j < |ws| ==> ws[i].name != ws[j].name
  }

  // The tensors that own at least one byte.
  function NonEmpty(ws: seq<Tensor>): seq<Tensor> {
    if ws == [] then [] else (if ws[0].bytes == [] then [] else [ws[0]]) + NonEmpty(ws[1..])
  }

  function Min(a: nat, b: nat): nat {
    if a <= b then a else b
  }

  // ---------------------------------------------------------------- splitting

  function ChunkAt(t: Tensor, at: nat, bucketSize: nat): Chunk
    requires at <= |t.bytes|
  {
    var size := Min(bucketSize, |t.bytes| - at);
    Chunk(TensorMeta(t.name, t.shape, t.dtype, at, size, None), t.bytes[at..at + size])
  }

  function ChunksFrom(t: Tensor, at: nat, bucketSize: nat): seq<Chunk>
    requires bucketSize > 0 && at <= |t.bytes|
    decreases |t.bytes| - at
  {
    if at == |t.bytes| then [] else
    var c := ChunkAt(t, at, bucketSize);
    [c] + ChunksFrom(t, at + c.meta.chunkSize, bucketSize)
  }

  function Split(ws: seq<Tensor>, bucketSize: nat): seq<Chunk>
    requires bucketSize > 0
  {
    if ws == [] then [] else ChunksFrom(ws[0], 0, bucketSize) + Split(ws[1..], bucketSize)
  }

  method SplitWeightChunks(ws: seq<Tensor>, bucketSize: nat) returns (out: seq<Chunk>)
    requires bucketSize > 0
    ensures out == Split(ws, bucketSize)
  {
    out := [];
    for i := 0 to |ws|
      invariant out + Split(ws[i..], bucketSize) == Split(ws, bucketSize)
    {
      var chunks := SplitTensor(ws[i], bucketSize);
      assert ws[i..][0] == ws[i] && ws[i..][1..] == ws[i + 1..];
      out := out + chunks;
    }
  }

  method SplitTensor(t: Tensor, bucketSize: nat) returns (out: seq<Chunk>)
    requires bucketSize > 0
    ensures out == ChunksFrom(t, 0, bucketSize)
  {
    hide ChunksFrom;
    out := [];
    var chunkOffset := 0;
    while chunkOffset < |t.bytes|
      invariant chunkOffset <= |t.bytes|
      invariant out + ChunksFrom(t, chunkOffset, bucketSize) == ChunksFrom(t, 0, bucketSize)
    {
      var chunkSize := Min(bucketSize, |t.bytes| - chunkOffset);
      var meta := TensorMeta(t.name, t.shape, t.dtype, chunkOffset, chunkSize, None);
      var chunk := Chunk(meta, t.bytes[chunkOffset..chunkOffset + chunkSize]);
      NextChunk(t, chunkOffset, bucketSize);
      assert (out + [chunk]) + ChunksFrom(t, chunkOffset + chunkSize, bucketSize)
          == out + ([chunk] + ChunksFrom(t, chunkOffset + chunkSize, bucketSize));
      out := out + [chunk];
      chunkOffset := chunkOffset + chunkSize;
    }
    NoMoreChunks(t, bucketSize);
    assert out + [] == out;
  }

  lemma NextChunk(t: Tensor, at: nat, bucketSize: nat)
    requires bucketSize > 0 && at < |t.bytes|
    ensures var c := ChunkAt(t, at, bucketSize);
      && at + c.meta.chunkSize <= |t.bytes|
      && ChunksFrom(t, at, bucketSize) == [c] + ChunksFrom(t, at + c.meta.chunkSize, bucketSize)
  {
  }

  lemma NoMoreChunks(t: Tensor, bucketSize: nat)
    requires bucketSize > 0
    ensures ChunksFrom(t, |t.bytes|, bucketSize) == []
  {
  }

  // Chunk k of a tensor is the k-th window of bucketSize bytes; only the last is short.
  lemma {:induction false} ChunksTile(t: Tensor, at: nat, bucketSize: nat, k: nat)
    requires bucketSize > 0 && at <= |t.bytes|
    requires k < |ChunksFrom(t, at, bucketSize)|
    ensures at + k * bucketSize < |t.bytes|
    ensures ChunksFrom(t, at, bucketSize)[k] == ChunkAt(t, at + k * bucketSize, bucketSize)
    ensures k == |ChunksFrom(t, at, bucketSize)| - 1 <==> at + (k + 1) * bucketSize >= |t.bytes|
    decreases k
  {
    var size := ChunkAt(t, at, bucketSize).meta.chunkSize;
    if k > 0 {
      ChunksTile(t, at + size, bucketSize, k - 1);
      assert size == bucketSize;
      assert at + k * bucketSize == at + bucketSize + (k - 1) * bucketSize;
      assert at + (k + 1) * bucketSize == at + bucketSize + (k - 1 + 1) * bucketSize;
    }
  }

  // ------------------------------------------------------------------ merging

  datatype Partial = Partial(name: string, shape: seq<nat>, dtype: Dtype, filled: seq<Byte>)

  // `out` is what has been yielded; `ok` turns false when an assertion or a view raises.
  datatype MergeState = MergeState(out: seq<Tensor>, partial: Option<Partial>, ok: bool)

  const MERGE_START := MergeState([], None, true)

  // torch refuses to view bytes as a wider dtype at a storage offset that is not a multiple of its size.
  predicate Viewable(m: TensorMeta) {
    m.offset.None? || m.dtype.itemsize == 0 || m.offset.value % m.dtype.itemsize == 0
  }

  function MergeStep(st: MergeState, c: Chunk, bucketSize: nat): MergeState {
    var nbytes := Nbytes(c.meta.shape, c.meta.dtype);
    if !st.ok then st
    else if nbytes <= bucketSize then
      if st.partial.Some? || |c.bytes| != nbytes || !Viewable(c.meta) then st.(ok := false)
      else st.(out := st.out + [Tensor(c.meta.name, c.meta.shape, c.meta.dtype, c.bytes)])
    else if st.partial.None? && c.meta.chunkOffset != 0 then st.(ok := false)
    else
      var p := if st.partial.Some? then st.partial.value else Partial(c.meta.name, c.meta.shape, c.meta.dtype, []);
      if c.meta.name != p.name || |p.filled| != c.meta.chunkOffset
         || c.meta.chunkOffset + c.meta.chunkSize > Nbytes(p.shape, p.dtype) then
        st.(ok := false)
      else
        var filled := p.filled + c.bytes;
        if c.meta.chunkOffset + c.meta.chunkSize == nbytes then
          st.(out := st.out + [Tensor(p.name, p.shape, p.dtype, filled)], partial := None)
        else
          st.(partial := Some(p.(filled := filled)))
  }

  function MergeFrom(st: MergeState, cs: seq<Chunk>, bucketSize: nat): MergeState
    decreases |cs|
  {
    if cs == [] then st else MergeFrom(MergeStep(st, cs[0], bucketSize), cs[1..], bucketSize)
  }

  function Merge(cs: seq<Chunk>, bucketSize: nat): MergeState {
    MergeFrom(MERGE_START, cs, bucketSize)
  }

  // Chunks of one name agree on shape and dtype, and carry as many bytes as their size says.
  predicate Consistent(cs: seq<Chunk>) {
    && (forall i :: 0 <= i < |cs| ==> cs[i].Valid())
    && (forall i, j :: 0 <= i < |cs| && 0 <= j < |cs| && cs[i].meta.name == cs[j].meta.name ==>
          cs[i].meta.shape == cs[j].meta.shape && cs[i].meta.dtype == cs[j].meta.dtype)
  }

  lemma {:induction false} MergeFromSnoc(st: MergeState, cs: seq<Chunk>, c: Chunk, bucketSize: nat)
    ensures MergeFrom(st, cs + [c], bucketSize) == MergeStep(MergeFrom(st, cs, bucketSize), c, bucketSize)
    decreases |cs|
  {
    if cs == [] {
      assert [c][1..] == [];
    } else {
      MergeFromSnoc(MergeStep(st, cs[0], bucketSize), cs[1..], c, bucketSize);
      assert (cs + [c])[1..] == cs[1..] + [c];
    }
  }

  lemma {:induction false} MergeFromConcat(st: MergeState, a: seq<Chunk>, b: seq<Chunk>, bucketSize: nat)
    ensures MergeFrom(st, a + b, bucketSize) == MergeFrom(MergeFrom(st, a, bucketSize), b, bucketSize)
    decreases |a|
  {
    if a == [] {
      assert a + b == b;
    } else {
      MergeFromConcat(MergeStep(st, a[0], bucketSize), a[1..], b, bucketSize);
      assert (a + b)[1..] == a[1..] + b;
    }
  }

  lemma {:induction false} MergeStuck(st: MergeState, cs: seq<Chunk>, bucketSize: nat)
    requires !st.ok
    ensures MergeFrom(st, cs, bucketSize) == st
    decreases |cs|
  {
    if cs != [] {
      MergeStuck(st, cs[1..], bucketSize);
    }
  }

  lemma MergePrefix(cs: seq<Chunk>, i: nat, bucketSize: nat)
    requires i < |cs|
    ensures Merge(cs[..i + 1], bucketSize) == MergeStep(Merge(cs[..i], bucketSize), cs[i], bucketSize)
    ensures !Merge(cs[..i + 1], bucketSize).ok ==> Merge(cs, bucketSize) == Merge(cs[..i + 1], bucketSize)
  {
    assert cs[..i + 1] == cs[..i] + [cs[i]];
    MergeFromSnoc(MERGE_START, cs[..i], cs[i], bucketSize);
    assert cs == cs[..i + 1] + cs[i + 1..];
    MergeFromConcat(MERGE_START, cs[..i + 1], cs[i + 1..], bucketSize);
    if !Merge(cs[..i + 1], bucketSize).ok {
      MergeStuck(Merge(cs[..i + 1], bucketSize), cs[i + 1..], bucketSize);
    }
  }

  lemma MergeNothing(cs: seq<Chunk>, bucketSize: nat)
    ensures Merge(cs[..0], bucketSize) == MERGE_START
  {
  }

  /** The receiver's loop: one merge buffer, allocated at a tensor's first chunk
      and overwritten in place; stops at the first failed assertion. */
  method MergeWeightChunks(cs: seq<Chunk>, bucketSize: nat) returns (out: seq<Tensor>, ok: bool)
    requires Consistent(cs)
    ensures out == Merge(cs, bucketSize).out && ok == Merge(cs, bucketSize).ok
  {
    hide Merge;
    out, ok := [], true;
    var open := false;
    var name, shape, dtype := "", [], Dtype("", 0);
    var buffer := new Byte[0];
    var mergeOffset: nat := 0;
    ghost var st, first := MERGE_START, 0;
    MergeNothing(cs, bucketSize);
    for i := 0 to |cs|
      invariant st == Merge(cs[..i], bucketSize)
      invariant ok && st.ok && st.out == out && open == st.partial.Some?
      invariant fresh(buffer) && mergeOffset <= buffer.Length
      invariant open ==> buffer.Length == Nbytes(shape, dtype)
      invariant open ==> st.partial.value == Partial(name, shape, dtype, buffer[..mergeOffset])
      invariant open ==>
          && 0 <= first < i
          && cs[first].meta.name == name
          && cs[first].meta.shape == shape
          && cs[first].meta.dtype == dtype
    {
      var c := cs[i];
      var nbytes := Nbytes(c.meta.shape, c.meta.dtype);
      MergePrefix(cs, i, bucketSize);
      st := MergeStep(st, c, bucketSize);
      if nbytes <= bucketSize {
        if open || |c.bytes| != nbytes || !Viewable(c.meta) {
          return out, false;
        }
        out := out + [Tensor(c.meta.name, c.meta.shape, c.meta.dtype, c.bytes)];
      } else {
        if !open {
          if c.meta.chunkOffset != 0 {
            return out, false;
          }
          open, name, shape, dtype := true, c.meta.name, c.meta.shape, c.meta.dtype;
          buffer := new Byte[nbytes];
          mergeOffset := 0;
          first := i;
          assert buffer[..mergeOffset] == [];
        }
        if c.meta.name != name || mergeOffset != c.meta.chunkOffset
           || c.meta.chunkOffset + c.meta.chunkSize > buffer.Length {
          return out, false;
        }
        WriteAt(buffer, c.meta.chunkOffset, c.bytes);
        mergeOffset := mergeOffset + c.meta.chunkSize;
        if c.meta.chunkOffset + c.meta.chunkSize == nbytes {
          assert buffer[..mergeOffset] == buffer[..];
          out := out + [Tensor(name, shape, dtype, buffer[..])];
          open := false;
        }
      }
    }
    assert cs[..|cs|] == cs;
  }

  // buffer[at : at + |bytes|] = bytes
  method WriteAt(buffer: array<Byte>, at: nat, bytes: seq<Byte>)
    requires at + |bytes| <= buffer.Length
    modifies buffer
    ensures buffer[..at + |bytes|] == old(buffer[..at]) + bytes
    ensures buffer[at + |bytes|..] == old(buffer[at + |bytes|..])
  {
    forall j | 0 <= j < |bytes| {
      buffer[at + j] := bytes[j];
    }
  }

  // --------------------------------------------------------------- round trip

  lemma {:induction false} MergeRest(out: seq<Tensor>, t: Tensor, at: nat, bucketSize: nat)
    requires t.Valid() && 0 < bucketSize < |t.bytes| && at < |t.bytes|
    ensures
      var st := MergeState(out, if at == 0 then None else Some(Partial(t.name, t.shape, t.dtype, t.bytes[..at])), true);
      MergeFrom(st, ChunksFrom(t, at, bucketSize), bucketSize) == MergeState(out + [t], None, true)
    decreases |t.bytes| - at
  {
    var st := MergeState(out, if at == 0 then None else Some(Partial(t.name, t.shape, t.dtype, t.bytes[..at])), true);
    var c := ChunkAt(t, at, bucketSize);
    var next := at + c.meta.chunkSize;
    var cs := ChunksFrom(t, at, bucketSize);
    assert cs[1..] == ChunksFrom(t, next, bucketSize);
    assert t.bytes[..at] + c.bytes == t.bytes[..next];
    if next == |t.bytes| {
      assert t.bytes[..next] == t.bytes;
      assert MergeStep(st, c, bucketSize) == MergeState(out + [t], None, true);
    } else {
      assert MergeStep(st, c, bucketSize) == MergeState(out, Some(Partial(t.name, t.shape, t.dtype, t.bytes[..next])),
          true);
      MergeRest(out, t, next, bucketSize);
    }
  }

  lemma {:induction false} MergeTensor(out: seq<Tensor>, t: Tensor, bucketSize: nat)
    requires t.Valid() && bucketSize > 0
    ensures MergeFrom(MergeState(out, None, true), ChunksFrom(t, 0, bucketSize), bucketSize)
         == MergeState(if t.bytes == [] then out else out + [t], None, true)
  {
    if |t.bytes| > bucketSize {
      MergeRest(out, t, 0, bucketSize);
    } else if t.bytes != [] {
      var c := ChunkAt(t, 0, bucketSize);
      assert c.bytes == t.bytes;
      assert ChunksFrom(t, 0, bucketSize) == [c];
      assert MergeFrom(MergeStep(MergeState(out, None, true), c, bucketSize), [], bucketSize)
          == MergeState(out + [t], None, true);
    }
  }

  lemma {:induction false} MergeSplit(out: seq<Tensor>, ws: seq<Tensor>, bucketSize: nat)
    requires bucketSize > 0 && AllValid(ws)
    ensures MergeFrom(MergeState(out, None, true), Split(ws, bucketSize), bucketSize)
         == MergeState(out + NonEmpty(ws), None, true)
    decreases |ws|
  {
    if ws == [] {
      assert out + NonEmpty(ws) == out;
    } else {
      NonEmptyStep(out, ws);
      hide MergeFrom, MergeStep, ChunksFrom, NonEmpty, Nbytes;
      var t := ws[0];
      var out' := if t.bytes == [] then out else out + [t];
      MergeFromConcat(MergeState(out, None, true), ChunksFrom(t, 0, bucketSize), Split(ws[1..], bucketSize),
          bucketSize);
      MergeTensor(out, t, bucketSize);
      MergeSplit(out', ws[1..], bucketSize);
    }
  }

  lemma NonEmptyStep(out: seq<Tensor>, ws: seq<Tensor>)
    requires ws != []
    ensures (if ws[0].bytes == [] then out else out + [ws[0]]) + NonEmpty(ws[1..]) == out + NonEmpty(ws)
  {
    if ws[0].bytes != [] {
      assert NonEmpty(ws) == [ws[0]] + NonEmpty(ws[1..]);
    } else {
      assert NonEmpty(ws) == NonEmpty(ws[1..]);
    }
  }

  lemma {:induction false} NonEmptyIsAll(ws: seq<Tensor>)
    ensures |NonEmpty(ws)| <= |ws|
    ensures NonEmpty(ws) == ws <==> forall i :: 0 <= i < |ws| ==> ws[i].bytes != []
  {
    if ws != [] {
      NonEmptyIsAll(ws[1..]);
      if ws[0].bytes != [] {
        assert NonEmpty(ws)[1..] == NonEmpty(ws[1..]);
        assert ws == [ws[0]] + ws[1..];
        forall i | 0 <= i < |ws| && NonEmpty(ws[1..]) == ws[1..] ensures ws[i].bytes != [] {
          if i > 0 {
            assert ws[i] == ws[1..][i - 1];
          }
        }
      }
    }
  }

  /** Merging what was split gives back the tensors, in order and without a failed
      assertion, minus those of zero bytes: the splitter emits nothing for them.
      So the round trip is the identity exactly when no tensor is empty. */
  lemma SplitMergeRoundTrip(ws: seq<Tensor>, bucketSize: nat)
    requires bucketSize > 0 && AllValid(ws)
    ensures Merge(Split(ws, bucketSize), bucketSize) == MergeState(NonEmpty(ws), None, true)
    ensures Merge(Split(ws, bucketSize), bucketSize).out == ws <==> forall i :: 0 <= i < |ws| ==> ws[i].bytes != []
  {
    MergeSplit([], ws, bucketSize);
    assert [] + NonEmpty(ws) == NonEmpty(ws);
    NonEmptyIsAll(ws);
  }

  // ------------------------------------------------- chunks placed in buckets

  function Unplace(c: Chunk): Chunk {
    c.(meta := c.meta.(offset := None))
  }

  function UnplaceAll(cs: seq<Chunk>): (r: seq<Chunk>)
    ensures |r| == |cs| && forall i :: 0 <= i < |cs| ==> r[i] == Unplace(cs[i])
  {
    seq(|cs|, i requires 0 <= i < |cs| => Unplace(cs[i]))
  }

  // The receiver can view every tensor that travels whole where its bucket put it.
  predicate AllViewable(cs: seq<Chunk>, bucketSize: nat) {
    forall i :: 0 <= i < |cs| && Nbytes(cs[i].meta.shape, cs[i].meta.dtype) <= bucketSize ==> Viewable(cs[i].meta)
  }

  lemma {:induction false} MergeUnplaced(st: MergeState, cs: seq<Chunk>, bucketSize: nat)
    requires AllViewable(cs, bucketSize)
    ensures MergeFrom(st, cs, bucketSize) == MergeFrom(st, UnplaceAll(cs), bucketSize)
    decreases |cs|
  {
    if cs != [] {
      assert UnplaceAll(cs)[1..] == UnplaceAll(cs[1..]);
      assert MergeStep(st, cs[0], bucketSize) == MergeStep(st, Unplace(cs[0]), bucketSize);
      MergeUnplaced(MergeStep(st, cs[0], bucketSize), cs[1..], bucketSize);
    }
  }

  lemma {:induction false} MergeMisplaced(st: MergeState, cs: seq<Chunk>, bucketSize: nat)
    requires !AllViewable(cs, bucketSize)
    ensures !MergeFrom(st, cs, bucketSize).ok
    decreases |cs|
  {
    var st' := MergeStep(st, cs[0], bucketSize);
    if !st'.ok {
      MergeStuck(st', cs[1..], bucketSize);
    } else {
      assert !AllViewable(cs[1..], bucketSize) by {
        var i :| 0 <= i < |cs| && Nbytes(cs[i].meta.shape, cs[i].meta.dtype) <= bucketSize && !Viewable(cs[i].meta);
        assert i > 0 && cs[1..][i - 1] == cs[i];
      }
      MergeMisplaced(st', cs[1..], bucketSize);
    }
  }

  /** Whatever offsets a transport gives the sender's chunks, the receiver either
      rebuilds exactly the sender's non-empty tensors or raises, and it raises if
      and only if some tensor that fits one bucket sits at an offset that is not a
      multiple of its item size. */
  lemma MergePlacedExactly(ws: seq<Tensor>, cs: seq<Chunk>, bucketSize: nat)
    requires bucketSize > 0 && AllValid(ws)
    requires UnplaceAll(cs) == Split(ws, bucketSize)
    ensures Merge(cs, bucketSize).ok <==> AllViewable(cs, bucketSize)
    ensures AllViewable(cs, bucketSize) ==> Merge(cs, bucketSize) == MergeState(NonEmpty(ws), None, true)
  {
    if AllViewable(cs, bucketSize) {
      MergeUnplaced(MERGE_START, cs, bucketSize);
      SplitMergeRoundTrip(ws, bucketSize);
    } else {
      MergeMisplaced(MERGE_START, cs, bucketSize);
    }
  }

  // ------------------------------------------------- facts about split streams

  // Chunks of the same tensor other than its last fill a whole bucket.
  predicate RepeatsAreFull(cs: seq<Chunk>, bucketSize: nat) {
    forall i, j :: 0 <= i < j < |cs| && cs[i].meta.name == cs[j].meta.name ==> cs[i].meta.chunkSize == bucketSize
  }

  predicate Of(m: TensorMeta, t: Tensor) {
    m.name == t.name && m.shape == t.shape && m.dtype == t.dtype
  }

  // What the packer needs of its input: well-formed chunks that fit a bucket.
  predicate Packable(cs: seq<Chunk>, bucketSize: nat) {
    forall i :: 0 <= i < |cs| ==> cs[i].Valid() && 0 < cs[i].meta.chunkSize <= bucketSize && cs[i].meta.offset.None?
  }

  lemma {:induction false} ChunksFromFacts(t: Tensor, at: nat, bucketSize: nat)
    requires bucketSize > 0 && at <= |t.bytes|
    ensures Packable(ChunksFrom(t, at, bucketSize), bucketSize)
    ensures RepeatsAreFull(ChunksFrom(t, at, bucketSize), bucketSize)
    ensures forall i :: 0 <= i < |ChunksFrom(t, at, bucketSize)| ==>
              Of(ChunksFrom(t, at, bucketSize)[i].meta, t)
    decreases |t.bytes| - at
  {
    if at < |t.bytes| {
      var c := ChunkAt(t, at, bucketSize);
      var next := at + c.meta.chunkSize;
      var rest := ChunksFrom(t, next, bucketSize);
      ChunksFromFacts(t, next, bucketSize);
      assert ChunksFrom(t, at, bucketSize) == [c] + rest;
      assert rest != [] ==> c.meta.chunkSize == bucketSize;
    }
  }

  lemma {:induction false} SplitFacts(ws: seq<Tensor>, bucketSize: nat)
    requires bucketSize > 0
    ensures Packable(Split(ws, bucketSize), bucketSize)
    ensures forall i :: 0 <= i < |Split(ws, bucketSize)| ==>
              exists k :: 0 <= k < |ws| && Of(Split(ws, bucketSize)[i].meta, ws[k])
    ensures DistinctNames(ws) ==> RepeatsAreFull(Split(ws, bucketSize), bucketSize)
    decreases |ws|
  {
    if ws != [] {
      var a, b := ChunksFrom(ws[0], 0, bucketSize), Split(ws[1..], bucketSize);
      var all: seq<Chunk> := a + b;
      ChunksFromFacts(ws[0], 0, bucketSize);
      SplitFacts(ws[1..], bucketSize);
      forall i | 0 <= i < |all|
        ensures exists k :: 0 <= k < |ws| && Of(all[i].meta, ws[k])
      {
        if i < |a| {
          assert Of(all[i].meta, ws[0]);
        } else {
          var k :| 0 <= k < |ws[1..]| && Of(b[i - |a|].meta, ws[1..][k]);
          assert ws[k + 1] == ws[1..][k];
        }
      }
      if DistinctNames(ws) {
        assert DistinctNames(ws[1..]);
        forall k | 0 <= k < |b| ensures b[k].meta.name != ws[0].name {
          var n :| 0 <= n < |ws[1..]| && Of(b[k].meta, ws[1..][n]);
          assert ws[n + 1] == ws[1..][n];
        }
        forall i, j | 0 <= i < j < |all| && all[i].meta.name == all[j].meta.name
          ensures all[i].meta.chunkSize == bucketSize
        {
          assert j < |a| || i >= |a|;
        }
      }
    }
  }
}
