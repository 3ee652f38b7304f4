/** What a receiver rebuilds from the buckets rank 0 packs: splitting, packing and
    merging put together (base.py, nixl_checkpoint_engine.py, nccl_checkpoint_engine.py). */
module Delivery {
  import opened Flattening
  import opened Arithmetic
  import opened Chunks
  import opened Packing

  function SentBuckets(ws: seq<Tensor>, bucketSize: nat): seq<Bucket>
    requires bucketSize > 0
  {
    Pack(Split(ws, bucketSize), bucketSize)
  }

  // The merge of every chunk of every bucket, in order.
  function Received(ws: seq<Tensor>, bucketSize: nat): MergeState
    requires bucketSize > 0
  {
    Merge(Flatten(SentBuckets(ws, bucketSize)), bucketSize)
  }

  /** The receiver ends with exactly the sender's non-empty tensors, or raises; it
      raises if and only if the packing puts some tensor that fits one bucket at an
      offset its dtype cannot be viewed at. */
  lemma ReceivedExactly(ws: seq<Tensor>, bucketSize: nat)
    requires bucketSize > 0 && AllValid(ws)
    ensures Received(ws, bucketSize).ok <==> AllViewable(Flatten(SentBuckets(ws, bucketSize)), bucketSize)
    ensures Received(ws, bucketSize).ok ==> Received(ws, bucketSize) == MergeState(NonEmpty(ws), None, true)
  {
    SplitFacts(ws, bucketSize);
    PackKeepsStream(Split(ws, bucketSize), bucketSize);
    MergePlacedExactly(ws, Flatten(SentBuckets(ws, bucketSize)), bucketSize);
  }

  lemma {:induction false} MergeGrows(st: MergeState, cs: seq<Chunk>, bucketSize: nat)
    ensures st.out <= MergeFrom(st, cs, bucketSize).out
    decreases |cs|
  {
    if cs != [] {
      MergeGrows(MergeStep(st, cs[0], bucketSize), cs[1..], bucketSize);
    }
  }

  lemma {:induction false} MergeBelowUnplaced(st: MergeState, cs: seq<Chunk>, bucketSize: nat)
    ensures MergeFrom(st, cs, bucketSize).out <= MergeFrom(st, UnplaceAll(cs), bucketSize).out
    decreases |cs|
  {
    if cs != [] {
      var rest := UnplaceAll(cs[1..]);
      assert UnplaceAll(cs)[1..] == rest && UnplaceAll(cs)[0] == Unplace(cs[0]);
      var st', un := MergeStep(st, cs[0], bucketSize), MergeStep(st, Unplace(cs[0]), bucketSize);
      if st' == un {
        MergeBelowUnplaced(st', cs[1..], bucketSize);
      } else {
        MergeStuck(st', cs[1..], bucketSize);
        MergeGrows(un, rest, bucketSize);
      }
    }
  }

  /** At any point of the stream, and even when it later raises, a receiver has
      yielded only tensors of the sender, in order. */
  lemma NeverWrong(ws: seq<Tensor>, bucketSize: nat, seen: seq<Chunk>)
    requires bucketSize > 0 && AllValid(ws) && seen <= Flatten(SentBuckets(ws, bucketSize))
    ensures Merge(seen, bucketSize).out <= NonEmpty(ws)
  {
    var all := Flatten(SentBuckets(ws, bucketSize));
    SplitFacts(ws, bucketSize);
    PackKeepsStream(Split(ws, bucketSize), bucketSize);
    SplitMergeRoundTrip(ws, bucketSize);
    MergeBelowUnplaced(MERGE_START, all, bucketSize);
    assert all == seen + all[|seen|..];
    MergeFromConcat(MERGE_START, seen, all[|seen|..], bucketSize);
    MergeGrows(Merge(seen, bucketSize), all[|seen|..], bucketSize);
  }

  /** Rank 0 never fails its own name assertion when the tensors have distinct names. */
  lemma SenderNeverRaises(ws: seq<Tensor>, bucketSize: nat)
    requires bucketSize > 0 && DistinctNames(ws)
    ensures AllNamesDistinct(SentBuckets(ws, bucketSize))
  {
    SplitFacts(ws, bucketSize);
    PackNamesDistinct(Split(ws, bucketSize), bucketSize);
  }

  // ------------------------------------------------ when every view succeeds

  predicate SizesDivide(cs: seq<Chunk>, s: nat)
    requires s > 0
  {
    forall i :: 0 <= i < |cs| ==> cs[i].meta.chunkSize % s == 0 && cs[i].meta.dtype.itemsize == s
  }

  predicate OffsetsDivide(cs: seq<Chunk>, s: nat)
    requires s > 0
  {
    forall i :: 0 <= i < |cs| ==>
        cs[i].meta.offset.Some? && cs[i].meta.offset.value % s == 0 && cs[i].meta.dtype.itemsize == s
  }

  lemma {:induction false} ChunksDivide(t: Tensor, at: nat, bucketSize: nat, s: nat)
    requires s > 0 && bucketSize > 0 && bucketSize % s == 0
    requires at <= |t.bytes| && at % s == 0 && |t.bytes| % s == 0 && t.dtype.itemsize == s
    ensures SizesDivide(ChunksFrom(t, at, bucketSize), s)
    decreases |t.bytes| - at
  {
    if at < |t.bytes| {
      var size := ChunkAt(t, at, bucketSize).meta.chunkSize;
      ModSum(|t.bytes|, at, s);
      ModSum(at, size, s);
      ChunksDivide(t, at + size, bucketSize, s);
    }
  }

  lemma {:induction false} SplitDivides(ws: seq<Tensor>, bucketSize: nat, s: nat)
    requires s > 0 && bucketSize > 0 && bucketSize % s == 0 && AllValid(ws)
    requires forall i :: 0 <= i < |ws| ==> ws[i].dtype.itemsize == s
    ensures SizesDivide(Split(ws, bucketSize), s)
    decreases |ws|
  {
    if ws != [] {
      ModIs(s, Numel(ws[0].shape), 0);
      ChunksDivide(ws[0], 0, bucketSize, s);
      SplitDivides(ws[1..], bucketSize, s);
    }
  }

  lemma {:induction false} PackFromDivides(open: Bucket, cs: seq<Chunk>, bucketSize: nat, s: nat)
    requires s > 0 && SizesDivide(cs, s) && OffsetsDivide(open, s) && Used(open) % s == 0
    ensures OffsetsDivide(Flatten(PackFrom(open, cs, bucketSize)), s)
    decreases |cs|
  {
    if cs == [] {
      assert Flatten([open]) == open + Flatten([]) == open;
    } else {
      var c := cs[0];
      if Used(open) + c.meta.chunkSize > bucketSize {
        var rest := PackFrom([Place(c, 0)], cs[1..], bucketSize);
        assert Used([Place(c, 0)]) == c.meta.chunkSize by {
          UsedSnoc([], Place(c, 0));
          assert [] + [Place(c, 0)] == [Place(c, 0)];
        }
        PackFromDivides([Place(c, 0)], cs[1..], bucketSize, s);
        assert Flatten([open] + rest) == open + Flatten(rest);
      } else {
        UsedSnoc(open, Place(c, Used(open)));
        ModSum(Used(open), c.meta.chunkSize, s);
        PackFromDivides(open + [Place(c, Used(open))], cs[1..], bucketSize, s);
      }
    }
  }

  lemma UniformItemsViewable(ws: seq<Tensor>, bucketSize: nat, s: nat)
    requires s > 0 && bucketSize > 0 && bucketSize % s == 0 && AllValid(ws)
    requires forall i :: 0 <= i < |ws| ==> ws[i].dtype.itemsize == s
    ensures AllViewable(Flatten(SentBuckets(ws, bucketSize)), bucketSize)
  {
    SplitDivides(ws, bucketSize, s);
    hide Split, PackFrom, Flatten, Nbytes, SizesDivide;
    PackFromDivides([], Split(ws, bucketSize), bucketSize, s);
  }

  /** Tensors of one item size that divides the bucket size always arrive. */
  lemma UniformItemsArrive(ws: seq<Tensor>, bucketSize: nat, s: nat)
    requires s > 0 && bucketSize > 0 && bucketSize % s == 0 && AllValid(ws)
    requires forall i :: 0 <= i < |ws| ==> ws[i].dtype.itemsize == s
    ensures Received(ws, bucketSize) == MergeState(NonEmpty(ws), None, true)
  {
    hide AllViewable, Received, SentBuckets;
    UniformItemsViewable(ws, bucketSize, s);
    ReceivedExactly(ws, bucketSize);
  }

  const BF16 := Dtype("bfloat16", 2)
  const FP32 := Dtype("float32", 4)

  const SMALL := Tensor("a", [1], BF16, [1, 2])
  const WIDE := Tensor("b", [1], FP32, [3, 4, 5, 6])

  lemma SplitTwo(a: Tensor, b: Tensor, bucketSize: nat)
    requires 0 < |a.bytes| <= bucketSize && 0 < |b.bytes| <= bucketSize
    ensures Split([a, b], bucketSize) == [ChunkAt(a, 0, bucketSize), ChunkAt(b, 0, bucketSize)]
  {
    assert [a, b][1..] == [b] && [b][1..] == [];
    assert Split([b], bucketSize) == ChunksFrom(b, 0, bucketSize) + Split([], bucketSize);
    assert Split([a, b], bucketSize) == ChunksFrom(a, 0, bucketSize) + Split([b], bucketSize);
    assert ChunksFrom(a, 0, bucketSize) == [ChunkAt(a, 0, bucketSize)];
    assert ChunksFrom(b, 0, bucketSize) == [ChunkAt(b, 0, bucketSize)];
  }

  lemma PackTwo(a: Chunk, b: Chunk, bucketSize: nat)
    requires a.meta.chunkSize + b.meta.chunkSize <= bucketSize
    ensures Pack([a, b], bucketSize) == [[Place(a, 0), Place(b, a.meta.chunkSize)]]
  {
    assert [a, b][1..] == [b] && [b][1..] == [];
    UsedSnoc([], Place(a, 0));
    assert [] + [Place(a, 0)] == [Place(a, 0)];
    var both := [Place(a, 0), Place(b, a.meta.chunkSize)];
    assert [Place(a, 0)] + [Place(b, a.meta.chunkSize)] == both;
    assert PackFrom([], [a, b], bucketSize) == PackFrom([Place(a, 0)], [b], bucketSize);
    assert PackFrom([Place(a, 0)], [b], bucketSize) == PackFrom(both, [], bucketSize);
  }

  /** Mixed item sizes can make the receiver raise: a one-element bfloat16 tensor
      puts the float32 tensor behind it at offset 2. */
  lemma MixedItemsRaise()
    ensures AllValid([SMALL, WIDE]) && DistinctNames([SMALL, WIDE]) && !Received([SMALL, WIDE], 8).ok
  {
    assert Numel([1]) == 1 * Numel([]);
    var a, b := ChunkAt(SMALL, 0, 8), ChunkAt(WIDE, 0, 8);
    SplitTwo(SMALL, WIDE, 8);
    PackTwo(a, b, 8);
    var placed := [Place(a, 0), Place(b, 2)];
    assert Flatten([placed]) == placed + Flatten([]) == placed;
    assert !Viewable(placed[1].meta);
    ReceivedExactly([SMALL, WIDE], 8);
  }
}
