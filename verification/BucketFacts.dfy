/** Writing a bucket into a buffer chunk by chunk, viewing its chunks there, and
    what both streaming engines share. */
module BucketFacts {
  import opened Flattening
  import opened Chunks
  import opened Packing

  // content[at : at + |bytes|] = bytes
  function Write(content: seq<Byte>, at: nat, bytes: seq<Byte>): seq<Byte> {
    if at + |bytes| <= |content| then content[..at] + bytes + content[at + |bytes|..] else content
  }

  function Slice(content: seq<Byte>, m: TensorMeta): Chunk {
    if m.offset.Some? && m.offset.value + m.chunkSize <= |content| then View(content, m) else Chunk(m, [])
  }

  lemma {:induction false} WellLaidPrefix(b: Bucket, bucketSize: nat, j: nat)
    requires WellLaid(b, bucketSize) && j <= |b|
    ensures WellLaid(b[..j], bucketSize)
    decreases |b|
  {
    if j < |b| {
      WellLaidPrefix(b[..|b| - 1], bucketSize, j);
      assert b[..|b| - 1][..j] == b[..j];
    } else {
      assert b[..j] == b;
    }
  }

  lemma WriteHolds(content: seq<Byte>, b: Bucket, j: nat)
    requires WellLaid(b, |content|) && j < |b| && Holds(content, b[..j])
    ensures b[j].meta.offset.Some?
    ensures |Write(content, b[j].meta.offset.value, b[j].bytes)| == |content|
    ensures Holds(Write(content, b[j].meta.offset.value, b[j].bytes), b[..j + 1])
  {
    WellLaidAt(b, |content|, j);
    WellLaidPrefix(b, |content|, j);
    var c, open := b[j], b[..j];
    var after := Write(content, c.meta.offset.value, c.bytes);
    hide WellLaid, Used, Holds;
    assert after[..Used(open)] == content[..Used(open)];
    assert after[Used(open)..Used(open) + c.meta.chunkSize] == c.bytes;
    HoldsSnoc(content, after, open, c);
    assert Place(c, Used(open)) == c;
    assert open + [c] == b[..j + 1];
  }

  lemma FirstBucket(bs: seq<Bucket>)
    requires bs != []
    ensures Flatten(bs[..0]) + bs[0][..0] == []
  {
  }

  lemma HoldsNone(content: seq<Byte>, b: Bucket)
    ensures Holds(content, b[..0])
  {
  }

  // The view of chunk j that a buffer holding the bucket gives is chunk j.
  lemma SliceIsChunk(content: seq<Byte>, b: Bucket, j: nat)
    requires Holds(content, b) && j < |b|
    ensures Slice(content, Metas(b)[j]) == b[j]
  {
    assert HoldsChunk(content, b[j]);
  }

}
