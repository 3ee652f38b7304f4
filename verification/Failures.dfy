/** Where the streaming engines raise: rank 0 on a name its bucket already lists, a receiver at
    the first chunk its merge rejects.  A rank that raised takes no further program step. */
module Failures {
  import opened Flattening
  import opened Chunks
  import opened Packing
  import opened Delivery

  // assert tensor_meta.name not in bucket_meta, for chunk j of a bucket.
  predicate Repeats(b: Bucket, j: nat)
    requires j < |b|
  {
    exists i :: 0 <= i < j && b[i].meta.name == b[j].meta.name
  }

  predicate SenderRaises(buckets: seq<Bucket>, k: nat, j: nat) {
    k < |buckets| && j < |buckets[k]| && Repeats(buckets[k], j)
  }

  predicate ReceiverRaises(out: seq<Chunk>, bucketSize: nat) {
    !Merge(out, bucketSize).ok
  }

  // No name is repeated in the buckets before k, nor in the first j chunks of bucket k.
  ghost predicate FilledApart(buckets: seq<Bucket>, k: nat, j: nat) {
    && k < |buckets| && j <= |buckets[k]|
    && (forall i :: 0 <= i < k ==> NamesDistinct(buckets[i]))
    && NamesDistinct(buckets[k][..j])
  }

  lemma FillApart(buckets: seq<Bucket>, k: nat, j: nat)
    requires FilledApart(buckets, k, j) && j < |buckets[k]| && !SenderRaises(buckets, k, j)
    ensures FilledApart(buckets, k, j + 1)
  {
    var b, b' := buckets[k], buckets[k][..j + 1];
    forall x, y | 0 <= x < y < |b'| ensures b'[x].meta.name != b'[y].meta.name {
      if y < j {
        assert b[..j][x] == b'[x] && b[..j][y] == b'[y];
      }
    }
  }

  lemma NextApart(buckets: seq<Bucket>, k: nat)
    requires k < |buckets| && FilledApart(buckets, k, |buckets[k]|)
    ensures k + 1 < |buckets| ==> FilledApart(buckets, k + 1, 0)
    ensures k + 1 == |buckets| ==> AllNamesDistinct(buckets)
  {
    assert buckets[k][..|buckets[k]|] == buckets[k];
  }

  lemma SenderSafe(buckets: seq<Bucket>, k: nat, j: nat)
    requires AllNamesDistinct(buckets)
    ensures !SenderRaises(buckets, k, j)
  {
  }

  // What a receiver can merge it could merge so far.
  lemma ReceiverSafe(ws: seq<Tensor>, bucketSize: nat, out: seq<Chunk>)
    requires bucketSize > 0 && AllValid(ws) && out <= Flatten(SentBuckets(ws, bucketSize))
    requires AllViewable(Flatten(SentBuckets(ws, bucketSize)), bucketSize)
    ensures !ReceiverRaises(out, bucketSize)
  {
    var all := Flatten(SentBuckets(ws, bucketSize));
    ReceivedExactly(ws, bucketSize);
    hide Flatten, SentBuckets, AllViewable;
    assert all == out + all[|out|..];
    MergeFromConcat(MERGE_START, out, all[|out|..], bucketSize);
    if ReceiverRaises(out, bucketSize) {
      MergeStuck(Merge(out, bucketSize), all[|out|..], bucketSize);
      assert false;
    }
  }

  // A receiver that has merged the whole stream has every tensor, and every view worked.
  lemma WholeStreamMerged(ws: seq<Tensor>, bucketSize: nat, out: seq<Chunk>)
    requires bucketSize > 0 && AllValid(ws) && out == Flatten(SentBuckets(ws, bucketSize)) &&
        !ReceiverRaises(out, bucketSize)
    ensures AllViewable(Flatten(SentBuckets(ws, bucketSize)), bucketSize)
    ensures Merge(out, bucketSize) == MergeState(NonEmpty(ws), None, true)
  {
    ReceivedExactly(ws, bucketSize);
  }

  predicate IsPrefix(a: seq<Tensor>, b: seq<Tensor>) {
    a <= b
  }
}
