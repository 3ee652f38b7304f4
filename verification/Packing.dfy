/** Greedy packing of a chunk stream into fixed-size buckets, as rank 0 does it
    while sending (nixl_checkpoint_engine.py and nccl_checkpoint_engine.py).

    `Pack` is the bucket list; `SendWeights` is the loop that fills the two
    buffers in place, swaps them and announces full buckets.  The lemmas say what
    the receivers rely on: the stream survives in order, a bucket is a gap-free
    layout inside the buffer, its names are distinct, and buckets are not wasted. */
module Packing {
  import opened Flattening
  import opened Arithmetic
  import opened Chunks

  type Bucket = seq<Chunk>

  function Used(b: Bucket): nat {
    if b == [] then 0 else Used(b[..|b| - 1]) + b[|b| - 1].meta.chunkSize
  }

  function Place(c: Chunk, at: nat): Chunk {
    c.(meta := c.meta.(offset := Some(at)))
  }

  function PackFrom(open: Bucket, cs: seq<Chunk>, bucketSize: nat): seq<Bucket>
    decreases |cs|
  {
    if cs == [] then [open]
    else if Used(open) + cs[0].meta.chunkSize > bucketSize then
      [open] + PackFrom([Place(cs[0], 0)], cs[1..], bucketSize)
    else
      PackFrom(open + [Place(cs[0], Used(open))], cs[1..], bucketSize)
  }

  function Pack(cs: seq<Chunk>, bucketSize: nat): seq<Bucket> {
    PackFrom([], cs, bucketSize)
  }

  function Metas(b: Bucket): (r: seq<TensorMeta>)
    ensures |r| == |b| && forall i :: 0 <= i < |b| ==> r[i] == b[i].meta
  {
    seq(|b|, i requires 0 <= i < |b| => b[i].meta)
  }

  // Chunk i starts where the chunks before it end, and the last ends inside the buffer.
  predicate WellLaid(b: Bucket, bucketSize: nat) {
    && Used(b) <= bucketSize
    && (b != [] ==>
          var c := b[|b| - 1];
          c.Valid() && 0 < c.meta.chunkSize && c.meta.offset == Some(Used(b[..|b| - 1])) &&
              WellLaid(b[..|b| - 1], bucketSize))
  }

  predicate NamesDistinct(b: Bucket) {
    forall i, j :: 0 <= i < j < |b| ==> b[i].meta.name != b[j].meta.name
  }

  predicate AllWellLaid(bs: seq<Bucket>, bucketSize: nat) {
    forall k :: 0 <= k < |bs| ==> WellLaid(bs[k], bucketSize)
  }

  predicate AllNamesDistinct(bs: seq<Bucket>) {
    forall k :: 0 <= k < |bs| ==> NamesDistinct(bs[k])
  }

  lemma UsedSnoc(b: Bucket, c: Chunk)
    ensures Used(b + [c]) == Used(b) + c.meta.chunkSize
  {
    assert (b + [c])[..|b|] == b;
  }

  lemma {:induction false} UsedPrefix(b: Bucket, i: nat, j: nat)
    requires i <= j <= |b|
    ensures Used(b[..i]) <= Used(b[..j])
    ensures i < j ==> Used(b[..i]) + b[i].meta.chunkSize <= Used(b[..j])
    decreases j
  {
    if i < j {
      assert b[..j][..j - 1] == b[..j - 1];
      if i < j - 1 {
        UsedPrefix(b, i, j - 1);
      }
    }
  }

  lemma {:induction false} WellLaidAt(b: Bucket, bucketSize: nat, i: nat)
    requires WellLaid(b, bucketSize) && i < |b|
    ensures b[i].Valid() && 0 < b[i].meta.chunkSize && b[i].meta.offset == Some(Used(b[..i]))
    ensures Used(b[..i]) + b[i].meta.chunkSize <= Used(b) <= bucketSize
    decreases |b|
  {
    if i < |b| - 1 {
      WellLaidAt(b[..|b| - 1], bucketSize, i);
      assert b[..|b| - 1][..i] == b[..i];
    }
  }

  lemma WellLaidSnoc(b: Bucket, c: Chunk, bucketSize: nat)
    requires WellLaid(b, bucketSize) && c.Valid() && 0 < c.meta.chunkSize
    requires Used(b) + c.meta.chunkSize <= bucketSize
    ensures WellLaid(b + [Place(c, Used(b))], bucketSize)
  {
    assert (b + [Place(c, Used(b))])[..|b|] == b;
  }

  // Windows of different chunks of one bucket do not overlap.
  lemma LayoutIsDisjoint(b: Bucket, bucketSize: nat, i: nat, j: nat)
    requires WellLaid(b, bucketSize) && i < j < |b|
    ensures b[i].meta.offset.Some? && b[j].meta.offset.Some?
    ensures 0 < b[i].meta.chunkSize && 0 < b[j].meta.chunkSize
    ensures b[i].meta.offset.value + b[i].meta.chunkSize <= b[j].meta.offset.value
    ensures j == i + 1 ==> b[i].meta.offset.value + b[i].meta.chunkSize == b[j].meta.offset.value
    ensures b[j].meta.offset.value + b[j].meta.chunkSize <= bucketSize
  {
    WellLaidAt(b, bucketSize, i);
    WellLaidAt(b, bucketSize, j);
    UsedPrefix(b, i, j);
    assert b[..j][..j - 1] == b[..j - 1];
  }

  // ------------------------------------------------------- what packing keeps

  lemma {:induction false} PackFromKeepsStream(open: Bucket, cs: seq<Chunk>, bucketSize: nat)
    requires Packable(cs, bucketSize)
    ensures |PackFrom(open, cs, bucketSize)| > 0
    ensures UnplaceAll(Flatten(PackFrom(open, cs, bucketSize))) == UnplaceAll(open) + cs
    decreases |cs|
  {
    if cs == [] {
      assert Flatten([open]) == open + Flatten([]) == open;
    } else {
      var c, rest := cs[0], cs[1..];
      if Used(open) + c.meta.chunkSize > bucketSize {
        PackFromKeepsStream([Place(c, 0)], rest, bucketSize);
        FlattenKeeps(open, PackFrom([Place(c, 0)], rest, bucketSize), Place(c, 0), cs);
      } else {
        PackFromKeepsStream(open + [Place(c, Used(open))], rest, bucketSize);
        hide PackFrom, Flatten;
        assert UnplaceAll([Place(c, Used(open))]) + rest == cs;
      }
    }
  }

  lemma FlattenKeeps(open: Bucket, bs: seq<Bucket>, placed: Chunk, cs: seq<Chunk>)
    requires cs != [] && Unplace(placed) == cs[0]
    requires UnplaceAll(Flatten(bs)) == UnplaceAll([placed]) + cs[1..]
    ensures UnplaceAll(Flatten([open] + bs)) == UnplaceAll(open) + cs
  {
    assert Flatten([open] + bs) == open + Flatten(bs);
    assert UnplaceAll([placed]) + cs[1..] == cs;
  }

  lemma PlacedFirst(c: Chunk, bucketSize: nat)
    requires c.Valid() && 0 < c.meta.chunkSize <= bucketSize
    ensures WellLaid([Place(c, 0)], bucketSize)
  {
    WellLaidSnoc([], c, bucketSize);
    assert [] + [Place(c, 0)] == [Place(c, 0)];
  }

  lemma {:induction false} PackFromWellLaid(open: Bucket, cs: seq<Chunk>, bucketSize: nat)
    requires Packable(cs, bucketSize) && WellLaid(open, bucketSize)
    ensures AllWellLaid(PackFrom(open, cs, bucketSize), bucketSize)
    decreases |cs|
  {
    if cs != [] {
      var c, rest := cs[0], cs[1..];
      if Used(open) + c.meta.chunkSize > bucketSize {
        PlacedFirst(c, bucketSize);
        PackFromWellLaid([Place(c, 0)], rest, bucketSize);
      } else {
        WellLaidSnoc(open, c, bucketSize);
        PackFromWellLaid(open + [Place(c, Used(open))], rest, bucketSize);
      }
    }
  }

  // No bucket but the first can be empty, and the chunk that opens a bucket did not fit the one before.
  predicate Greedy(bs: seq<Bucket>, bucketSize: nat) {
    forall k :: 0 < k < |bs| ==> bs[k] != [] && Used(bs[k - 1]) + bs[k][0].meta.chunkSize > bucketSize
  }

  // The first bucket extends `open`; every later bucket starts with the chunk that did not fit before it.
  lemma {:induction false} PackFromGreedy(open: Bucket, cs: seq<Chunk>, bucketSize: nat)
    requires Packable(cs, bucketSize) && WellLaid(open, bucketSize)
    ensures |PackFrom(open, cs, bucketSize)| > 0 && open <= PackFrom(open, cs, bucketSize)[0]
    ensures cs != [] ==> PackFrom(open, cs, bucketSize)[0] != []
    ensures Greedy(PackFrom(open, cs, bucketSize), bucketSize)
    decreases |cs|
  {
    if cs != [] {
      var c := cs[0];
      if Used(open) + c.meta.chunkSize > bucketSize {
        PlacedFirst(c, bucketSize);
        PackFromGreedy([Place(c, 0)], cs[1..], bucketSize);
      } else {
        WellLaidSnoc(open, c, bucketSize);
        PackFromGreedy(open + [Place(c, Used(open))], cs[1..], bucketSize);
      }
    }
  }

  // Each bucket is a contiguous piece of the stream, so names repeat in it only as they do in the stream.
  lemma {:induction false} FlattenWindow(bs: seq<Bucket>, k: nat) returns (lo: nat)
    requires k < |bs|
    ensures lo + |bs[k]| <= |Flatten(bs)| && Flatten(bs)[lo..lo + |bs[k]|] == bs[k]
    decreases |bs|
  {
    if k == 0 {
      lo := 0;
    } else {
      var lo' := FlattenWindow(bs[1..], k - 1);
      lo := |bs[0]| + lo';
    }
  }

  /** The buckets, one after the other, are the stream that was packed; each is a
      gap-free layout inside the buffer. */
  lemma PackKeepsStream(cs: seq<Chunk>, bucketSize: nat)
    requires Packable(cs, bucketSize)
    ensures |Pack(cs, bucketSize)| > 0
    ensures UnplaceAll(Flatten(Pack(cs, bucketSize))) == cs
    ensures AllWellLaid(Pack(cs, bucketSize), bucketSize)
  {
    PackFromKeepsStream([], cs, bucketSize);
    assert UnplaceAll([]) == [] && [] + cs == cs;
    PackFromWellLaid([], cs, bucketSize);
  }

  // An empty bucket is sent only when there is nothing at all to send.
  lemma PackHasNoEmptyBucket(cs: seq<Chunk>, bucketSize: nat)
    requires Packable(cs, bucketSize)
    ensures [] in Pack(cs, bucketSize) <==> cs == []
  {
    var bs := Pack(cs, bucketSize);
    PackFromGreedy([], cs, bucketSize);
    hide WellLaid, Used, Packable;
    if cs == [] {
      assert bs == [[]] && bs[0] == [];
    } else {
      assert forall k :: 0 <= k < |bs| ==> bs[k] != [];
    }
  }

  /** No two chunks of one tensor, and no two tensors of one name, share a bucket:
      the metadata keyed by name loses nothing. */
  lemma PackNamesDistinct(cs: seq<Chunk>, bucketSize: nat)
    requires Packable(cs, bucketSize) && RepeatsAreFull(cs, bucketSize)
    ensures AllNamesDistinct(Pack(cs, bucketSize))
  {
    var bs := Pack(cs, bucketSize);
    PackKeepsStream(cs, bucketSize);
    forall k | 0 <= k < |bs| ensures NamesDistinct(bs[k]) {
      var lo := FlattenWindow(bs, k);
      WindowNamesDistinct(cs, Flatten(bs), bs[k], lo, bucketSize);
    }
  }

  lemma WindowNamesDistinct(cs: seq<Chunk>, placed: seq<Chunk>, b: Bucket, lo: nat, bucketSize: nat)
    requires UnplaceAll(placed) == cs && RepeatsAreFull(cs, bucketSize) && WellLaid(b, bucketSize)
    requires lo + |b| <= |placed| && placed[lo..lo + |b|] == b
    ensures NamesDistinct(b)
  {
    forall i, j | 0 <= i < j < |b| ensures b[i].meta.name != b[j].meta.name {
      LayoutIsDisjoint(b, bucketSize, i, j);
      assert b[i] == placed[lo + i] && b[j] == placed[lo + j];
      assert cs[lo + i] == Unplace(b[i]) && cs[lo + j] == Unplace(b[j]);
    }
  }

  // -------------------------------------------------------- how many buckets

  function Total(bs: seq<Bucket>): nat {
    if bs == [] then 0 else Used(bs[0]) + Total(bs[1..])
  }

  lemma {:induction false} PairsOverflow(bs: seq<Bucket>, bucketSize: nat)
    requires forall k :: 0 < k < |bs| ==> Used(bs[k - 1]) + Used(bs[k]) > bucketSize
    ensures Total(bs) >= Product(|bs| / 2, bucketSize)
    decreases |bs|
  {
    if |bs| >= 2 {
      PairsOverflow(bs[2..], bucketSize);
      assert bs[1..][1..] == bs[2..];
      assert Used(bs[0]) + Used(bs[1]) > bucketSize;
      assert |bs| / 2 == |bs[2..]| / 2 + 1;
      Room(|bs| / 2, bucketSize);
    }
  }

  lemma UsedFirst(b: Bucket)
    requires b != []
    ensures b[0].meta.chunkSize <= Used(b)
  {
    UsedPrefix(b, 0, |b|);
    assert b[..|b|] == b && b[..0] == [];
  }

  lemma {:induction false} UsedFlatten(bs: seq<Bucket>)
    ensures Used(Flatten(bs)) == Total(bs)
    decreases |bs|
  {
    if bs != [] {
      UsedFlatten(bs[1..]);
      UsedConcat(bs[0], Flatten(bs[1..]));
    }
  }

  lemma {:induction false} UsedConcat(a: Bucket, b: Bucket)
    ensures Used(a + b) == Used(a) + Used(b)
    decreases |b|
  {
    if b == [] {
      assert a + b == a;
    } else {
      assert (a + b)[..|a + b| - 1] == a + b[..|b| - 1];
      UsedConcat(a, b[..|b| - 1]);
    }
  }

  lemma {:induction false} UsedUnplaced(b: Bucket)
    ensures Used(UnplaceAll(b)) == Used(b)
    decreases |b|
  {
    if b != [] {
      assert UnplaceAll(b)[..|b| - 1] == UnplaceAll(b[..|b| - 1]);
      UsedUnplaced(b[..|b| - 1]);
    }
  }

  // Any two neighbouring buckets overflow one buffer together, so at most 2 * total / size + 1 are sent.
  lemma FewBuckets(cs: seq<Chunk>, bucketSize: nat)
    requires Packable(cs, bucketSize) && bucketSize > 0
    ensures |Pack(cs, bucketSize)| <= 2 * (Used(cs) / bucketSize) + 1
    ensures forall k :: 0 < k < |Pack(cs, bucketSize)| ==>
              Used(Pack(cs, bucketSize)[k - 1]) + Used(Pack(cs, bucketSize)[k]) > bucketSize
  {
    var bs := Pack(cs, bucketSize);
    PackKeepsStream(cs, bucketSize);
    PackFromGreedy([], cs, bucketSize);
    forall k | 0 < k < |bs| ensures Used(bs[k - 1]) + Used(bs[k]) > bucketSize {
      UsedFirst(bs[k]);
    }
    PairsOverflow(bs, bucketSize);
    UsedFlatten(bs);
    UsedUnplaced(Flatten(bs));
    DivBound(Used(cs), |bs| / 2, bucketSize);
  }

  lemma DivBound(total: nat, n: nat, d: nat)
    requires d > 0 && total >= Product(n, d)
    ensures n <= total / d
  {
    DivisionIdentity(total, d);
    Room(total / d + 1, d);
    hide Product;
    if total / d + 1 <= n {
      ProductGrows(total / d + 1, n, d);
      assert false;
    }
  }

  // ------------------------------------------------------- bytes in a buffer

  predicate HoldsChunk(content: seq<Byte>, c: Chunk) {
    && c.meta.offset.Some? && c.meta.offset.value + c.meta.chunkSize <= |content|
    && content[c.meta.offset.value..c.meta.offset.value + c.meta.chunkSize] == c.bytes
  }

  // The buffer holds the bytes of every chunk of the bucket at the chunk's offset.
  predicate Holds(content: seq<Byte>, b: Bucket) {
    forall i :: 0 <= i < |b| ==> HoldsChunk(content, b[i])
  }

  // What a receiver yields for one metadata entry: a view of its buffer.
  function View(content: seq<Byte>, m: TensorMeta): Chunk
    requires m.offset.Some? && m.offset.value + m.chunkSize <= |content|
  {
    Chunk(m, content[m.offset.value..m.offset.value + m.chunkSize])
  }

  // buffer[offset : offset + size] = chunk, behind the chunks the buffer already holds
  method Fill(buffer: array<Byte>, offset: nat, c: Chunk, ghost open: Bucket)
    requires c.Valid() && WellLaid(open, buffer.Length) && offset == Used(open)
    requires offset + c.meta.chunkSize <= buffer.Length && Holds(buffer[..], open)
    modifies buffer
    ensures buffer[..offset] == old(buffer[..offset])
    ensures buffer[offset + c.meta.chunkSize..] == old(buffer[offset + c.meta.chunkSize..])
    ensures Holds(buffer[..], open + [Place(c, offset)])
  {
    forall j | 0 <= j < c.meta.chunkSize {
      buffer[offset + j] := c.bytes[j];
    }
    HoldsSnoc(old(buffer[..]), buffer[..], open, c);
  }

  lemma HoldsSnoc(before: seq<Byte>, after: seq<Byte>, open: Bucket, c: Chunk)
    requires |before| == |after| && WellLaid(open, |before|) && Holds(before, open) && c.Valid()
    requires Used(open) + c.meta.chunkSize <= |after|
    requires after[..Used(open)] == before[..Used(open)]
    requires after[Used(open)..Used(open) + c.meta.chunkSize] == c.bytes
    ensures Holds(after, open + [Place(c, Used(open))])
  {
    hide WellLaid, Used;
    forall i | 0 <= i < |open| ensures HoldsChunk(after, open[i]) {
      assert HoldsChunk(before, open[i]);
      WellLaidAt(open, |before|, i);
      SliceBelow(before, after, Used(open), open[i].meta.offset.value, open[i].meta.chunkSize);
    }
    assert HoldsChunk(after, Place(c, Used(open)));
  }

  lemma SliceBelow(before: seq<Byte>, after: seq<Byte>, top: nat, at: nat, size: nat)
    requires at + size <= top <= |before| == |after| && before[..top] == after[..top]
    ensures before[at..at + size] == after[at..at + size]
  {
    assert before[at..at + size] == before[..top][at..at + size];
    assert after[at..at + size] == after[..top][at..at + size];
  }

  // ------------------------------------------------------------- the sender

  // One readable operation: the metadata sent, the buffer it names and what that buffer held.
  datatype Announcement = Announcement(metas: seq<TensorMeta>, descs: array<Byte>, content: seq<Byte>, isLast: bool)

  datatype Event = Announced(n: nat) | Awaited(n: nat)

  // The first n announcements and the waits between them: bucket k is awaited before bucket k + 1
  // is announced.
  predicate InTurn(log: seq<Event>, n: nat) {
    && |log| == (if n == 0 then 0 else 2 * n - 1)
    && (forall k :: 0 <= k < n ==> log[2 * k] == Announced(k))
    && (forall k :: 0 <= k < n - 1 ==> log[2 * k + 1] == Awaited(k))
  }

  predicate Carries(a: Announcement, b: Bucket, k: nat, even: array<Byte>, odd: array<Byte>) {
    && a.metas == Metas(b) && Holds(a.content, b)
    && a.descs == (if k % 2 == 0 then even else odd)
  }

  // Packing so far: `closed` buckets are announced, `open` is being filled, cs[i..] is still to come.
  ghost predicate Midway(cs: seq<Chunk>, i: nat, closed: seq<Bucket>, open: Bucket, bucketSize: nat) {
    && i <= |cs| && closed + PackFrom(open, cs[i..], bucketSize) == Pack(cs, bucketSize)
    && WellLaid(open, bucketSize) && NamesDistinct(open)
    && AllNamesDistinct(closed)
  }

  // Chunk i is about to be placed, and fits: the open bucket was closed if it did not.
  ghost predicate AboutToPlace(cs: seq<Chunk>, i: nat, closed: seq<Bucket>, open: Bucket, bucketSize: nat) {
    && i < |cs| && Used(open) + cs[i].meta.chunkSize <= bucketSize
    && closed + PackFrom(open + [Place(cs[i], Used(open))], cs[i + 1..], bucketSize) == Pack(cs, bucketSize)
    && WellLaid(open, bucketSize) && NamesDistinct(open)
    && AllNamesDistinct(closed)
  }

  lemma MidwayFits(cs: seq<Chunk>, i: nat, closed: seq<Bucket>, open: Bucket, bucketSize: nat)
    requires Midway(cs, i, closed, open, bucketSize) && i < |cs|
    requires Used(open) + cs[i].meta.chunkSize <= bucketSize
    ensures AboutToPlace(cs, i, closed, open, bucketSize)
  {
    assert cs[i..][0] == cs[i] && cs[i..][1..] == cs[i + 1..];
  }

  lemma MidwayOverflows(cs: seq<Chunk>, i: nat, closed: seq<Bucket>, open: Bucket, bucketSize: nat)
    requires Midway(cs, i, closed, open, bucketSize) && i < |cs|
    requires Used(open) + cs[i].meta.chunkSize > bucketSize >= cs[i].meta.chunkSize
    ensures AboutToPlace(cs, i, closed + [open], [], bucketSize)
  {
    hide WellLaid;
    var rest := PackFrom([Place(cs[i], 0)], cs[i + 1..], bucketSize);
    assert PackFrom(open, cs[i..], bucketSize) == [open] + rest by {
      assert cs[i..][0] == cs[i] && cs[i..][1..] == cs[i + 1..];
    }
    hide PackFrom;
    assert closed + ([open] + rest) == (closed + [open]) + rest;
    assert [] + [Place(cs[i], 0)] == [Place(cs[i], 0)];
    assert WellLaid([], bucketSize) by { EmptyWellLaid(bucketSize); }
  }

  lemma EmptyWellLaid(bucketSize: nat)
    ensures WellLaid([], bucketSize) && Used([]) == 0
  {
  }

  lemma Placed(cs: seq<Chunk>, i: nat, closed: seq<Bucket>, open: Bucket, bucketSize: nat)
    requires AboutToPlace(cs, i, closed, open, bucketSize) && Packable(cs, bucketSize)
    requires forall j :: 0 <= j < |open| ==> open[j].meta.name != cs[i].meta.name
    ensures Midway(cs, i + 1, closed, open + [Place(cs[i], Used(open))], bucketSize)
    ensures Used(open + [Place(cs[i], Used(open))]) == Used(open) + cs[i].meta.chunkSize
  {
    WellLaidSnoc(open, cs[i], bucketSize);
    UsedSnoc(open, Place(cs[i], Used(open)));
  }

  lemma MidwayEnd(cs: seq<Chunk>, closed: seq<Bucket>, open: Bucket, bucketSize: nat)
    requires Midway(cs, |cs|, closed, open, bucketSize)
    ensures Pack(cs, bucketSize) == closed + [open] && AllNamesDistinct(Pack(cs, bucketSize))
  {
    assert cs[|cs|..] == [];
  }

  // The announcements made so far, strictly alternating with the waits for them.
  ghost predicate AllCarried(sent: seq<Announcement>, log: seq<Event>, closed: seq<Bucket>, done: bool,
      even: array<Byte>, odd: array<Byte>) {
    && |sent| == |closed| && InTurn(log, |sent|)
    && forall k :: 0 <= k < |closed| ==>
         Carries(sent[k], closed[k], k, even, odd) && (sent[k].isLast <==> done && k == |closed| - 1)
  }

  lemma SendStart(cs: seq<Chunk>, bucketSize: nat, even: array<Byte>, odd: array<Byte>)
    ensures Midway(cs, 0, [], [], bucketSize)
    ensures AllCarried([], [], [], false, even, odd)
  {
    assert cs[0..] == cs;
  }

  // With the last announcement awaited too, every announcement is followed by its own wait.
  lemma CarriedInTurn(sent: seq<Announcement>, log: seq<Event>, closed: seq<Bucket>, even: array<Byte>,
      odd: array<Byte>)
    requires |sent| > 0 && |log| > 0 && log[|log| - 1] == Awaited(|sent| - 1)
    requires AllCarried(sent, log[..|log| - 1], closed, true, even, odd)
    ensures |sent| == |closed| && |log| == 2 * |sent|
    ensures forall k :: 0 <= k < |closed| ==>
              Carries(sent[k], closed[k], k, even, odd) && (sent[k].isLast <==> k == |closed| - 1)
    ensures forall n :: 0 <= n < |sent| ==> log[2 * n] == Announced(n) && log[2 * n + 1] == Awaited(n)
  {
    hide Carries;
    var head := log[..|log| - 1];
    forall n | 0 <= n < |sent| ensures log[2 * n] == Announced(n) && log[2 * n + 1] == Awaited(n) {
      assert log[2 * n] == head[2 * n];
      if n < |sent| - 1 {
        assert log[2 * n + 1] == head[2 * n + 1];
      }
    }
  }

  // wait for the previous operation, if there is one, then make the full buffer readable
  method Announce(sent: seq<Announcement>, log: seq<Event>, metas: seq<TensorMeta>, buffer: array<Byte>, isLast: bool,
                  ghost closed: seq<Bucket>, ghost open: Bucket, ghost even: array<Byte>, ghost odd: array<Byte>)
    returns (sent': seq<Announcement>, log': seq<Event>)
    requires AllCarried(sent, log, closed, false, even, odd)
    requires metas == Metas(open) && Holds(buffer[..], open) && buffer == (if |sent| % 2 == 0 then even else odd)
    ensures AllCarried(sent', log', closed + [open], isLast, even, odd) && |sent'| == |sent| + 1
  {
    log' := log;
    if |sent| > 0 {
      log' := log' + [Awaited(|sent| - 1)];
    }
    log' := log' + [Announced(|sent|)];
    sent' := sent + [Announcement(metas, buffer, buffer[..], isLast)];
  }

  // assert the name is new to the bucket, then copy the chunk behind the others
  method PlaceChunk(buffer: array<Byte>, bucketMeta: seq<TensorMeta>, offset: nat, cs: seq<Chunk>, i: nat,
                    ghost closed: seq<Bucket>, ghost open: Bucket) returns (ok: bool)
    requires Packable(cs, buffer.Length) && AboutToPlace(cs, i, closed, open, buffer.Length)
    requires Holds(buffer[..], open) && bucketMeta == Metas(open) && offset == Used(open)
    modifies buffer
    ensures !ok ==> !AllNamesDistinct(Pack(cs, buffer.Length))
    ensures ok ==>
      var open' := open + [Place(cs[i], offset)];
      && Midway(cs, i + 1, closed, open', buffer.Length) && Holds(buffer[..], open')
      && Used(open') == offset + cs[i].meta.chunkSize
      && Metas(open') == bucketMeta + [cs[i].meta.(offset := Some(offset))]
  {
    hide WellLaid, Used, PackFrom, NamesDistinct, AllNamesDistinct;
    var c := cs[i];
    if exists j :: 0 <= j < |bucketMeta| && bucketMeta[j].name == c.meta.name {
      ghost var j :| 0 <= j < |bucketMeta| && bucketMeta[j].name == c.meta.name;
      Clash(closed, open + [Place(c, offset)], cs[i + 1..], buffer.Length, j);
      return false;
    }
    Fill(buffer, offset, c, open);
    Placed(cs, i, closed, open, buffer.Length);
    ok := true;
  }

  /** Rank 0's loop over its two buffers.  It raises exactly when some bucket
      would list a name twice; otherwise it announces the buckets of the greedy
      packing, the full buffers alternating, and always awaits the previous
      announcement before making the next. */
  method SendWeights(ws: seq<Tensor>, bucketSize: nat, sendBuf: array<Byte>, recvBuf: array<Byte>)
    returns (sent: seq<Announcement>, log: seq<Event>, ok: bool)
    requires bucketSize > 0 && sendBuf != recvBuf
    requires sendBuf.Length == bucketSize && recvBuf.Length == bucketSize
    modifies sendBuf, recvBuf
    ensures ok <==> AllNamesDistinct(Pack(Split(ws, bucketSize), bucketSize))
    ensures ok ==>
      var bs := Pack(Split(ws, bucketSize), bucketSize);
      && |sent| == |bs|
      && (forall k :: 0 <= k < |bs| ==>
            Carries(sent[k], bs[k], k, sendBuf, recvBuf) && (sent[k].isLast <==> k == |bs| - 1))
    ensures ok ==> |log| == 2 * |sent|
    ensures ok ==> forall n :: 0 <= n < |sent| ==> log[2 * n] == Announced(n) && log[2 * n + 1] == Awaited(n)
  {
    hide Midway, AboutToPlace, AllCarried, AllNamesDistinct, Packable, Pack, Split, WellLaid;
    var cs := SplitWeightChunks(ws, bucketSize);
    SplitFacts(ws, bucketSize);
    var send, recv := sendBuf, recvBuf;
    var bucketMeta: seq<TensorMeta>, offset: nat := [], 0;
    sent, log, ok := [], [], true;
    ghost var closed: seq<Bucket>, open: Bucket := [], [];
    SendStart(cs, bucketSize, sendBuf, recvBuf);
    for i := 0 to |cs|
      invariant Midway(cs, i, closed, open, bucketSize) && Holds(send[..], open) && ok
      invariant bucketMeta == Metas(open) && offset == Used(open)
      invariant AllCarried(sent, log, closed, false, sendBuf, recvBuf)
      invariant if |sent| % 2 == 0 then send == sendBuf && recv == recvBuf else send == recvBuf && recv == sendBuf
    {
      var c := cs[i];
      if offset + c.meta.chunkSize > bucketSize {
        MidwayOverflows(cs, i, closed, open, bucketSize);
        sent, log := Announce(sent, log, bucketMeta, send, false, closed, open, sendBuf, recvBuf);
        closed, open := closed + [open], [];
        send, recv := recv, send;
        bucketMeta, offset := [], 0;
      } else {
        MidwayFits(cs, i, closed, open, bucketSize);
      }
      ok := PlaceChunk(send, bucketMeta, offset, cs, i, closed, open);
      if !ok {
        return;
      }
      bucketMeta := bucketMeta + [c.meta.(offset := Some(offset))];
      open := open + [Place(c, offset)];
      offset := offset + c.meta.chunkSize;
    }
    MidwayEnd(cs, closed, open, bucketSize);
    sent, log := Announce(sent, log, bucketMeta, send, true, closed, open, sendBuf, recvBuf);
    log := log + [Awaited(|sent| - 1)];
    CarriedInTurn(sent, log, Pack(cs, bucketSize), sendBuf, recvBuf);
  }

  lemma {:induction false} PackFromExtends(open: Bucket, cs: seq<Chunk>, bucketSize: nat)
    ensures |PackFrom(open, cs, bucketSize)| > 0 && open <= PackFrom(open, cs, bucketSize)[0]
    decreases |cs|
  {
    if cs != [] && Used(open) + cs[0].meta.chunkSize <= bucketSize {
      PackFromExtends(open + [Place(cs[0], Used(open))], cs[1..], bucketSize);
    }
  }

  // A repeated name in the open bucket stays in the bucket it closes as.
  lemma Clash(closed: seq<Bucket>, open: Bucket, cs: seq<Chunk>, bucketSize: nat, j: nat)
    requires j < |open| - 1 && open[j].meta.name == open[|open| - 1].meta.name
    ensures !AllNamesDistinct(closed + PackFrom(open, cs, bucketSize))
  {
    PackFromExtends(open, cs, bucketSize);
    var b := PackFrom(open, cs, bucketSize)[0];
    assert b[j] == open[j] && b[|open| - 1] == open[|open| - 1];
    assert !NamesDistinct((closed + PackFrom(open, cs, bucketSize))[|closed|]);
  }
}
