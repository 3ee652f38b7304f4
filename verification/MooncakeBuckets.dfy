/** Whole-tensor buckets of the Mooncake engine (mooncake_checkpoint_engine.py): packing, and the
    dictionary that tells a receiver what a bucket holds. */
module MooncakeBuckets {
  import opened Arithmetic
  import opened Flattening
  import opened Chunks

  datatype Part = Part(name: string, bytes: seq<Byte>)
  type Bucket = seq<Part>

  // The bytes of a bucket: its parts one after the other, repeated names included.
  function Content(b: Bucket): seq<Byte> {
    if b == [] then [] else Content(b[..|b| - 1]) + b[|b| - 1].bytes
  }

  // Bytes of the bucket before part j.
  function Offset(b: Bucket, j: nat): nat
    requires j <= |b|
  {
    |Content(b[..j])|
  }

  lemma ContentSnoc(b: Bucket, p: Part)
    ensures Content(b + [p]) == Content(b) + p.bytes
  {
    assert (b + [p])[..|b|] == b;
  }

  predicate AllFit(bs: seq<Bucket>, bucketSize: nat) {
    forall k :: 0 <= k < |bs| ==> |Content(bs[k])| <= bucketSize
  }

  // ------------------------------------------------------------------ packing

  // None: some tensor is larger than a bucket, and the sender's assertion fails.
  function Pack(open: Bucket, ws: seq<Part>, bucketSize: nat): Option<seq<Bucket>>
    decreases |ws|
  {
    if ws == [] then Some([open])
    else if |ws[0].bytes| > bucketSize then None
    else if |Content(open)| + |ws[0].bytes| > bucketSize then
      var rest := Pack([ws[0]], ws[1..], bucketSize);
      if rest.None? then None else Some([open] + rest.value)
    else
      Pack(open + [ws[0]], ws[1..], bucketSize)
  }

  predicate EachFits(ws: seq<Part>, bucketSize: nat) {
    forall i :: 0 <= i < |ws| ==> |ws[i].bytes| <= bucketSize
  }

  lemma EachFitsStep(ws: seq<Part>, bucketSize: nat)
    requires ws != []
    ensures EachFits(ws, bucketSize) <==> |ws[0].bytes| <= bucketSize && EachFits(ws[1..], bucketSize)
  {
    assert ws == [ws[0]] + ws[1..];
  }

  /** The sender fails exactly on a tensor larger than a bucket; otherwise the
      buckets are the tensors in order and each fits one half of the buffer. */
  lemma {:induction false} PackExactly(open: Bucket, ws: seq<Part>, bucketSize: nat)
    requires |Content(open)| <= bucketSize
    ensures Pack(open, ws, bucketSize).Some? <==> EachFits(ws, bucketSize)
    ensures Pack(open, ws, bucketSize).Some? ==>
      var bs := Pack(open, ws, bucketSize).value;
      |bs| > 0 && Flatten(bs) == open + ws && AllFit(bs, bucketSize)
    decreases |ws|
  {
    if ws == [] {
      FlattenOne(open, bucketSize);
    } else if |ws[0].bytes| <= bucketSize {
      var rest := ws[1..];
      assert ws == [ws[0]] + rest;
      EachFitsStep(ws, bucketSize);
      assert Content([ws[0]]) == ws[0].bytes by {
        ContentSnoc([], ws[0]);
        assert [] + [ws[0]] == [ws[0]];
      }
      ContentSnoc(open, ws[0]);
      hide Content, Flatten, AllFit, EachFits;
      if |Content(open)| + |ws[0].bytes| > bucketSize {
        PackExactly([ws[0]], rest, bucketSize);
        var r := Pack([ws[0]], rest, bucketSize);
        if r.Some? {
          FlattenCons(open, r.value, bucketSize);
          assert open + ([ws[0]] + rest) == open + ws;
        }
      } else {
        PackExactly(open + [ws[0]], rest, bucketSize);
        assert (open + [ws[0]]) + rest == open + ws;
      }
    }
  }

  lemma FlattenOne(open: Bucket, bucketSize: nat)
    requires |Content(open)| <= bucketSize
    ensures Flatten([open]) == open && AllFit([open], bucketSize)
  {
    assert Flatten([open]) == open + Flatten([]);
  }

  lemma FlattenCons(open: Bucket, rest: seq<Bucket>, bucketSize: nat)
    requires |Content(open)| <= bucketSize && AllFit(rest, bucketSize)
    ensures Flatten([open] + rest) == open + Flatten(rest) && AllFit([open] + rest, bucketSize)
  {
    assert ([open] + rest)[1..] == rest;
  }

  // A bucket was closed only because the first tensor of the next one would not fit behind it.
  predicate Greedy(bs: seq<Bucket>, bucketSize: nat) {
    forall k :: 0 < k < |bs| ==> bs[k] != [] && |Content(bs[k - 1])| + |bs[k][0].bytes| > bucketSize
  }

  lemma {:induction false} PackFromGreedy(open: Bucket, ws: seq<Part>, bucketSize: nat)
    requires Pack(open, ws, bucketSize).Some?
    ensures var bs := Pack(open, ws, bucketSize).value;
      bs != [] && open <= bs[0] && Greedy(bs, bucketSize)
    ensures open == [] && ws != [] ==> Pack(open, ws, bucketSize).value[0] != []
    decreases |ws|
  {
    if ws != [] {
      assert Content([]) == [];
      hide Content;
      if |Content(open)| + |ws[0].bytes| > bucketSize {
        PackFromGreedy([ws[0]], ws[1..], bucketSize);
        var rest := Pack([ws[0]], ws[1..], bucketSize).value;
        var bs := [open] + rest;
        assert forall k :: 0 < k < |bs| ==> bs[k] == rest[k - 1];
      } else {
        PackFromGreedy(open + [ws[0]], ws[1..], bucketSize);
      }
    }
  }

  /** Nothing is sent before it must be: a bucket is closed exactly where the next tensor would not
      fit behind it, and the only empty bucket is the one of a sender without tensors. */
  lemma PackIsGreedy(ws: seq<Part>, bucketSize: nat)
    requires Pack([], ws, bucketSize).Some?
    ensures var bs := Pack([], ws, bucketSize).value;
      && (forall k :: 0 < k < |bs| ==> bs[k] != [] && |Content(bs[k - 1])| + |bs[k][0].bytes| > bucketSize)
      && ([] in bs <==> ws == [])
  {
    hide Content;
    PackFromGreedy([], ws, bucketSize);
  }

  // --------------------------------------------------------------- bucket_meta

  predicate Indexes(slots: seq<nat>, b: Bucket) {
    forall j :: 0 <= j < |slots| ==> slots[j] < |b|
  }

  // Where a name stands among the slots, or their number if it is new.
  function Find(b: Bucket, slots: seq<nat>, name: string): (at: nat)
    requires Indexes(slots, b)
    ensures at <= |slots| && (at < |slots| ==> b[slots[at]].name == name)
    ensures forall j :: 0 <= j < at ==> b[slots[j]].name != name
  {
    if slots == [] then 0
    else if b[slots[0]].name == name then 0
    else 1 + Find(b, slots[1..], name)
  }

  // The dictionary's entries, as parts of the bucket: a repeated name keeps its first place and
  // takes its last value.
  function Slots(b: Bucket): (slots: seq<nat>)
    ensures |slots| <= |b| && Indexes(slots, b)
  {
    if b == [] then []
    else
      var n := |b| - 1;
      var before := Slots(b[..n]);
      assert forall j :: 0 <= j < |before| ==> before[j] < |b[..n]|;
      var at := Find(b, before, b[n].name);
      if at < |before| then before[at := n] else before + [n]
  }

  // What a receiver yields for a bucket.
  function Served(b: Bucket): (r: Bucket)
    ensures |r| == |Slots(b)| && forall j :: 0 <= j < |r| ==> r[j] == b[Slots(b)[j]]
  {
    seq(|Slots(b)|, j requires 0 <= j < |Slots(b)| => b[Slots(b)[j]])
  }

  function ServedAll(bs: seq<Bucket>): (r: seq<Bucket>)
    ensures |r| == |bs| && forall k :: 0 <= k < |bs| ==> r[k] == Served(bs[k])
  {
    seq(|bs|, k requires 0 <= k < |bs| => Served(bs[k]))
  }

  predicate NamesApart(b: Bucket) {
    forall i, j :: 0 <= i < j < |b| ==> b[i].name != b[j].name
  }

  function Upto(n: nat): (r: seq<nat>)
    ensures |r| == n && forall i :: 0 <= i < n ==> r[i] == i
  {
    seq(n, i => i)
  }

  // What the last part does to the slots.
  lemma SlotsStep(b: Bucket)
    requires b != []
    ensures var n := |b| - 1; var before := Slots(b[..n]);
      && Indexes(before, b) && (forall j :: 0 <= j < |before| ==> before[j] < n)
      && var at := Find(b, before, b[n].name);
      && (at < |before| ==> Slots(b) == before[at := n])
      && (at == |before| ==> Slots(b) == before + [n])
  {
  }

  // Every name has a slot.
  lemma {:induction false} NamesHaveSlots(b: Bucket, i: nat) returns (j: nat)
    requires i < |b|
    ensures j < |Slots(b)| && b[Slots(b)[j]].name == b[i].name
    decreases |b|
  {
    SlotsStep(b);
    var n := |b| - 1;
    var before := Slots(b[..n]);
    var at := Find(b, before, b[n].name);
    hide Slots, Find;
    if i == n {
      j := at;
    } else {
      j := NamesHaveSlots(b[..n], i);
      assert b[..n][i] == b[i] && b[..n][before[j]] == b[before[j]];
    }
  }

  lemma NewNameIsNotFound(b: Bucket, slots: seq<nat>)
    requires NamesApart(b) && b != [] && Indexes(slots, b)
    requires forall j :: 0 <= j < |slots| ==> slots[j] < |b| - 1
    ensures Find(b, slots, b[|b| - 1].name) == |slots|
  {
    hide Find;
  }

  lemma {:induction false} SlotsWhenApart(b: Bucket)
    requires NamesApart(b)
    ensures Slots(b) == Upto(|b|)
    decreases |b|
  {
    if b != [] {
      var n := |b| - 1;
      assert NamesApart(b[..n]);
      SlotsStep(b);
      NewNameIsNotFound(b, Slots(b[..n]));
      hide *;
      SlotsWhenApart(b[..n]);
      assert Upto(n) + [n] == Upto(n + 1);
    } else {
      assert Upto(0) == [];
    }
  }

  lemma RepeatIsFound(b: Bucket, i: nat)
    requires b != [] && i < |b| - 1 && b[i].name == b[|b| - 1].name
    ensures |Slots(b)| < |b|
  {
    var n := |b| - 1;
    SlotsStep(b);
    var j := NamesHaveSlots(b[..n], i);
    hide Slots, Find;
    var before := Slots(b[..n]);
    assert b[..n][before[j]] == b[before[j]] && b[..n][i] == b[i];
  }

  lemma {:induction false} FewerSlotsWhenRepeated(b: Bucket)
    requires !NamesApart(b)
    ensures |Slots(b)| < |b|
    decreases |b|
  {
    var n := |b| - 1;
    SlotsStep(b);
    hide Slots, Find;
    if NamesApart(b[..n]) {
      var i := RepeatOfLast(b);
      RepeatIsFound(b, i);
    } else {
      hide NamesApart;
      FewerSlotsWhenRepeated(b[..n]);
    }
  }

  // The only repetition there can be is of the last name.
  lemma RepeatOfLast(b: Bucket) returns (i: nat)
    requires !NamesApart(b) && b != [] && NamesApart(b[..|b| - 1])
    ensures i < |b| - 1 && b[i].name == b[|b| - 1].name
  {
    var n := |b| - 1;
    assert forall x, y :: 0 <= x < y < n ==> b[..n][x].name != b[..n][y].name;
    i :| 0 <= i < n && b[i].name == b[n].name;
  }

  /** A receiver yields the bucket as packed if and only if no name is repeated in it. */
  lemma ServedIsBucketIff(b: Bucket)
    ensures Served(b) == b <==> NamesApart(b)
  {
    if NamesApart(b) {
      SlotsWhenApart(b);
    } else {
      FewerSlotsWhenRepeated(b);
    }
  }

  function NamesAt(b: Bucket, slots: seq<nat>): (r: seq<string>)
    requires Indexes(slots, b)
    ensures |r| == |slots| && forall j :: 0 <= j < |slots| ==> r[j] == b[slots[j]].name
  {
    seq(|slots|, j requires 0 <= j < |slots| => b[slots[j]].name)
  }

  // Name x occurs before any occurrence of name y.
  ghost predicate CameFirst(b: Bucket, x: string, y: string) {
    exists i :: 0 <= i < |b| && b[i].name == x && forall m :: 0 <= m <= i ==> b[m].name != y
  }

  predicate Occurs(b: Bucket, name: string) {
    exists i :: 0 <= i < |b| && b[i].name == name
  }

  // Every name of the bucket is listed, in the order of first occurrences, and so only once.
  ghost predicate Lists(b: Bucket, names: seq<string>) {
    && (forall i :: 0 <= i < |b| ==> b[i].name in names)
    && (forall j, k :: 0 <= j < k < |names| ==> CameFirst(b, names[j], names[k]))
  }

  // No slot's name comes again behind it.
  ghost predicate Latest(b: Bucket, slots: seq<nat>)
    requires Indexes(slots, b)
  {
    forall j, i :: 0 <= j < |slots| && slots[j] < i < |b| ==> b[i].name != b[slots[j]].name
  }

  lemma CameFirstStays(b: Bucket, p: Part, x: string, y: string)
    requires CameFirst(b, x, y)
    ensures CameFirst(b + [p], x, y)
  {
    var i :| 0 <= i < |b| && b[i].name == x && forall m :: 0 <= m <= i ==> b[m].name != y;
    assert (b + [p])[i] == b[i] && forall m :: 0 <= m <= i ==> (b + [p])[m] == b[m];
  }

  lemma NewNameComesLast(b: Bucket, p: Part, x: string)
    requires Occurs(b, x) && !Occurs(b, p.name)
    ensures CameFirst(b + [p], x, p.name)
  {
    var i :| 0 <= i < |b| && b[i].name == x;
    assert (b + [p])[i] == b[i] && forall m :: 0 <= m <= i ==> (b + [p])[m] == b[m];
  }

  lemma ListsKnown(b: Bucket, names: seq<string>, p: Part)
    requires Lists(b, names) && p.name in names
    ensures Lists(b + [p], names)
  {
    forall j, k | 0 <= j < k < |names| ensures CameFirst(b + [p], names[j], names[k]) {
      CameFirstStays(b, p, names[j], names[k]);
    }
    hide CameFirst;
  }

  lemma ListsFresh(b: Bucket, names: seq<string>, p: Part)
    requires Lists(b, names) && p.name !in names
    requires forall j :: 0 <= j < |names| ==> Occurs(b, names[j])
    ensures Lists(b + [p], names + [p.name])
  {
    assert !Occurs(b, p.name);
    var all := names + [p.name];
    forall j, k | 0 <= j < k < |all| ensures CameFirst(b + [p], all[j], all[k]) {
      if k < |names| {
        CameFirstStays(b, p, names[j], names[k]);
      } else {
        NewNameComesLast(b, p, names[j]);
      }
    }
    hide CameFirst;
  }

  lemma ListedOnce(b: Bucket, names: seq<string>, j: nat, k: nat)
    requires Lists(b, names) && j < |names| && k < |names| && j != k
    ensures names[j] != names[k]
  {
    if j < k {
      assert CameFirst(b, names[j], names[k]);
    } else {
      assert CameFirst(b, names[k], names[j]);
    }
  }

  lemma LatestKnown(b: Bucket, slots: seq<nat>, p: Part, at: nat)
    requires Indexes(slots, b) && Latest(b, slots) && Lists(b, NamesAt(b, slots))
    requires at < |slots| && b[slots[at]].name == p.name
    ensures Indexes(slots[at := |b|], b + [p]) && Latest(b + [p], slots[at := |b|])
    ensures NamesAt(b + [p], slots[at := |b|]) == NamesAt(b, slots)
  {
    var names := NamesAt(b, slots);
    forall j | 0 <= j < |slots| && j != at ensures b[slots[j]].name != p.name {
      ListedOnce(b, names, j, at);
    }
    hide Lists;
  }

  lemma LatestFresh(b: Bucket, slots: seq<nat>, p: Part)
    requires Indexes(slots, b) && Latest(b, slots) && p.name !in NamesAt(b, slots)
    ensures Indexes(slots + [|b|], b + [p]) && Latest(b + [p], slots + [|b|])
    ensures NamesAt(b + [p], slots + [|b|]) == NamesAt(b, slots) + [p.name]
  {
    var names := NamesAt(b, slots);
    assert forall j :: 0 <= j < |slots| ==> names[j] in names;
  }

  lemma CurrentStep(b: Bucket, slots: seq<nat>, p: Part) returns (after: seq<nat>)
    requires Indexes(slots, b) && Lists(b, NamesAt(b, slots)) && Latest(b, slots)
    ensures after == (var at := Find(b, slots, p.name); if at < |slots| then slots[at := |b|] else slots + [|b|])
    ensures Indexes(after, b + [p]) && Lists(b + [p], NamesAt(b + [p], after)) && Latest(b + [p], after)
  {
    hide Lists, Latest, Find;
    var names, at := NamesAt(b, slots), Find(b, slots, p.name);
    if at < |slots| {
      after := slots[at := |b|];
      assert names[at] == p.name;
      LatestKnown(b, slots, p, at);
      ListsKnown(b, names, p);
    } else {
      after := slots + [|b|];
      forall j | 0 <= j < |names| ensures names[j] != p.name {
        assert b[slots[j]].name == names[j];
      }
      forall j | 0 <= j < |names| ensures Occurs(b, names[j]) {
        assert b[slots[j]].name == names[j];
      }
      LatestFresh(b, slots, p);
      ListsFresh(b, names, p);
    }
  }

  /** What a receiver is told of a bucket: every name once, in the order of the first occurrences,
      each with the last tensor of that name. */
  lemma {:induction false} SlotsAreCurrent(b: Bucket)
    ensures Lists(b, NamesAt(b, Slots(b))) && Latest(b, Slots(b))
    decreases |b|
  {
    if b != [] {
      var n := |b| - 1;
      var rest, before := b[..n], Slots(b[..n]);
      SlotsStep(b);
      assert b == rest + [b[n]];
      FindInFront(rest, b[n], before);
      hide *;
      SlotsAreCurrent(rest);
      var after := CurrentStep(rest, before, b[n]);
      assert after == Slots(b);
    }
  }

  lemma {:induction false} FindInFront(b: Bucket, p: Part, slots: seq<nat>)
    requires Indexes(slots, b)
    ensures Indexes(slots, b + [p]) && Find(b + [p], slots, p.name) == Find(b, slots, p.name)
    decreases |slots|
  {
    if slots != [] {
      FindInFront(b, p, slots[1..]);
    }
  }

  lemma ServedAllIff(bs: seq<Bucket>)
    ensures ServedAll(bs) == bs <==> forall k :: 0 <= k < |bs| ==> NamesApart(bs[k])
  {
    hide Served;
    forall k | 0 <= k < |bs| ensures Served(bs[k]) == bs[k] <==> NamesApart(bs[k]) {
      ServedIsBucketIff(bs[k]);
    }
    if ServedAll(bs) == bs {
      assert forall k :: 0 <= k < |bs| ==> ServedAll(bs)[k] == bs[k];
    }
  }

  lemma {:induction false} ServedIsShorter(bs: seq<Bucket>)
    ensures |Flatten(ServedAll(bs))| <= |Flatten(bs)|
    ensures (exists k :: 0 <= k < |bs| && !NamesApart(bs[k])) ==> |Flatten(ServedAll(bs))| < |Flatten(bs)|
    decreases |bs|
  {
    hide Served, NamesApart;
    if bs != [] {
      assert ServedAll(bs)[1..] == ServedAll(bs[1..]);
      ServedIsShorter(bs[1..]);
      if !NamesApart(bs[0]) {
        FewerSlotsWhenRepeated(bs[0]);
      } else if k :| 0 <= k < |bs| && !NamesApart(bs[k]) {
        assert bs[1..][k - 1] == bs[k];
      }
    }
  }

  /** What the receivers yield for all buckets is what was packed if and only if no bucket repeats
      a name. */
  lemma ServedStreamIff(bs: seq<Bucket>)
    ensures Flatten(ServedAll(bs)) == Flatten(bs) <==> forall k :: 0 <= k < |bs| ==> NamesApart(bs[k])
  {
    hide Served, NamesApart;
    ServedAllIff(bs);
    ServedIsShorter(bs);
  }

  // ------------------------------------------------------------------- alignment

  /** Tensors cast to one dtype sit at offsets their dtype can be viewed at, in either half of the
      buffer, when its item size divides the bucket size. */
  lemma {:induction false} ViewsAlign(b: Bucket, j: nat, itemsize: nat, bucketSize: nat)
    requires j <= |b| && 0 < itemsize && bucketSize % itemsize == 0
    requires forall i :: 0 <= i < |b| ==> |b[i].bytes| % itemsize == 0
    ensures Offset(b, j) % itemsize == 0 && (bucketSize + Offset(b, j)) % itemsize == 0
    decreases j
  {
    if j > 0 {
      ViewsAlign(b, j - 1, itemsize, bucketSize);
      assert b[..j][..j - 1] == b[..j - 1];
      assert Offset(b, j) == Offset(b, j - 1) + |b[j - 1].bytes|;
      ModSum(Offset(b, j - 1), |b[j - 1].bytes|, itemsize);
    } else {
      assert b[..0] == [];
    }
    ModSum(bucketSize, Offset(b, j), itemsize);
  }
}
