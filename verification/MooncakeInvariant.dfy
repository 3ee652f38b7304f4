/** The Mooncake relay keeps its invariant in every step, so every transfer reads
    the bucket that was announced. */
module MooncakeInvariant {
  import opened Flattening
  import opened Chunks
  import opened MooncakeBuckets
  import opened MooncakeChain

  // ------------------------------------------------------------ facts on bytes

  lemma {:induction false} ContentPrefix(b: Bucket, i: nat, j: nat)
    requires i <= j <= |b|
    ensures |Content(b[..i])| <= |Content(b[..j])|
    ensures Content(b[..j])[..|Content(b[..i])|] == Content(b[..i])
    decreases j
  {
    if i < j {
      assert b[..j][..j - 1] == b[..j - 1];
      ContentPrefix(b, i, j - 1);
      var c := Content(b[..j - 1]);
      assert Content(b[..j]) == c + b[j - 1].bytes;
      assert Content(b[..j])[..|Content(b[..i])|] == c[..|Content(b[..i])|];
    }
  }

  // Part j of a bucket is the window of its content at its offset.
  lemma PartWindow(b: Bucket, j: nat)
    requires j < |b|
    ensures Offset(b, j) + |b[j].bytes| <= |Content(b)|
    ensures Content(b)[Offset(b, j)..Offset(b, j) + |b[j].bytes|] == b[j].bytes
  {
    assert b[..|b|] == b;
    ContentPrefix(b, j + 1, |b|);
    assert b[..j + 1][..j] == b[..j];
    var c, o := Content(b[..j + 1]), Offset(b, j);
    assert c == Content(b[..j]) + b[j].bytes;
    assert Content(b)[..|c|] == c;
    assert Content(b)[o..o + |b[j].bytes|] == c[o..o + |b[j].bytes|];
  }

  lemma OverwritePrefix(half: seq<Byte>, pre: seq<Byte>, bytes: seq<Byte>)
    requires |pre| + |bytes| <= |half| && half[..|pre|] == pre
    ensures |Overwrite(half, |pre|, bytes)| == |half|
    ensures Overwrite(half, |pre|, bytes)[..|pre| + |bytes|] == pre + bytes
  {
    assert Overwrite(half, |pre|, bytes)[..|pre| + |bytes|] == half[..|pre|] + bytes;
  }

  lemma FillPart(half: seq<Byte>, b: Bucket, j: nat)
    requires j < |b| && |Content(b)| <= |half|
    requires Offset(b, j) <= |half| && half[..Offset(b, j)] == Content(b[..j])
    ensures var half' := Overwrite(half, Offset(b, j), b[j].bytes);
            && |half'| == |half| && Offset(b, j + 1) <= |half|
            && half'[..Offset(b, j + 1)] == Content(b[..j + 1])
  {
    hide Overwrite, Content;
    PartWindow(b, j);
    ContentSnoc(b[..j], b[j]);
    assert b[..j + 1] == b[..j] + [b[j]];
    OverwritePrefix(half, Content(b[..j]), b[j].bytes);
  }

  lemma ReadStamps(half: seq<Byte>, source: seq<Byte>, content: seq<Byte>)
    requires |half| == |source| && |half| >= 4 && Stamped(source, content, false)
    ensures Window(source, 0, |content|) == content
    ensures |Overwrite(half, 0, content)| == |half|
    ensures Stamped(Overwrite(half, 0, content), content, false)
  {
    assert Overwrite(half, 0, content)[..|content|] == content;
  }

  lemma AckStamps(half: seq<Byte>, content: seq<Byte>)
    requires Stamped(half, content, false)
    ensures |Overwrite(half, 0, MAGIC)| == |half|
    ensures Stamped(Overwrite(half, 0, MAGIC), content, true)
  {
    var half' := Overwrite(half, 0, MAGIC);
    assert half'[..4] == MAGIC;
    if |content| > 4 {
      assert half'[4..|content|] == half[4..|content|];
      assert half[4..|content|] == half[..|content|][4..];
    }
  }

  // ----------------------------------------------------------- program steps

  // Rank r with its two neighbours; the last rank has no successor.
  ghost predicate Around(cfg: Config, r: nat, l: Local, next: Rank) {
    && cfg.Valid() && r <= cfg.last && RankInv(cfg, r, l.me)
    && (r > 0 ==> RankInv(cfg, r - 1, l.prev) && LinkInv(cfg, l.prev, l.me, l.inq))
    && (if r < cfg.last then LinkInv(cfg, l.me, next, l.outq) else Halves(cfg, l.me, 0))
  }

  ghost predicate Kept(cfg: Config, r: nat, l: Local, l': Local, next: Rank) {
    && Around(cfg, r, l', next)
    && l'.prev == l.prev.(h0 := l'.prev.h0, h1 := l'.prev.h1)
  }

  lemma IncomingSame(cfg: Config, prev: Rank, me: Rank, me': Rank, queue: seq<Info>)
    requires LinkInv(cfg, prev, me, queue) && Taken(me') == Taken(me) && Acked(me') == Acked(me)
    ensures LinkInv(cfg, prev, me', queue)
  {
  }

  lemma OutgoingSame(cfg: Config, me: Rank, me': Rank, next: Rank, queue: seq<Info>)
    requires LinkInv(cfg, me, next, queue)
    requires Sent(me') == Sent(me) && Held(me') == Held(me) && Begun(me') == Begun(me)
    requires Cleared(me') == Cleared(me) || Cleared(me') <= Acked(next) + 2
    requires me'.h0 == me.h0 && me'.h1 == me.h1
    ensures LinkInv(cfg, me', next, queue)
  {
  }

  lemma HalvesSame(cfg: Config, me: Rank, me': Rank, acks: nat)
    requires Halves(cfg, me, acks) && Held(me') == Held(me) && Begun(me') == Begun(me)
    requires me'.h0 == me.h0 && me'.h1 == me.h1
    ensures Halves(cfg, me', acks)
  {
  }

  // Waiting ends only when the bucket two before has been acknowledged.
  lemma WaitMeansAcked(cfg: Config, me: Rank, next: Rank, queue: seq<Info>)
    requires cfg.NoFalseAck() && LinkInv(cfg, me, next, queue)
    requires me.pc in {Wait, WaitHalf} && 2 <= me.k < |cfg.buckets| && Acknowledged(me.Half(Odd(me.k)))
    ensures me.k + 1 <= Acked(next) + 2
  {
    assert Odd(me.k - 2) == Odd(me.k);
    assert Stamped(me.Half(Odd(me.k - 2)), Content(cfg.buckets[me.k - 2]), me.k - 2 < Acked(next));
  }

  lemma InfosSnoc(cfg: Config, queue: seq<Info>, from: nat, info: Info)
    requires Infos(cfg, queue, from) && InfoOf(cfg, info, from + |queue|)
    ensures Infos(cfg, queue + [info], from)
  {
    hide InfoOf;
  }

  lemma QueueSnoc(cfg: Config, me: Rank, me': Rank, next: Rank, queue: seq<Info>, info: Info)
    requires LinkInv(cfg, me, next, queue) && InfoOf(cfg, info, Sent(me)) && Sent(me') == Sent(me) + 1
    requires Held(me') == Held(me) && Begun(me') == Begun(me) && Cleared(me') == Cleared(me)
    requires me'.h0 == me.h0 && me'.h1 == me.h1
    ensures LinkInv(cfg, me', next, queue + [info])
  {
    HalvesSame(cfg, me, me', Acked(next));
    hide Halves, Infos;
    InfosSnoc(cfg, queue, Taken(next), info);
  }

  // Beginning to write the half of bucket k leaves only bucket k - 1 in the other half.
  lemma HalvesBegin(cfg: Config, me: Rank, me': Rank, acks: nat)
    requires Halves(cfg, me, acks) && Held(me) == me.k == me'.k && Begun(me') == me.k + 1
    requires |me'.h0| == cfg.bucketSize && |me'.h1| == cfg.bucketSize
    requires me'.Half(!Odd(me.k)) == me.Half(!Odd(me.k))
    requires Held(me') == me.k
      || (Held(me') == me.k + 1 <= |cfg.buckets| && acks <= me.k &&
          Stamped(me'.Half(Odd(me.k)), Content(cfg.buckets[me.k]), false))
    ensures Halves(cfg, me', acks)
  {
    forall i | 0 <= i < Held(me') && i >= Begun(me') - 2
      ensures Stamped(me'.Half(Odd(i)), Content(cfg.buckets[i]), i < acks)
    {
      if i < me.k {
        assert i == me.k - 1;
        assert Odd(i) == !Odd(me.k);
        assert Stamped(me.Half(Odd(i)), Content(cfg.buckets[i]), i < acks);
      }
    }
  }

  lemma SentHeld(cfg: Config, a: Rank, b: Rank, queue: seq<Info>)
    requires LinkInv(cfg, a, b, queue)
    ensures Acked(b) <= Taken(b) <= Sent(a) <= Held(a)
  {
  }

  lemma LinkFacts(cfg: Config, a: Rank, b: Rank, queue: seq<Info>)
    requires LinkInv(cfg, a, b, queue)
    ensures Halves(cfg, a, Acked(b)) && Begun(a) <= Cleared(a) <= Acked(b) + 2
  {
  }

  lemma FillKeeps(cfg: Config, l: Local, next: Rank)
    requires Around(cfg, 0, l, next) && l.me.pc == Fill
    ensures Kept(cfg, 0, l, RunRank(cfg, 0, l), next)
  {
    hide Content, Stamped, InfoOf, Overwrite, Offset;
    var me, b := l.me, cfg.buckets[l.me.k];
    SentHeld(cfg, me, next, l.outq);
    var l' := RunRank(cfg, 0, l);
    if me.j < |b| {
      FillPart(me.Half(Odd(me.k)), b, me.j);
    } else {
      FullBucket(me.Half(Odd(me.k)), b);
    }
    HalvesBegin(cfg, me, l'.me, Acked(next));
  }

  lemma FullBucket(half: seq<Byte>, b: Bucket)
    requires |half| >= 4 && |Content(b)| <= |half| && Offset(b, |b|) <= |half| &&
        half[..Offset(b, |b|)] == Content(b[..|b|])
    ensures Stamped(half, Content(b), false)
  {
    assert b[..|b|] == b;
  }

  lemma SendKeeps(cfg: Config, l: Local, next: Rank)
    requires Around(cfg, 0, l, next) && l.me.pc == Send
    ensures Kept(cfg, 0, l, RunRank(cfg, 0, l), next)
  {
    hide Content, Stamped, Views, Halves;
    var me := l.me;
    var b := cfg.buckets[me.k];
    var info := Info(Views(b), Odd(me.k), |Content(b)|, cfg.IsLast(me.k));
    var l' := RunRank(cfg, 0, l);
    SendQueues(cfg, me, l'.me, next, l.outq, info);
    if l'.me.pc == Fill {
      assert Content(cfg.buckets[l'.me.k][..0]) == [] by { EmptyContent(cfg.buckets[l'.me.k]); }
    }
  }

  lemma EmptyContent(b: Bucket)
    ensures Content(b[..0]) == []
  {
  }

  // After sending bucket k the sender finishes, or turns to the half of bucket k - 1.
  lemma SendQueues(cfg: Config, me: Rank, me': Rank, next: Rank, queue: seq<Info>, info: Info)
    requires LinkInv(cfg, me, next, queue) && me.pc == Send && InfoOf(cfg, info, me.k)
    requires me'.h0 == me.h0 && me'.h1 == me.h1
    requires (me'.pc == FinalWait && me'.k == me.k) || (me'.pc == (if me.k + 1 >= 2 then Wait else Fill) &&
        me'.k == me.k + 1)
    ensures LinkInv(cfg, me', next, queue + [info])
  {
    hide Stamped, Content, Views, Infos;
    InfosSnoc(cfg, queue, Taken(next), info);
    assert Halves(cfg, me', Acked(next)) by {
      forall i | 0 <= i < Held(me') && i >= Begun(me') - 2
        ensures Stamped(me'.Half(Odd(i)), Content(cfg.buckets[i]), i < Acked(next))
      {
        assert Stamped(me.Half(Odd(i)), Content(cfg.buckets[i]), i < Acked(next));
      }
    }
  }

  lemma WaitKeeps(cfg: Config, l: Local, next: Rank)
    requires Around(cfg, 0, l, next) && cfg.NoFalseAck()
    requires l.me.pc in {Wait, FinalWait} && CanRun(l.me, l.inq)
    ensures Kept(cfg, 0, l, RunRank(cfg, 0, l), next)
  {
    hide Stamped, Views, InfoOf;
    var me, l' := l.me, RunRank(cfg, 0, l);
    if me.pc == Wait {
      WaitMeansAcked(cfg, me, next, l.outq);
      HalvesBegin(cfg, me, l'.me, Acked(next));
      EmptyContent(cfg.buckets[me.k]);
    }
  }

  lemma QueueTail(cfg: Config, prev: Rank, me: Rank, me': Rank, queue: seq<Info>)
    requires LinkInv(cfg, prev, me, queue) && queue != []
    requires Taken(me') == Taken(me) + 1 && Acked(me') == Acked(me)
    ensures InfoOf(cfg, queue[0], Taken(me)) && LinkInv(cfg, prev, me', queue[1..])
  {
    hide Halves, InfoOf;
    assert InfoOf(cfg, queue[0], Taken(me) + 0);
    forall i | 0 <= i < |queue[1..]| ensures InfoOf(cfg, queue[1..][i], Taken(me) + 1 + i) {
      assert InfoOf(cfg, queue[i + 1], Taken(me) + (i + 1));
    }
  }

  lemma RecvKeeps(cfg: Config, r: nat, l: Local, next: Rank)
    requires Around(cfg, r, l, next) && r > 0 && l.me.pc == Recv && l.inq != []
    ensures Kept(cfg, r, l, RunRank(cfg, r, l), next)
  {
    hide LinkInv, Halves, InfoOf;
    var me, l' := l.me, RunRank(cfg, r, l);
    QueueTail(cfg, l.prev, me, l'.me, l.inq);
    if r < cfg.last {
      LinkFacts(cfg, me, next, l.outq);
      OutgoingSame(cfg, me, l'.me, next, l.outq);
    } else {
      HalvesSame(cfg, me, l'.me, 0);
    }
  }

  lemma WaitHalfKeeps(cfg: Config, r: nat, l: Local, next: Rank)
    requires Around(cfg, r, l, next) && r > 0 && cfg.NoFalseAck() && l.me.pc == WaitHalf && CanRun(l.me, l.inq)
    ensures Kept(cfg, r, l, RunRank(cfg, r, l), next)
  {
    hide Content, Stamped, Views, InfoOf, Halves;
    var me, l' := l.me, RunRank(cfg, r, l);
    IncomingSame(cfg, l.prev, me, l'.me, l.inq);
    if r < cfg.last {
      WaitMeansAcked(cfg, me, next, l.outq);
      OutgoingSame(cfg, me, l'.me, next, l.outq);
    } else {
      HalvesSame(cfg, me, l'.me, 0);
    }
  }

  /** The bucket that is about to be read is still in the predecessor's half. */
  lemma SourceIntact(cfg: Config, prev: Rank, me: Rank, queue: seq<Info>)
    requires LinkInv(cfg, prev, me, queue) && ReceiverInv(cfg, me) && me.pc in {WaitHalf, Read, Forward, Yield, Ack}
    ensures Stamped(prev.Half(me.info.ptr), Content(cfg.buckets[me.k]), false)
    ensures |prev.Half(me.info.ptr)| == cfg.bucketSize
  {
    SentHeld(cfg, prev, me, queue);
    assert Stamped(prev.Half(Odd(me.k)), Content(cfg.buckets[me.k]), me.k < Acked(me));
  }

  lemma ReadKeeps(cfg: Config, r: nat, l: Local, next: Rank)
    requires Around(cfg, r, l, next) && r > 0 && l.me.pc == Read
    ensures Kept(cfg, r, l, RunRank(cfg, r, l), next)
  {
    hide Content, Stamped, Views, Overwrite, Window;
    var me, l' := l.me, RunRank(cfg, r, l);
    IncomingSame(cfg, l.prev, me, l'.me, l.inq);
    SourceIntact(cfg, l.prev, me, l.inq);
    ReadStamps(me.Half(Odd(me.k)), l.prev.Half(me.info.ptr), Content(cfg.buckets[me.k]));
    HalvesBegin(cfg, me, l'.me, if r < cfg.last then Acked(next) else 0);
  }

  lemma ForwardKeeps(cfg: Config, r: nat, l: Local, next: Rank)
    requires Around(cfg, r, l, next) && r > 0 && l.me.pc == Forward
    ensures Kept(cfg, r, l, RunRank(cfg, r, l), next)
  {
    hide Content, Stamped, Views, Halves;
    var me, l' := l.me, RunRank(cfg, r, l);
    IncomingSame(cfg, l.prev, me, l'.me, l.inq);
    if r < cfg.last {
      QueueSnoc(cfg, me, l'.me, next, l.outq, me.info.(ptr := Odd(me.k)));
    } else {
      HalvesSame(cfg, me, l'.me, 0);
    }
  }

  lemma YieldKeeps(cfg: Config, r: nat, l: Local, next: Rank)
    requires Around(cfg, r, l, next) && r > 0 && l.me.pc == Yield
    ensures Kept(cfg, r, l, RunRank(cfg, r, l), next)
  {
    hide Content, Stamped, Views, Halves, Window;
    var me, l' := l.me, RunRank(cfg, r, l);
    IncomingSame(cfg, l.prev, me, l'.me, l.inq);
    if r < cfg.last {
      OutgoingSame(cfg, me, l'.me, next, l.outq);
    } else {
      HalvesSame(cfg, me, l'.me, 0);
    }
  }

  // Acknowledging bucket k stamps it and nothing else the predecessor holds.
  lemma HalvesStamped(cfg: Config, prev: Rank, prev': Rank, k: nat)
    requires Halves(cfg, prev, k) && k < Held(prev) && Begun(prev) <= k + 2 && Held(prev) <= Begun(prev)
    requires Held(prev') == Held(prev) && Begun(prev') == Begun(prev)
    requires prev'.Half(!Odd(k)) == prev.Half(!Odd(k))
    requires |prev'.Half(Odd(k))| == cfg.bucketSize && Stamped(prev'.Half(Odd(k)), Content(cfg.buckets[k]), true)
    ensures Halves(cfg, prev', k + 1)
  {
    hide Stamped;
    forall i | 0 <= i < Held(prev') && i >= Begun(prev') - 2
      ensures Stamped(prev'.Half(Odd(i)), Content(cfg.buckets[i]), i < k + 1)
    {
      if i != k {
        assert i == k - 1 || i == k + 1;
        assert Odd(i) == !Odd(k);
        assert Stamped(prev.Half(Odd(i)), Content(cfg.buckets[i]), i < k);
      }
    }
  }

  // The predecessor is not filling the half that is acknowledged.
  lemma StampKeepsRank(cfg: Config, r: nat, prev: Rank, prev': Rank, k: nat)
    requires RankInv(cfg, r, prev) && k < Sent(prev) && Begun(prev) <= k + 2
    requires prev' == prev.(h0 := prev'.h0, h1 := prev'.h1) && prev'.Half(!Odd(k)) == prev.Half(!Odd(k))
    ensures RankInv(cfg, r, prev')
  {
    hide Content, InfoOf;
    if r == 0 && prev.pc == Fill {
      assert prev.k == k + 1 && Odd(prev.k) == !Odd(k);
    }
  }

  lemma StampKeepsLink(cfg: Config, prev: Rank, prev': Rank, me: Rank, me': Rank, queue: seq<Info>)
    requires LinkInv(cfg, prev, me, queue) && Halves(cfg, prev', Acked(me'))
    requires prev' == prev.(h0 := prev'.h0, h1 := prev'.h1)
    requires Taken(me') == Taken(me) && Acked(me') == Acked(me) + 1
    ensures LinkInv(cfg, prev', me', queue)
  {
    hide Halves, InfoOf;
  }

  lemma AckTurns(cfg: Config, r: nat, me: Rank, me': Rank)
    requires r > 0 && RankInv(cfg, r, me) && me.pc == Ack
    requires me' == if me.info.isLast then me.(pc := Done) else me.(pc := Recv, k := me.k + 1)
    ensures RankInv(cfg, r, me') && me.info.ptr == Odd(me.k) && me.k < |cfg.buckets|
    ensures Sent(me') == Sent(me) && Held(me') == Held(me) && Begun(me') == Begun(me) && Cleared(me') == Cleared(me)
    ensures Taken(me') == Taken(me) && Acked(me') == me.k + 1
  {
    hide Content, Views;
  }

  lemma AckKeeps(cfg: Config, r: nat, l: Local, next: Rank)
    requires Around(cfg, r, l, next) && r > 0 && l.me.pc == Ack
    ensures Kept(cfg, r, l, RunRank(cfg, r, l), next)
  {
    hide Content, Stamped, Overwrite, LinkInv, Halves, SenderInv, Slots, Views, InfoOf;
    var me, l' := l.me, RunRank(cfg, r, l);
    SourceIntact(cfg, l.prev, me, l.inq);
    AckTurns(cfg, r, me, l'.me);
    hide RankInv;
    SentHeld(cfg, l.prev, me, l.inq);
    LinkFacts(cfg, l.prev, me, l.inq);
    AckStamps(l.prev.Half(Odd(me.k)), Content(cfg.buckets[me.k]));
    HalvesStamped(cfg, l.prev, l'.prev, me.k);
    StampKeepsRank(cfg, r - 1, l.prev, l'.prev, me.k);
    StampKeepsLink(cfg, l.prev, l'.prev, me, l'.me, l.inq);
    if r < cfg.last {
      OutgoingSame(cfg, me, l'.me, next, l.outq);
    } else {
      HalvesSame(cfg, me, l'.me, 0);
    }
  }

  // -------------------------------------------------------------- last rank

  // A half that holds the whole bucket gives every part.
  lemma WindowIsPart(half: seq<Byte>, b: Bucket, j: nat)
    requires Stamped(half, Content(b), false) && j < |b|
    ensures Window(half, Offset(b, j), |b[j].bytes|) == b[j].bytes
  {
    PartWindow(b, j);
    hide Content, Offset;
  }

  lemma LastKeeps(cfg: Config, l: Local, next: Rank)
    requires Around(cfg, cfg.last, l, next) && CanRun(l.me, l.inq) && LastExact(cfg, l.me)
    ensures LastExact(cfg, RunRank(cfg, cfg.last, l).me)
  {
    hide Content, Flatten, Window, Overwrite, LinkInv, Stamped, Slots;
    var me := l.me;
    var served := ServedAll(cfg.buckets);
    if me.pc == Yield && me.j < |Slots(cfg.buckets[me.k])| {
      assert Stamped(me.Half(Odd(me.k)), Content(cfg.buckets[me.k]), me.k < 0);
      WindowIsPart(me.Half(Odd(me.k)), cfg.buckets[me.k], Slots(cfg.buckets[me.k])[me.j]);
      hide Offset;
    } else if me.pc == Ack && !me.info.isLast {
      FlattenNext(served, me.k);
    }
  }

  // ------------------------------------------------------------- global steps

  function NextOf(s: State, r: nat): Rank
    requires r < |s.ranks|
  {
    if r + 1 < |s.ranks| then s.ranks[r + 1] else s.ranks[r]
  }

  function LocalOf(cfg: Config, s: State, r: nat): Local
    requires Sized(cfg, s) && r <= cfg.last
  {
    Local(PrevOf(s, r), s.ranks[r], s.queues[r], s.queues[r + 1])
  }

  lemma AroundRank(cfg: Config, s: State, r: nat)
    requires cfg.Valid() && Inv(cfg, s) && r <= cfg.last
    ensures Around(cfg, r, LocalOf(cfg, s, r), NextOf(s, r))
  {
    hide RankInv, LinkInv, Halves, LastExact;
    if r > 0 {
      assert LinkInv(cfg, s.ranks[r - 1], s.ranks[r], s.queues[r]);
      assert RankInv(cfg, r - 1, s.ranks[r - 1]);
    }
    if r < cfg.last {
      assert LinkInv(cfg, s.ranks[(r + 1) - 1], s.ranks[r + 1], s.queues[r + 1]);
    }
  }

  lemma RunKeeps(cfg: Config, r: nat, l: Local, next: Rank)
    requires Around(cfg, r, l, next) && cfg.NoFalseAck() && CanRun(l.me, l.inq)
    ensures Kept(cfg, r, l, RunRank(cfg, r, l), next)
  {
    hide LinkInv, Halves, InfoOf;
    match l.me.pc
    case Fill => FillKeeps(cfg, l, next);
    case Send => SendKeeps(cfg, l, next);
    case Wait => WaitKeeps(cfg, l, next);
    case FinalWait => WaitKeeps(cfg, l, next);
    case Recv => RecvKeeps(cfg, r, l, next);
    case WaitHalf => WaitHalfKeeps(cfg, r, l, next);
    case Read => ReadKeeps(cfg, r, l, next);
    case Forward => ForwardKeeps(cfg, r, l, next);
    case Yield => YieldKeeps(cfg, r, l, next);
    case Ack => AckKeeps(cfg, r, l, next);
  }

  lemma HalvesOnly(cfg: Config, a: Rank, b: Rank, b': Rank, queue: seq<Info>)
    requires LinkInv(cfg, a, b, queue) && b' == b.(h0 := b'.h0, h1 := b'.h1)
    ensures LinkInv(cfg, a, b', queue)
  {
  }

  lemma StepKeeps(cfg: Config, s: State, r: nat)
    requires cfg.Valid() && cfg.NoFalseAck() && Inv(cfg, s) && Enabled(cfg, s, r)
    ensures Inv(cfg, Step(cfg, s, r))
  {
    hide RankInv, LinkInv, Halves, RunRank, LastExact;
    var l, next := LocalOf(cfg, s, r), NextOf(s, r);
    AroundRank(cfg, s, r);
    RunKeeps(cfg, r, l, next);
    var l' := RunRank(cfg, r, l);
    var s' := Step(cfg, s, r);
    forall i | 0 <= i <= cfg.last ensures RankInv(cfg, i, s'.ranks[i]) {
      assert RankInv(cfg, i, s.ranks[i]);
    }
    forall i | 0 < i <= cfg.last ensures LinkInv(cfg, s'.ranks[i - 1], s'.ranks[i], s'.queues[i]) {
      assert LinkInv(cfg, s.ranks[i - 1], s.ranks[i], s.queues[i]);
      if i == r - 1 {
        HalvesOnly(cfg, s.ranks[i - 1], s.ranks[i], l'.prev, s.queues[i]);
      }
    }
    if r == cfg.last {
      LastKeeps(cfg, l, next);
    } else {
      assert s'.ranks[cfg.last] == s.ranks[cfg.last];
    }
  }

  lemma InitialInv(cfg: Config, s: State)
    requires cfg.Valid() && Initial(cfg, s)
    ensures Inv(cfg, s)
  {
    EmptyContent(cfg.buckets[0]);
    assert Flatten(ServedAll(cfg.buckets)[..0]) + Served(cfg.buckets[0])[..0] == [];
    hide Content, Flatten, Stamped;
    forall r | 0 < r <= cfg.last ensures LinkInv(cfg, s.ranks[r - 1], s.ranks[r], s.queues[r]) {
    }
  }

  /** The invariant holds in every state of every run. */
  lemma {:induction false} RunInv(cfg: Config, run: seq<State>, i: nat)
    requires cfg.Valid() && cfg.NoFalseAck() && IsRun(cfg, run) && i < |run|
    ensures Inv(cfg, run[i])
  {
    hide Inv, Config.NoFalseAck;
    if i == 0 {
      InitialInv(cfg, run[0]);
    } else {
      RunInv(cfg, run, i - 1);
      var j := i - 1;
      assert Linked(cfg, run[j], run[j + 1]);
      var r: nat :| Enabled(cfg, run[j], r) && run[j + 1] == Step(cfg, run[j], r);
      StepKeeps(cfg, run[j], r);
    }
  }
}
