/** Every step of the NIXL relay keeps its invariant. */
module NixlInvariant {
  import opened Flattening
  import opened Chunks
  import opened Packing
  import opened BucketFacts
  import opened NixlChain

  // The part of the invariant that one rank's program step can touch.
  ghost predicate Around(cfg: Config, r: nat, prev: Rank, me: Rank, next: Rank, left: Link, right: Link) {
    && cfg.Valid() && r <= cfg.last && RankInv(cfg, r, me)
    && (if r > 0 then RankInv(cfg, r - 1, prev) && LinkInv(cfg, prev, me, left) else left == Link([], []))
    && (if r < cfg.last then LinkInv(cfg, me, next, right) else right == Link([], []))
  }

  ghost predicate Kept(cfg: Config, r: nat, prev: Rank, l: Local, next: Rank) {
    l.ok && Around(cfg, r, prev, l.me, next, l.left, l.right)
  }

  // ------------------------------------------------- links a step leaves alone

  lemma OutgoingSame(cfg: Config, me: Rank, me': Rank, next: Rank, right: Link)
    requires LinkInv(cfg, me, next, right)
    requires me'.op == me.op && Offers(me') == Offers(me)
    requires me.op.Some? ==> me'.Buf(me.op.value.desc) == me.Buf(me.op.value.desc)
    ensures LinkInv(cfg, me', next, right)
  {
  }

  lemma IncomingSame(cfg: Config, prev: Rank, me: Rank, me': Rank, left: Link)
    requires LinkInv(cfg, prev, me, left)
    requires me'.rd == me.rd && Taken(me') == Taken(me) && me'.Buf(!me'.send) == me.Buf(!me.send)
    ensures LinkInv(cfg, prev, me', left)
  {
  }

  // Popping the notification of an acknowledged offer leaves nothing outstanding, and the key is the offer's.
  lemma Acknowledged(cfg: Config, me: Rank, me': Rank, next: Rank, right: Link, right': Link)
    requires LinkInv(cfg, me, next, right) && me'.op == None && Offers(me') == Offers(me)
    requires if me.op.Some? then right.notes != [] && right' == right.(notes := right.notes[1..]) else right' == right
    ensures LinkInv(cfg, me', next, right')
    ensures me.op.Some? ==> right.notes[0] == me.op.value.key
  {
  }

  lemma IncomingTransfer(cfg: Config, prev: Rank, me: Rank, left: Link)
    requires LinkInv(cfg, prev, me, left) && me.rd.Reading?
    ensures prev.op.Some? && InTransfer(cfg, prev, me, prev.op.value)
    ensures left == Link([], []) && Taken(me) == Offers(prev)
  {
  }

  // --------------------------------------------------- program steps, by kind

  lemma FillKeeps(cfg: Config, me: Rank, prev: Rank, next: Rank, left: Link, right: Link)
    requires Around(cfg, 0, prev, me, next, left, right) && me.pc == Fill
    ensures Kept(cfg, 0, prev, RunFill(cfg, me, left, right), next)
  {
    hide WellLaid, Used, Holds, Flatten, Write;
    var b := cfg.buckets[me.k];
    if me.j < |b| {
      WriteHolds(me.Buf(me.send), b, me.j);
    } else {
      assert b[..me.j] == b;
    }
  }

  lemma AwaitKeeps(cfg: Config, r: nat, prev: Rank, me: Rank, next: Rank, left: Link, right: Link, pc: Pc)
    requires Around(cfg, r, prev, me, next, left, right)
    requires me.op.Some? ==> right.notes != []
    requires pc == match me.pc
                   case FlushWait => Announce
                   case LastWait => Done
                   case AwaitAck => if me.isLast then Done else AwaitRead
                   case _ => Fill
    requires me.pc in {FlushWait, LastWait, AwaitAck}
    ensures Kept(cfg, r, prev, Await(me, left, right, pc), next)
  {
    hide WellLaid, Used, Holds, Flatten, LinkInv;
    var l := Await(me, left, right, pc);
    if r > 0 {
      IncomingSame(cfg, prev, me, l.me, left);
    }
    if r < cfg.last {
      Acknowledged(cfg, me, l.me, next, right, l.right);
    }
  }

  lemma BeginKeeps(cfg: Config, r: nat, prev: Rank, me: Rank, next: Rank, left: Link, right: Link)
    requires Around(cfg, r, prev, me, next, left, right) && r > 0
    requires me.pc in {First, Next} && left.msgs != []
    ensures Kept(cfg, r, prev, Begin(me, left, right, if me.pc == First then FirstRead else Yield), next)
  {
    hide WellLaid, Used, Holds, Flatten;
    var l := Begin(me, left, right, if me.pc == First then FirstRead else Yield);
    var o := prev.op.value;
    assert l.me.Buf(!l.me.send)[..0] == prev.Buf(o.desc)[..0];
    assert InTransfer(cfg, prev, l.me, o);
  }

  lemma TakeUpKeeps(cfg: Config, r: nat, prev: Rank, me: Rank, next: Rank, left: Link, right: Link)
    requires Around(cfg, r, prev, me, next, left, right) && r > 0
    requires me.pc in {FirstRead, AwaitRead} && me.rd.Landed?
    ensures Kept(cfg, r, prev, TakeUp(me, left, right, if me.pc == FirstRead then 0 else me.k + 1), next)
  {
    hide WellLaid, Used, Holds, Flatten;
    if me.pc == AwaitRead {
      FlattenNext(cfg.buckets, me.k);
    } else {
      FirstBucket(cfg.buckets);
    }
  }

  lemma AnnounceKeeps(cfg: Config, prev: Rank, me: Rank, next: Rank, left: Link, right: Link, key: nat)
    requires Around(cfg, 0, prev, me, next, left, right) && me.pc == Announce
    ensures Kept(cfg, 0, prev, RunAnnounce(cfg, me, left, right, key), next)
  {
    hide WellLaid, Used, Holds, Flatten;
    if !cfg.IsLast(me.k) {
      HoldsNone(me.Buf(!me.send), cfg.buckets[me.k + 1]);
    }
  }

  lemma RelayKeeps(cfg: Config, r: nat, prev: Rank, me: Rank, next: Rank, left: Link, right: Link, key: nat)
    requires Around(cfg, r, prev, me, next, left, right) && r > 0 && me.pc == Relay
    ensures Kept(cfg, r, prev, RunRelay(cfg, r, me, left, right, key), next)
  {
    hide WellLaid, Used, Holds, Flatten;
  }

  lemma YieldKeeps(cfg: Config, r: nat, prev: Rank, me: Rank, next: Rank, left: Link, right: Link)
    requires Around(cfg, r, prev, me, next, left, right) && r > 0 && me.pc == Yield
    ensures Kept(cfg, r, prev, RunYield(me, left, right), next)
  {
    hide LinkInv, RankInv, Slice;
    var l := RunYield(me, left, right);
    YieldKeepsRank(cfg, r, me, left, right);
    IncomingSame(cfg, prev, me, l.me, left);
    if r < cfg.last {
      OutgoingSame(cfg, me, l.me, next, right);
    }
  }

  lemma RunKeeps(cfg: Config, r: nat, prev: Rank, me: Rank, next: Rank, left: Link, right: Link, key: nat)
    requires Around(cfg, r, prev, me, next, left, right) && CanRun(me, left, right)
    ensures Kept(cfg, r, prev, RunRank(cfg, r, me, left, right, key), next)
  {
    hide LinkInv, Holding, Receiving, Holds, OfferOf;
    match me.pc
    case Fill => FillKeeps(cfg, me, prev, next, left, right);
    case FlushWait => AwaitKeeps(cfg, r, prev, me, next, left, right, Announce);
    case Announce => AnnounceKeeps(cfg, prev, me, next, left, right, key);
    case LastWait => AwaitKeeps(cfg, r, prev, me, next, left, right, Done);
    case First => BeginKeeps(cfg, r, prev, me, next, left, right);
    case FirstRead => TakeUpKeeps(cfg, r, prev, me, next, left, right);
    case Relay => RelayKeeps(cfg, r, prev, me, next, left, right, key);
    case Next => BeginKeeps(cfg, r, prev, me, next, left, right);
    case Yield => YieldKeeps(cfg, r, prev, me, next, left, right);
    case AwaitAck => AwaitKeeps(cfg, r, prev, me, next, left, right, if me.isLast then Done else AwaitRead);
    case AwaitRead => TakeUpKeeps(cfg, r, prev, me, next, left, right);
  }

  // ----------------------------------------------------------- transfer steps

  lemma PutPrefix(content: seq<Byte>, source: seq<Byte>, pos: nat)
    requires pos < |content| == |source| && content[..pos] == source[..pos]
    ensures |Put(content, source, pos)| == |content|
    ensures Put(content, source, pos)[..pos + 1] == source[..pos + 1]
  {
    assert source[..pos + 1] == source[..pos] + [source[pos]];
    assert Put(content, source, pos)[..pos + 1] == content[..pos] + [source[pos]];
  }

  lemma BufferSizes(cfg: Config, r: nat, me: Rank)
    requires RankInv(cfg, r, me)
    ensures |me.b0| == cfg.bucketSize && |me.b1| == cfg.bucketSize
  {
  }

  lemma OutstandingOffer(cfg: Config, r: nat, me: Rank)
    requires RankInv(cfg, r, me) && me.op.Some?
    ensures r < cfg.last && OfferOf(cfg, me, me.op.value, Offers(me) - 1)
  {
  }

  // A transfer step changes a receiver's read_op and recv_buf only.
  lemma TransferKeepsRank(cfg: Config, r: nat, me: Rank, me': Rank)
    requires r > 0 && RankInv(cfg, r, me) && me.rd.Reading? && !me'.rd.Idle?
    requires me' == me.(rd := me'.rd, b0 := me'.b0, b1 := me'.b1)
    requires |me'.b0| == cfg.bucketSize && |me'.b1| == cfg.bucketSize && me'.Buf(me.send) == me.Buf(me.send)
    requires me'.rd.Landed? && 0 < Taken(me) <= |cfg.buckets| ==> Holds(me'.Buf(!me.send), cfg.buckets[Taken(me) - 1])
    ensures RankInv(cfg, r, me') && Taken(me') == Taken(me) && Offers(me') == Offers(me)
    ensures me.op.Some? ==> me'.Buf(me.op.value.desc) == me.Buf(me.op.value.desc)
  {
    hide WellLaid, Used, Holds, Flatten;
  }

  lemma YieldKeepsRank(cfg: Config, r: nat, me: Rank, left: Link, right: Link)
    requires cfg.Valid() && r > 0 && RankInv(cfg, r, me) && me.pc == Yield
    ensures var me' := RunYield(me, left, right).me;
            RankInv(cfg, r, me') && Taken(me') == Taken(me) && Offers(me') == Offers(me)
  {
    hide WellLaid, Used, Holds, Flatten, Slice;
    if me.j < |me.metas| {
      SliceIsChunk(me.Buf(me.send), cfg.buckets[me.k], me.j);
    }
  }

  lemma CopyLink(cfg: Config, prev: Rank, me: Rank, me': Rank, left: Link)
    requires prev.op.Some? && left == Link([], []) && Taken(me') == Offers(prev)
    requires InTransfer(cfg, prev, me, prev.op.value) && me.rd.pos < cfg.bucketSize
    requires me'.rd == me.rd.(pos := me.rd.pos + 1) && |me'.Buf(!me'.send)| == cfg.bucketSize
    requires me'.Buf(!me'.send)[..me.rd.pos + 1] == prev.Buf(me.rd.offer.desc)[..me.rd.pos + 1]
    ensures LinkInv(cfg, prev, me', left)
  {
  }

  lemma CopyKeeps(cfg: Config, r: nat, prev: Rank, me: Rank, next: Rank, left: Link, right: Link)
    requires Around(cfg, r, prev, me, next, left, right) && r > 0
    requires me.rd.Reading? && me.rd.pos < cfg.bucketSize
    ensures Kept(cfg, r, prev, Local(CopyByte(prev, me), left, right, true), next)
  {
    hide RankInv, Put, LinkInv;
    var me' := CopyByte(prev, me);
    IncomingTransfer(cfg, prev, me, left);
    PutPrefix(me.Buf(!me.send), prev.Buf(me.rd.offer.desc), me.rd.pos);
    BufferSizes(cfg, r, me);
    TransferKeepsRank(cfg, r, me, me');
    if r < cfg.last {
      OutgoingSame(cfg, me, me', next, right);
    }
    assert LinkInv(cfg, prev, me', left) by {
      CopyLink(cfg, prev, me, me', left);
    }
  }

  lemma LandKeeps(cfg: Config, r: nat, prev: Rank, me: Rank, next: Rank, left: Link, right: Link)
    requires Around(cfg, r, prev, me, next, left, right) && r > 0
    requires me.rd.Reading? && me.rd.pos == cfg.bucketSize
    ensures Kept(cfg, r, prev, Local(me.(rd := Landed), left.(notes := left.notes + [me.rd.offer.key]), right, true),
        next)
  {
    hide RankInv, LinkInv, Holds;
    var me', left' := me.(rd := Landed), left.(notes := left.notes + [me.rd.offer.key]);
    IncomingTransfer(cfg, prev, me, left);
    var o := prev.op.value;
    assert me.Buf(!me.send) == prev.Buf(o.desc) by {
      assert me.Buf(!me.send)[..me.rd.pos] == me.Buf(!me.send);
      assert prev.Buf(o.desc)[..me.rd.pos] == prev.Buf(o.desc);
    }
    OutstandingOffer(cfg, r - 1, prev);
    BufferSizes(cfg, r, me);
    TransferKeepsRank(cfg, r, me, me');
    if r < cfg.last {
      OutgoingSame(cfg, me, me', next, right);
    }
    assert LinkInv(cfg, prev, me', left') by {
      LandLink(cfg, prev, me', left', o);
    }
  }

  lemma LandLink(cfg: Config, prev: Rank, me: Rank, left: Link, o: Offer)
    requires prev.op == Some(o) && left == Link([], [o.key]) && me.rd.Landed? && Taken(me) == Offers(prev)
    ensures LinkInv(cfg, prev, me, left)
  {
  }

  // ------------------------------------------------------------- global steps

  function PrevOf(s: State, r: nat): Rank
    requires r < |s.ranks|
  {
    if r > 0 then s.ranks[r - 1] else s.ranks[r]
  }

  function NextOf(s: State, r: nat): Rank
    requires r < |s.ranks|
  {
    if r + 1 < |s.ranks| then s.ranks[r + 1] else s.ranks[r]
  }

  lemma AroundRank(cfg: Config, s: State, r: nat)
    requires cfg.Valid() && Inv(cfg, s) && r <= cfg.last
    ensures Around(cfg, r, PrevOf(s, r), s.ranks[r], NextOf(s, r), s.links[r], s.links[r + 1])
  {
    hide RankInv;
    if r > 0 {
      assert LinkInv(cfg, s.ranks[r - 1], s.ranks[r], s.links[r]);
    }
    if r < cfg.last {
      assert LinkInv(cfg, s.ranks[(r + 1) - 1], s.ranks[r + 1], s.links[r + 1]);
    }
  }

  // Replacing one rank and its two links by values that fit around it gives the invariant back.
  lemma Reassemble(cfg: Config, s: State, r: nat, l: Local)
    requires cfg.Valid() && Inv(cfg, s) && r <= cfg.last
    requires Kept(cfg, r, PrevOf(s, r), l, NextOf(s, r))
    ensures Inv(cfg, State(s.ranks[r := l.me], s.links[r := l.left][r + 1 := l.right], s.failed || !l.ok))
  {
    hide RankInv, LinkInv;
    var s' := State(s.ranks[r := l.me], s.links[r := l.left][r + 1 := l.right], s.failed || !l.ok);
    forall i | 0 < i <= cfg.last ensures LinkInv(cfg, s'.ranks[i - 1], s'.ranks[i], s'.links[i]) {
      if i != r && i != r + 1 {
        assert LinkInv(cfg, s.ranks[i - 1], s.ranks[i], s.links[i]);
      }
    }
  }

  lemma StepKeeps(cfg: Config, s: State, a: Action)
    requires cfg.Valid() && Inv(cfg, s) && Enabled(cfg, s, a)
    ensures Inv(cfg, Apply(cfg, s, a))
  {
    hide RankInv, LinkInv;
    var r := a.r;
    var prev, me, next := PrevOf(s, r), s.ranks[r], NextOf(s, r);
    AroundRank(cfg, s, r);
    match a
    case Run(_, key) =>
      RunKeeps(cfg, r, prev, me, next, s.links[r], s.links[r + 1], key);
      Reassemble(cfg, s, r, RunRank(cfg, r, me, s.links[r], s.links[r + 1], key));
    case Copy(_) =>
      CopyKeeps(cfg, r, prev, me, next, s.links[r], s.links[r + 1]);
      Reassemble(cfg, s, r, Local(CopyByte(prev, me), s.links[r], s.links[r + 1], true));
      assert s.links[r := s.links[r]][r + 1 := s.links[r + 1]] == s.links;
    case Land(_) =>
      LandKeeps(cfg, r, prev, me, next, s.links[r], s.links[r + 1]);
      var left := s.links[r].(notes := s.links[r].notes + [me.rd.offer.key]);
      Reassemble(cfg, s, r, Local(me.(rd := Landed), left, s.links[r + 1], true));
      assert s.links[r := left][r + 1 := s.links[r + 1]] == s.links[r := left];
  }

  lemma InitialInv(cfg: Config, s: State)
    requires cfg.Valid() && Initial(cfg, s)
    ensures Inv(cfg, s)
  {
    HoldsNone(s.ranks[0].Buf(s.ranks[0].send), cfg.buckets[0]);
    hide Holds, WellLaid, Flatten;
    forall r | 0 <= r <= cfg.last ensures RankInv(cfg, r, s.ranks[r]) {
    }
    forall r | 0 < r <= cfg.last ensures LinkInv(cfg, s.ranks[r - 1], s.ranks[r], s.links[r]) {
    }
  }

  /** The invariant holds in every state of every run: whatever the interleaving,
      the notify keys and the initial buffer contents, no assertion ever fails. */
  lemma {:induction false} RunInv(cfg: Config, run: seq<State>, i: nat)
    requires cfg.Valid() && IsRun(cfg, run) && i < |run|
    ensures Inv(cfg, run[i])
  {
    hide Inv;
    if i == 0 {
      InitialInv(cfg, run[0]);
    } else {
      RunInv(cfg, run, i - 1);
      assert Follows(cfg, run[i - 1], run[i - 1 + 1]);
      var a :| Enabled(cfg, run[i - 1], a) && run[i - 1 + 1] == Apply(cfg, run[i - 1], a);
      StepKeeps(cfg, run[i - 1], a);
    }
  }
}
