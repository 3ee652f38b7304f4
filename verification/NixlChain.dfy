/** The NIXL relay (nixl_checkpoint_engine.py): rank 0 packs buckets, every rank
    offers the bucket it holds to its successor, reads its predecessor's next
    bucket into its other buffer, yields views of the one it holds, and swaps.

    The model is a step relation over ranks 0..last.  A rank runs its program one
    statement at a time; a transfer moves one byte at a time between `begin_read`
    and completion, and its completion notifies the predecessor.  Any enabled
    action of any rank may come next. */
module NixlChain {
  import opened Flattening
  import opened Chunks
  import opened Packing
  import opened BucketFacts
  import opened Failures

  datatype Config = Config(last: nat, bucketSize: nat, buckets: seq<Bucket>) {
    predicate Valid() {
      last >= 1 && |buckets| > 0 && AllWellLaid(buckets, bucketSize)
    }
    predicate IsLast(k: int) {
      k == |buckets| - 1
    }
  }

  // The message of a readable operation; `desc` names one of the sender's two buffers.
  datatype Offer = Offer(key: nat, metas: seq<TensorMeta>, isLast: bool, desc: bool)

  datatype Transfer = Idle | Reading(offer: Offer, pos: nat) | Landed

  datatype Pc =
    | Fill | FlushWait | Announce | LastWait                                   // rank 0
    | First | FirstRead | Relay | Next | Yield | AwaitAck | AwaitRead          // the others
    | Done

  datatype Rank = Rank(
    pc: Pc,
    k: nat,                    // bucket being filled or held
    j: nat,                    // chunks of it filled or yielded
    b0: seq<Byte>, b1: seq<Byte>,
    send: bool,                // which buffer is send_buf; the other is recv_buf
    op: Option<Offer>,         // readable_op not yet awaited
    rd: Transfer,              // read_op
    metas: seq<TensorMeta>, isLast: bool,
    nextMetas: seq<TensorMeta>, nextIsLast: bool,
    out: seq<Chunk>)           // chunks yielded
  {
    function Buf(which: bool): seq<Byte> {
      if which then b1 else b0
    }
    function WithBuf(which: bool, content: seq<Byte>): Rank {
      if which then this.(b1 := content) else this.(b0 := content)
    }
  }

  // Messages towards a rank and notifications back from it.
  datatype Link = Link(msgs: seq<Offer>, notes: seq<nat>)

  // links[r] joins rank r - 1 to rank r; links[0] and links[last + 1] have one end only and stay empty.
  datatype State = State(ranks: seq<Rank>, links: seq<Link>, failed: bool)

  datatype Action = Run(r: nat, key: nat) | Copy(r: nat) | Land(r: nat)

  // -------------------------------------------------------- one program step

  // A program step and what it does to the rank's two links; `ok` is false when an assertion failed.
  datatype Local = Local(me: Rank, left: Link, right: Link, ok: bool)

  predicate CanRun(me: Rank, left: Link, right: Link) {
    match me.pc
    case FlushWait => me.op.None? || right.notes != []
    case AwaitAck => me.op.None? || right.notes != []
    case LastWait => right.notes != []
    case First => left.msgs != []
    case Next => left.msgs != []
    case FirstRead => me.rd.Landed?
    case AwaitRead => me.rd.Landed?
    case Done => false
    case _ => true
  }

  // readable_op.wait_for_complete: pop the notification and compare its key
  function Await(me: Rank, left: Link, right: Link, pc: Pc): Local
    requires me.op.Some? ==> right.notes != []
  {
    if me.op.None? then Local(me.(pc := pc), left, right, true)
    else Local(me.(pc := pc, op := None), left, right.(notes := right.notes[1..]), right.notes[0] == me.op.value.key)
  }

  // ReadOperation.read_metadata and begin_read
  function Begin(me: Rank, left: Link, right: Link, pc: Pc): Local
    requires left.msgs != []
  {
    var o := left.msgs[0];
    Local(me.(pc := pc, j := 0, rd := Reading(o, 0), nextMetas := o.metas, nextIsLast := o.isLast),
          left.(msgs := left.msgs[1..]), right, true)
  }

  // swap the buffers and take up the bucket just read
  function TakeUp(me: Rank, left: Link, right: Link, k: nat): Local {
    Local(me.(pc := Relay, k := k, j := 0, send := !me.send, rd := Idle, metas := me.nextMetas,
        isLast := me.nextIsLast),
          left, right, true)
  }

  function RunFill(cfg: Config, me: Rank, left: Link, right: Link): Local {
    if me.k < |cfg.buckets| && me.j < |cfg.buckets[me.k]| then
      var c := cfg.buckets[me.k][me.j];
      var at := if c.meta.offset.Some? then c.meta.offset.value else 0;
      Local(me.WithBuf(me.send, Write(me.Buf(me.send), at, c.bytes)).(j := me.j + 1), left, right, true)
    else
      Local(me.(pc := FlushWait), left, right, true)
  }

  function RunAnnounce(cfg: Config, me: Rank, left: Link, right: Link, key: nat): Local {
    var metas := if me.k < |cfg.buckets| then Metas(cfg.buckets[me.k]) else [];
    var o := Offer(key, metas, cfg.IsLast(me.k), me.send);
    var right' := right.(msgs := right.msgs + [o]);
    if cfg.IsLast(me.k) then Local(me.(pc := LastWait, op := Some(o)), left, right', true)
    else Local(me.(pc := Fill, k := me.k + 1, j := 0, send := !me.send, op := Some(o)), left, right', true)
  }

  function RunRelay(cfg: Config, r: nat, me: Rank, left: Link, right: Link, key: nat): Local {
    var pc := if me.isLast then Yield else Next;
    if r == cfg.last then Local(me.(pc := pc), left, right, true)
    else
      var o := Offer(key, me.metas, me.isLast, me.send);
      Local(me.(pc := pc, op := Some(o)), left, right.(msgs := right.msgs + [o]), true)
  }

  function RunYield(me: Rank, left: Link, right: Link): Local {
    if me.j < |me.metas| then
      Local(me.(j := me.j + 1, out := me.out + [Slice(me.Buf(me.send), me.metas[me.j])]), left, right, true)
    else
      Local(me.(pc := AwaitAck), left, right, true)
  }

  function RunRank(cfg: Config, r: nat, me: Rank, left: Link, right: Link, key: nat): Local
    requires CanRun(me, left, right)
  {
    match me.pc
    case Fill => RunFill(cfg, me, left, right)
    case FlushWait => Await(me, left, right, Announce)
    case Announce => RunAnnounce(cfg, me, left, right, key)
    case LastWait => if me.op.None? then Local(me.(pc := Done), left, right, false) else Await(me, left, right, Done)
    case First => Begin(me, left, right, FirstRead)
    case FirstRead => TakeUp(me, left, right, 0)
    case Relay => RunRelay(cfg, r, me, left, right, key)
    case Next => Begin(me, left, right, Yield)
    case Yield => RunYield(me, left, right)
    case AwaitAck => Await(me, left, right, if me.isLast then Done else AwaitRead)
    case AwaitRead => TakeUp(me, left, right, me.k + 1)
    case Done => Local(me, left, right, true)
  }

  // ------------------------------------------------------------- global steps

  predicate Sized(cfg: Config, s: State) {
    |s.ranks| == cfg.last + 1 && |s.links| == cfg.last + 2
  }

  // The rank has raised: its program stops, though a transfer it began goes on.
  predicate Raised(cfg: Config, r: nat, me: Rank) {
    if r == 0 then me.pc == Fill && SenderRaises(cfg.buckets, me.k, me.j) else ReceiverRaises(me.out, cfg.bucketSize)
  }

  predicate Enabled(cfg: Config, s: State, a: Action)
    requires Sized(cfg, s)
  {
    a.r <= cfg.last &&
    match a
    case Run(r, _) => CanRun(s.ranks[r], s.links[r], s.links[r + 1]) && !Raised(cfg, r, s.ranks[r])
    case Copy(r) => r > 0 && s.ranks[r].rd.Reading? && s.ranks[r].rd.pos < cfg.bucketSize
    case Land(r) => r > 0 && s.ranks[r].rd.Reading? && s.ranks[r].rd.pos == cfg.bucketSize
  }

  function Put(content: seq<Byte>, source: seq<Byte>, pos: nat): seq<Byte> {
    if pos < |content| && pos < |source| then content[pos := source[pos]] else content
  }

  function CopyByte(prev: Rank, me: Rank): Rank
    requires me.rd.Reading?
  {
    var pos := me.rd.pos;
    me.WithBuf(!me.send, Put(me.Buf(!me.send), prev.Buf(me.rd.offer.desc), pos)).(rd := me.rd.(pos := pos + 1))
  }

  function Apply(cfg: Config, s: State, a: Action): State
    requires Sized(cfg, s) && Enabled(cfg, s, a)
  {
    match a
    case Run(r, key) =>
      var l := RunRank(cfg, r, s.ranks[r], s.links[r], s.links[r + 1], key);
      State(s.ranks[r := l.me], s.links[r := l.left][r + 1 := l.right], s.failed || !l.ok)
    case Copy(r) =>
      s.(ranks := s.ranks[r := CopyByte(s.ranks[r - 1], s.ranks[r])])
    case Land(r) =>
      s.(ranks := s.ranks[r := s.ranks[r].(rd := Landed)],
         links := s.links[r := s.links[r].(notes := s.links[r].notes + [s.ranks[r].rd.offer.key])])
  }

  // Buffers start with arbitrary contents of the right length.
  predicate Initial(cfg: Config, s: State) {
    && Sized(cfg, s) && !s.failed
    && (forall r :: 0 <= r <= cfg.last ==>
          var me := s.ranks[r];
          && |me.b0| == cfg.bucketSize && |me.b1| == cfg.bucketSize
          && me.pc == (if r == 0 then Fill else First)
          && me.k == 0 && me.j == 0 && me.op == None && me.rd == Idle && me.out == [])
    && (forall r :: 0 <= r <= cfg.last + 1 ==> s.links[r] == Link([], []))
  }

  // One step of the group.
  ghost predicate Follows(cfg: Config, s: State, t: State) {
    Sized(cfg, s) && exists a :: Enabled(cfg, s, a) && t == Apply(cfg, s, a)
  }

  /** A run: the states of any interleaving, whatever keys the announcements draw. */
  ghost predicate IsRun(cfg: Config, run: seq<State>) {
    && |run| > 0 && Initial(cfg, run[0])
    && forall i :: 0 <= i < |run| - 1 ==> Follows(cfg, run[i], run[i + 1])
  }

  // ---------------------------------------------------------------- invariant

  // Buckets offered so far.
  function Offers(me: Rank): nat {
    match me.pc
    case First => 0
    case FirstRead => 0
    case Fill => me.k
    case FlushWait => me.k
    case Announce => me.k
    case Relay => me.k
    case _ => me.k + 1
  }

  // Metadata messages taken so far.
  function Taken(me: Rank): nat {
    match me.pc
    case First => 0
    case FirstRead => 1
    case Yield => if me.isLast then me.k + 1 else me.k + 2
    case AwaitAck => if me.isLast then me.k + 1 else me.k + 2
    case AwaitRead => me.k + 2
    case _ => me.k + 1
  }

  // The offer describes bucket k, and the buffer it names holds bucket k.
  ghost predicate OfferOf(cfg: Config, me: Rank, o: Offer, k: int) {
    && 0 <= k < |cfg.buckets|
    && o.metas == Metas(cfg.buckets[k]) && o.isLast == cfg.IsLast(k) && Holds(me.Buf(o.desc), cfg.buckets[k])
  }

  // The metadata being read is bucket k's; once the read has landed recv_buf holds it.
  ghost predicate Receiving(cfg: Config, me: Rank, k: nat) {
    && k < |cfg.buckets| && !me.rd.Idle?
    && me.nextMetas == Metas(cfg.buckets[k]) && me.nextIsLast == cfg.IsLast(k)
    && (me.rd.Landed? ==> Holds(me.Buf(!me.send), cfg.buckets[k]))
  }

  // send_buf holds bucket k, whose first j chunks have been yielded.
  ghost predicate Holding(cfg: Config, me: Rank) {
    && me.k < |cfg.buckets| && me.j <= |cfg.buckets[me.k]|
    && me.metas == Metas(cfg.buckets[me.k]) && me.isLast == cfg.IsLast(me.k)
    && Holds(me.Buf(me.send), cfg.buckets[me.k])
    && me.out == Flatten(cfg.buckets[..me.k]) + cfg.buckets[me.k][..me.j]
    && (me.op.Some? ==> me.op.value.desc == me.send)
  }

  ghost predicate SenderInv(cfg: Config, me: Rank) {
    && me.k < |cfg.buckets| && me.rd == Idle && me.out == []
    && match me.pc
       case Fill =>
         && me.j <= |cfg.buckets[me.k]| && Holds(me.Buf(me.send), cfg.buckets[me.k][..me.j])
         && (me.op.Some? ==> me.op.value.desc == !me.send)
       case FlushWait =>
         me.j == |cfg.buckets[me.k]| && Holds(me.Buf(me.send), cfg.buckets[me.k]) &&
             (me.op.Some? ==> me.op.value.desc == !me.send)
       case Announce =>
         me.j == |cfg.buckets[me.k]| && Holds(me.Buf(me.send), cfg.buckets[me.k]) && me.op == None
       case LastWait => me.j == |cfg.buckets[me.k]| && cfg.IsLast(me.k) && me.op.Some?
       case Done => me.j == |cfg.buckets[me.k]| && cfg.IsLast(me.k) && me.op == None
       case _ => false
  }

  ghost predicate ReceiverInv(cfg: Config, me: Rank) {
    match me.pc
    case First => me.op == None && me.rd == Idle && me.out == [] && me.k == 0
    case FirstRead => me.op == None && Receiving(cfg, me, 0) && me.out == [] && me.k == 0
    case Relay => me.op == None && me.rd == Idle && Holding(cfg, me) && me.j == 0
    case Next => Holding(cfg, me) && !me.isLast && me.rd == Idle && me.j == 0
    case Yield => Holding(cfg, me) && (if me.isLast then me.rd == Idle else Receiving(cfg, me, me.k + 1))
    case AwaitAck =>
      Holding(cfg, me) && me.j == |cfg.buckets[me.k]| && (if me.isLast then me.rd == Idle
          else Receiving(cfg, me, me.k + 1))
    case AwaitRead =>
      Holding(cfg, me) && me.j == |cfg.buckets[me.k]| && !me.isLast && me.op == None && Receiving(cfg, me, me.k + 1)
    case Done => Holding(cfg, me) && me.j == |cfg.buckets[me.k]| && me.isLast && me.op == None && me.rd == Idle
    case _ => false
  }

  ghost predicate RankInv(cfg: Config, r: nat, me: Rank) {
    && |me.b0| == cfg.bucketSize && |me.b1| == cfg.bucketSize
    && (if r == 0 then SenderInv(cfg, me) else ReceiverInv(cfg, me))
    && (me.op.Some? ==> r < cfg.last && OfferOf(cfg, me, me.op.value, Offers(me) - 1))
  }

  // Rank b is reading the offer o of rank a, and has copied a prefix of the buffer it names.
  ghost predicate InTransfer(cfg: Config, a: Rank, b: Rank, o: Offer) {
    && b.rd.Reading? && b.rd.offer == o && b.rd.pos <= cfg.bucketSize
    && |b.Buf(!b.send)| == cfg.bucketSize && |a.Buf(o.desc)| == cfg.bucketSize
    && b.Buf(!b.send)[..b.rd.pos] == a.Buf(o.desc)[..b.rd.pos]
  }

  // At most one offer is outstanding, and it is in exactly one place: queued, in transfer, or acknowledged.
  ghost predicate LinkInv(cfg: Config, a: Rank, b: Rank, link: Link) {
    match a.op
    case None => link == Link([], []) && !b.rd.Reading? && Taken(b) == Offers(a)
    case Some(o) =>
      || (link == Link([o], []) && !b.rd.Reading? && Taken(b) + 1 == Offers(a))
      || (link == Link([], []) && InTransfer(cfg, a, b, o) && Taken(b) == Offers(a))
      || (link == Link([], [o.key]) && !b.rd.Reading? && Taken(b) == Offers(a))
  }

  ghost predicate Inv(cfg: Config, s: State) {
    && Sized(cfg, s) && !s.failed
    && (forall r :: 0 <= r <= cfg.last ==> RankInv(cfg, r, s.ranks[r]))
    && (forall r :: 0 < r <= cfg.last ==> LinkInv(cfg, s.ranks[r - 1], s.ranks[r], s.links[r]))
    && s.links[0] == Link([], []) && s.links[cfg.last + 1] == Link([], [])
  }
}
