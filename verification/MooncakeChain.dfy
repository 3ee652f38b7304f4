/** The Mooncake relay (mooncake_checkpoint_engine.py).  Tensors travel whole, in
    buckets that alternate between the two halves of one registered buffer.  A rank
    learns that its successor is done with a half by polling the half itself: the
    successor overwrites its first four bytes with an acknowledgement pattern.

    The main result is `ReadsAreIntact`: as long as no bucket that is reused begins
    with the pattern, every transfer of every rank reads exactly the bucket that was
    announced, in every interleaving.  MooncakePolling proves that the condition is
    exact for the polls, and exhibits a run that tears a yielded view. */
module MooncakeChain {
  import opened Flattening
  import opened Chunks
  import opened MooncakeBuckets

  const MAGIC: seq<Byte> := [0xAB, 0xDC, 0xEF, 0x88]

  // Some byte under the acknowledgement pattern is not the pattern's.
  predicate DiffersFromMagic(content: seq<Byte>) {
    exists x :: 0 <= x < 4 && x < |content| && content[x] != MAGIC[x]
  }

  // ------------------------------------------------------------------- states

  datatype Config = Config(last: nat, bucketSize: nat, buckets: seq<Bucket>) {
    predicate Valid() {
      last >= 1 && bucketSize >= 4 && |buckets| > 0 && AllFit(buckets, bucketSize)
    }
    predicate IsLast(k: int) {
      k == |buckets| - 1
    }
    // No bucket whose half is used again can be mistaken for an acknowledgement.
    predicate NoFalseAck() {
      forall k :: 0 <= k < |buckets| - 2 ==> DiffersFromMagic(Content(buckets[k]))
    }
  }

  // `bucket_meta` is a dictionary of offsets and sizes by name.
  datatype View = View(name: string, offset: nat, size: nat)
  datatype Info = Info(views: seq<View>, ptr: bool, len: nat, isLast: bool)

  function ViewOf(b: Bucket, i: nat): View
    requires i < |b|
  {
    View(b[i].name, Offset(b, i), |b[i].bytes|)
  }

  function Views(b: Bucket): (r: seq<View>)
    ensures |r| == |Slots(b)| && forall j :: 0 <= j < |r| ==> r[j] == ViewOf(b, Slots(b)[j])
  {
    seq(|Slots(b)|, j requires 0 <= j < |Slots(b)| => ViewOf(b, Slots(b)[j]))
  }

  datatype Pc =
    | Fill | Send | Wait | FinalWait                 // rank 0
    | Recv | WaitHalf | Read | Forward | Yield | Ack // the others
    | Done

  datatype Rank = Rank(
    pc: Pc,
    k: nat,          // bucket at hand; it uses half k % 2
    j: nat,          // parts of it filled or yielded
    h0: seq<Byte>, h1: seq<Byte>,
    info: Info,      // metadata of bucket k
    out: seq<Part>)  // tensors yielded
  {
    function Half(odd: bool): seq<Byte> {
      if odd then h1 else h0
    }
    function WithHalf(odd: bool, content: seq<Byte>): Rank {
      if odd then this.(h1 := content) else this.(h0 := content)
    }
  }

  function Odd(k: int): bool {
    k % 2 == 1
  }

  // queues[r] holds the infos from rank r - 1 to rank r.
  datatype State = State(ranks: seq<Rank>, queues: seq<seq<Info>>)

  predicate Acknowledged(content: seq<Byte>) {
    |content| >= 4 && content[..4] == MAGIC
  }

  function Overwrite(content: seq<Byte>, at: nat, bytes: seq<Byte>): seq<Byte> {
    if at + |bytes| <= |content| then content[..at] + bytes + content[at + |bytes|..] else content
  }

  function Window(content: seq<Byte>, at: nat, size: nat): seq<Byte> {
    if at + size <= |content| then content[at..at + size] else []
  }

  // The two ranks a step can change and the two queues it can use.
  datatype Local = Local(prev: Rank, me: Rank, inq: seq<Info>, outq: seq<Info>)

  predicate CanRun(me: Rank, inq: seq<Info>) {
    match me.pc
    case Wait => Acknowledged(me.Half(Odd(me.k)))
    case FinalWait => Acknowledged(me.Half(Odd(me.k)))
    case WaitHalf => Acknowledged(me.Half(Odd(me.k)))
    case Recv => inq != []
    case Done => false
    case _ => true
  }

  function RunRank(cfg: Config, r: nat, l: Local): Local
    requires CanRun(l.me, l.inq)
  {
    var me, half := l.me, Odd(l.me.k);
    match me.pc
    case Fill =>
      if me.k < |cfg.buckets| && me.j < |cfg.buckets[me.k]| then
        var b := cfg.buckets[me.k];
        l.(me := me.WithHalf(half, Overwrite(me.Half(half), Offset(b, me.j), b[me.j].bytes)).(j := me.j + 1))
      else l.(me := me.(pc := Send))
    case Send =>
      var b := if me.k < |cfg.buckets| then cfg.buckets[me.k] else [];
      var outq := l.outq + [Info(Views(b), half, |Content(b)|, cfg.IsLast(me.k))];
      if cfg.IsLast(me.k) then l.(me := me.(pc := FinalWait), outq := outq)
      else l.(me := me.(pc := if me.k + 1 >= 2 then Wait else Fill, k := me.k + 1, j := 0), outq := outq)
    case Wait => l.(me := me.(pc := Fill))
    case FinalWait => l.(me := me.(pc := Done))
    case Recv =>
      l.(me := me.(pc := if me.k >= 2 && r < cfg.last then WaitHalf else Read, info := l.inq[0]), inq := l.inq[1..])
    case WaitHalf => l.(me := me.(pc := Read))
    case Read =>
      var data := Window(l.prev.Half(me.info.ptr), 0, me.info.len);
      l.(me := me.WithHalf(half, Overwrite(me.Half(half), 0, data)).(pc := Forward))
    case Forward =>
      l.(me := me.(pc := Yield, j := 0), outq := if r < cfg.last then l.outq + [me.info.(ptr := half)] else l.outq)
    case Yield =>
      if me.j < |me.info.views| then
        var v := me.info.views[me.j];
        l.(me := me.(j := me.j + 1, out := me.out + [Part(v.name, Window(me.Half(half), v.offset, v.size))]))
      else l.(me := me.(pc := Ack))
    case Ack =>
      var p := me.info.ptr;
      l.(prev := l.prev.WithHalf(p, Overwrite(l.prev.Half(p), 0, MAGIC)),
         me := if me.info.isLast then me.(pc := Done) else me.(pc := Recv, k := me.k + 1))
  }

  predicate Sized(cfg: Config, s: State) {
    |s.ranks| == cfg.last + 1 && |s.queues| == cfg.last + 2
  }

  function PrevOf(s: State, r: nat): Rank
    requires r < |s.ranks|
  {
    if r > 0 then s.ranks[r - 1] else s.ranks[r]
  }

  predicate Enabled(cfg: Config, s: State, r: nat)
    requires Sized(cfg, s)
  {
    r <= cfg.last && CanRun(s.ranks[r], s.queues[r])
  }

  function Step(cfg: Config, s: State, r: nat): State
    requires Sized(cfg, s) && Enabled(cfg, s, r)
  {
    var l := RunRank(cfg, r, Local(PrevOf(s, r), s.ranks[r], s.queues[r], s.queues[r + 1]));
    var ranks := if r > 0 then s.ranks[r - 1 := l.prev] else s.ranks;
    State(ranks[r := l.me], s.queues[r := l.inq][r + 1 := l.outq])
  }

  // An update begins with empty queues and whatever the previous update left in the buffers.
  predicate Initial(cfg: Config, s: State) {
    && Sized(cfg, s)
    && (forall r :: 0 <= r <= cfg.last ==>
          var me := s.ranks[r];
          && |me.h0| == cfg.bucketSize && |me.h1| == cfg.bucketSize
          && me.pc == (if r == 0 then Fill else Recv) && me.k == 0 && me.j == 0 && me.out == [])
    && (forall r :: 0 <= r <= cfg.last + 1 ==> s.queues[r] == [])
  }

  // Some rank takes a to b.
  ghost predicate Linked(cfg: Config, a: State, b: State) {
    Sized(cfg, a) && exists r: nat :: Enabled(cfg, a, r) && b == Step(cfg, a, r)
  }

  ghost predicate IsRun(cfg: Config, run: seq<State>) {
    && |run| > 0 && Initial(cfg, run[0])
    && forall i :: 0 <= i < |run| - 1 ==> Linked(cfg, run[i], run[i + 1])
  }

  // ---------------------------------------------------------------- invariant

  // Infos sent, infos taken, buckets acknowledged to the predecessor.
  function Sent(me: Rank): nat {
    if me.pc in {FinalWait, Yield, Ack, Done} then me.k + 1 else me.k
  }

  function Taken(me: Rank): nat {
    if me.pc == Recv then me.k else me.k + 1
  }

  function Acked(me: Rank): nat {
    if me.pc == Done then me.k + 1 else me.k
  }

  // Buckets whose half this rank has begun to write, and buckets it holds or held completely.
  function Begun(me: Rank): nat {
    if me.pc in {Wait, Recv, WaitHalf, Read} then me.k else me.k + 1
  }

  function Held(me: Rank): nat {
    if me.pc in {Fill, Wait, Recv, WaitHalf, Read} then me.k else me.k + 1
  }

  // Buckets this rank may write to its halves: it has seen those two before acknowledged.
  function Cleared(me: Rank): nat {
    if me.pc == Read then me.k + 1 else Begun(me)
  }

  // The half holds the bucket, except that an acknowledgement replaces its first four bytes.
  predicate Stamped(half: seq<Byte>, content: seq<Byte>, acked: bool) {
    && |content| <= |half| && |half| >= 4
    && (if acked then half[..4] == MAGIC && (|content| > 4 ==> half[4..|content|] == content[4..])
        else half[..|content|] == content)
  }

  // The last two buckets are in their halves; `acks` of all buckets have been acknowledged.
  ghost predicate Halves(cfg: Config, me: Rank, acks: nat) {
    && |me.h0| == cfg.bucketSize && |me.h1| == cfg.bucketSize
    && Held(me) <= |cfg.buckets|
    && forall i :: 0 <= i < Held(me) && i >= Begun(me) - 2 ==>
          Stamped(me.Half(Odd(i)), Content(cfg.buckets[i]), i < acks)
  }

  ghost predicate InfoOf(cfg: Config, info: Info, k: nat) {
    && k < |cfg.buckets| && info.views == Views(cfg.buckets[k])
    && info.ptr == Odd(k) && info.len == |Content(cfg.buckets[k])| && info.isLast == cfg.IsLast(k)
  }

  // The queue announces consecutive buckets.
  ghost predicate Infos(cfg: Config, queue: seq<Info>, from: nat) {
    forall i :: 0 <= i < |queue| ==> InfoOf(cfg, queue[i], from + i)
  }

  ghost predicate SenderInv(cfg: Config, me: Rank) {
    && me.k < |cfg.buckets|
    && match me.pc
       case Fill =>
         && me.j <= |cfg.buckets[me.k]| && Offset(cfg.buckets[me.k], me.j) <= |me.Half(Odd(me.k))|
         && me.Half(Odd(me.k))[..Offset(cfg.buckets[me.k], me.j)] == Content(cfg.buckets[me.k][..me.j])
       case Send => true
       case Wait => me.k >= 2 && me.j == 0
       case FinalWait => cfg.IsLast(me.k)
       case Done => cfg.IsLast(me.k)
       case _ => false
  }

  ghost predicate ReceiverInv(cfg: Config, me: Rank) {
    && me.k < |cfg.buckets|
    && me.pc in {Recv, WaitHalf, Read, Forward, Yield, Ack, Done}
    && (me.pc != Recv ==> InfoOf(cfg, me.info, me.k))
    && (me.pc == WaitHalf ==> me.k >= 2)
    && (me.pc == Yield ==> me.j <= |Slots(cfg.buckets[me.k])|)
    && (me.pc == Done ==> cfg.IsLast(me.k))
  }

  // Entries of bucket k that the rank has yielded.
  function Yielded(cfg: Config, me: Rank): nat
    requires me.k < |cfg.buckets|
  {
    if me.pc == Yield then me.j else if me.pc in {Ack, Done} then |Slots(cfg.buckets[me.k])| else 0
  }

  // The last rank, whose halves nobody acknowledges, yields exactly what was sent.
  ghost predicate LastExact(cfg: Config, me: Rank) {
    && me.k < |cfg.buckets| && Yielded(cfg, me) <= |Slots(cfg.buckets[me.k])| && me.pc != WaitHalf
    && me.out == Flatten(ServedAll(cfg.buckets)[..me.k]) + Served(cfg.buckets[me.k])[..Yielded(cfg, me)]
  }

  ghost predicate RankInv(cfg: Config, r: nat, me: Rank) {
    if r == 0 then SenderInv(cfg, me) else ReceiverInv(cfg, me)
  }

  /** Rank a, its successor b and the infos between them. */
  ghost predicate LinkInv(cfg: Config, a: Rank, b: Rank, queue: seq<Info>) {
    && Halves(cfg, a, Acked(b))
    && Taken(b) + |queue| == Sent(a)
    && Infos(cfg, queue, Taken(b))
    && Cleared(a) <= Acked(b) + 2
  }

  ghost predicate Inv(cfg: Config, s: State) {
    && Sized(cfg, s)
    && (forall r :: 0 <= r <= cfg.last ==> RankInv(cfg, r, s.ranks[r]))
    && (forall r :: 0 < r <= cfg.last ==> LinkInv(cfg, s.ranks[r - 1], s.ranks[r], s.queues[r]))
    && Halves(cfg, s.ranks[cfg.last], 0) && LastExact(cfg, s.ranks[cfg.last])
  }
}
