/** The NCCL engine (nccl_checkpoint_engine.py): rank 0 broadcasts its buckets and
    every other rank takes part in the same sequence of broadcasts, receiving into
    one buffer while it yields views of the other.

    The n-th broadcast a rank starts joins the n-th collective.  A receiver gets the
    bucket, byte copy and metadata together, at any moment while the sender's
    operation is in flight; the sender's operation completes once every receiver
    has it. */
module NcclBroadcast {
  import opened Flattening
  import opened Chunks
  import opened Packing
  import opened Delivery
  import opened Failures
  import opened Sums
  import opened BucketFacts

  datatype Config = Config(last: nat, bucketSize: nat, buckets: seq<Bucket>) {
    predicate Valid() {
      |buckets| > 0 && AllWellLaid(buckets, bucketSize)
    }
    predicate IsLast(k: int) {
      k == |buckets| - 1
    }
  }

  datatype Pc =
    | Fill | FlushWait | Start | LastWait           // rank 0
    | First | FirstWait | Next | Yield | NextWait    // the others
    | Done

  datatype Rank = Rank(
    pc: Pc,
    k: nat,                      // bucket being filled or yielded
    j: nat,                      // chunks of it filled or yielded
    b0: seq<Byte>, b1: seq<Byte>,
    send: bool,                  // which buffer is send_buf
    started: nat, finished: nat, // broadcasts
    bucket: bool,                // the buffer of the broadcast in flight
    metas: seq<TensorMeta>, isLast: bool,          // of the bucket being yielded
    gotMetas: seq<TensorMeta>, gotIsLast: bool,    // sent or received with the last broadcast
    out: seq<Chunk>)
  {
    function Buf(which: bool): seq<Byte> {
      if which then b1 else b0
    }
    function WithBuf(which: bool, content: seq<Byte>): Rank {
      if which then this.(b1 := content) else this.(b0 := content)
    }
    predicate InFlight() {
      started > finished
    }
  }

  type State = seq<Rank>

  // Run: next statement of rank r.  Deliver: the collective reaches receiver r.  Complete: the sender's operation ends.
  datatype Action = Run(r: nat) | Deliver(r: nat) | Complete

  function Begin(me: Rank, pc: Pc, bucket: bool): Rank {
    me.(pc := pc, started := me.started + 1, bucket := bucket)
  }

  predicate CanRun(me: Rank) {
    match me.pc
    case FlushWait => !me.InFlight()
    case LastWait => !me.InFlight()
    case FirstWait => !me.InFlight()
    case NextWait => !me.InFlight()
    case Done => false
    case _ => true
  }

  // swap the buffers and take up the bucket just received
  function TakeUp(me: Rank, k: nat): Rank {
    me.(pc := if me.gotIsLast then Yield else Next, k := k, j := 0, send := !me.send, metas := me.gotMetas,
        isLast := me.gotIsLast)
  }

  function RunRank(cfg: Config, me: Rank): Rank
    requires CanRun(me)
  {
    match me.pc
    case Fill =>
      if me.k < |cfg.buckets| && me.j < |cfg.buckets[me.k]| then
        var c := cfg.buckets[me.k][me.j];
        var at := if c.meta.offset.Some? then c.meta.offset.value else 0;
        me.WithBuf(me.send, Write(me.Buf(me.send), at, c.bytes)).(j := me.j + 1)
      else me.(pc := FlushWait)
    case FlushWait => me.(pc := Start)
    case Start =>
      var metas := if me.k < |cfg.buckets| then Metas(cfg.buckets[me.k]) else [];
      var sent := Begin(me, LastWait, me.send).(gotMetas := metas, gotIsLast := cfg.IsLast(me.k));
      if cfg.IsLast(me.k) then sent else sent.(pc := Fill, k := me.k + 1, j := 0, send := !me.send)
    case LastWait => me.(pc := Done)
    case First => Begin(me, FirstWait, !me.send)
    case FirstWait => TakeUp(me, 0)
    case Next => Begin(me, Yield, !me.send)
    case Yield =>
      if me.j < |me.metas| then me.(j := me.j + 1, out := me.out + [Slice(me.Buf(me.send), me.metas[me.j])])
      else if me.isLast then me.(pc := Done) else me.(pc := NextWait)
    case NextWait => TakeUp(me, me.k + 1)
    case Done => me
  }

  predicate Sized(cfg: Config, s: State) {
    |s| == cfg.last + 1
  }

  // The rank has raised: its program stops, though a broadcast it joined goes on.
  predicate Raised(cfg: Config, r: nat, me: Rank) {
    if r == 0 then me.pc == Fill && SenderRaises(cfg.buckets, me.k, me.j) else ReceiverRaises(me.out, cfg.bucketSize)
  }

  predicate Enabled(cfg: Config, s: State, a: Action)
    requires Sized(cfg, s)
  {
    match a
    case Run(r) => r <= cfg.last && CanRun(s[r]) && !Raised(cfg, r, s[r])
    case Deliver(r) => 0 < r <= cfg.last && s[0].InFlight() && s[r].InFlight() && s[r].finished == s[0].finished
    case Complete => s[0].InFlight() && forall r :: 0 < r <= cfg.last ==> s[r].finished > s[0].finished
  }

  function Received(sender: Rank, me: Rank): Rank {
    me.WithBuf(me.bucket, sender.Buf(sender.bucket)).(finished := me.finished + 1, gotMetas := sender.gotMetas,
        gotIsLast := sender.gotIsLast)
  }

  function Apply(cfg: Config, s: State, a: Action): State
    requires Sized(cfg, s) && Enabled(cfg, s, a)
  {
    match a
    case Run(r) => s[r := RunRank(cfg, s[r])]
    case Deliver(r) => s[r := Received(s[0], s[r])]
    case Complete => s[0 := s[0].(finished := s[0].finished + 1)]
  }

  predicate Initial(cfg: Config, s: State) {
    Sized(cfg, s) &&
    forall r :: 0 <= r <= cfg.last ==>
      && |s[r].b0| == cfg.bucketSize && |s[r].b1| == cfg.bucketSize && s[r].out == []
      && s[r].pc == (if r == 0 then Fill else First) && s[r].k == 0 && s[r].j == 0 && s[r].started == 0 &&
            s[r].finished == 0
  }

  // One step of the group.
  ghost predicate Follows(cfg: Config, s: State, t: State) {
    Sized(cfg, s) && exists a :: Enabled(cfg, s, a) && t == Apply(cfg, s, a)
  }

  ghost predicate IsRun(cfg: Config, run: seq<State>) {
    && |run| > 0 && Initial(cfg, run[0])
    && forall i :: 0 <= i < |run| - 1 ==> Follows(cfg, run[i], run[i + 1])
  }

  // ---------------------------------------------------------------- invariant

  ghost predicate SenderInv(cfg: Config, me: Rank) {
    && |me.b0| == cfg.bucketSize && |me.b1| == cfg.bucketSize
    && me.k < |cfg.buckets| && me.out == [] && me.j <= |cfg.buckets[me.k]| &&
          me.finished <= me.started <= me.finished + 1
    && me.started == (if me.pc in {LastWait, Done} then me.k + 1 else me.k)
    // the broadcast in flight carries its bucket, from the buffer that is not being filled
    && (me.InFlight() ==>
          && me.gotMetas == Metas(cfg.buckets[me.finished]) && me.gotIsLast == cfg.IsLast(me.finished)
          && Holds(me.Buf(me.bucket), cfg.buckets[me.finished])
          && (me.pc in {Fill, FlushWait} ==> me.bucket == !me.send))
    && match me.pc
       case Fill => Holds(me.Buf(me.send), cfg.buckets[me.k][..me.j])
       case FlushWait => me.j == |cfg.buckets[me.k]| && Holds(me.Buf(me.send), cfg.buckets[me.k])
       case Start => me.j == |cfg.buckets[me.k]| && Holds(me.Buf(me.send), cfg.buckets[me.k]) && !me.InFlight()
       case LastWait => me.j == |cfg.buckets[me.k]| && cfg.IsLast(me.k)
       case Done => me.j == |cfg.buckets[me.k]| && cfg.IsLast(me.k) && !me.InFlight()
       case _ => false
  }

  // send_buf holds bucket k, whose first j chunks have been yielded.
  ghost predicate Holding(cfg: Config, me: Rank) {
    && me.k < |cfg.buckets| && me.j <= |cfg.buckets[me.k]|
    && me.metas == Metas(cfg.buckets[me.k]) && me.isLast == cfg.IsLast(me.k)
    && Holds(me.Buf(me.send), cfg.buckets[me.k])
    && me.out == Flatten(cfg.buckets[..me.k]) + cfg.buckets[me.k][..me.j]
  }

  // Broadcast k has been joined with recv_buf, which holds bucket k once the broadcast is over.
  ghost predicate Receiving(cfg: Config, me: Rank, k: nat) {
    && k < |cfg.buckets| && me.started == k + 1 && k <= me.finished <= k + 1 && me.bucket == !me.send
    && (!me.InFlight() ==>
          me.gotMetas == Metas(cfg.buckets[k]) && me.gotIsLast == cfg.IsLast(k) &&
              Holds(me.Buf(!me.send), cfg.buckets[k]))
  }

  ghost predicate ReceiverInv(cfg: Config, me: Rank) {
    && |me.b0| == cfg.bucketSize && |me.b1| == cfg.bucketSize
    && match me.pc
       case First => me.started == me.finished == 0 && me.out == [] && me.k == 0
       case FirstWait => Receiving(cfg, me, 0) && me.out == [] && me.k == 0
       case Next => Holding(cfg, me) && !me.isLast && me.j == 0 && me.started == me.finished == me.k + 1
       case Yield => Holding(cfg, me) && (if me.isLast then me.started == me.finished == me.k + 1
           else Receiving(cfg, me, me.k + 1))
       case NextWait => Holding(cfg, me) && me.j == |cfg.buckets[me.k]| && !me.isLast && Receiving(cfg, me, me.k + 1)
       case Done => Holding(cfg, me) && me.j == |cfg.buckets[me.k]| && me.isLast &&
           me.started == me.finished == me.k + 1
       case _ => false
  }

  // Nobody is behind a broadcast the sender has completed, nor ahead of one it has not started.
  ghost predicate Lockstep(sender: Rank, me: Rank) {
    sender.finished <= me.finished <= sender.started
  }

  ghost predicate Inv(cfg: Config, s: State) {
    && Sized(cfg, s) && SenderInv(cfg, s[0])
    && forall r :: 0 < r <= cfg.last ==> ReceiverInv(cfg, s[r]) && Lockstep(s[0], s[r])
  }

  lemma SenderFills(cfg: Config, me: Rank)
    requires cfg.Valid() && SenderInv(cfg, me) && me.pc == Fill
    ensures SenderInv(cfg, RunRank(cfg, me))
  {
    hide WellLaid, Used, Holds, Flatten, Write, Metas;
    var b := cfg.buckets[me.k];
    if me.j < |b| {
      WriteHolds(me.Buf(me.send), b, me.j);
    } else {
      assert b[..me.j] == b;
    }
  }

  lemma SenderStarts(cfg: Config, me: Rank)
    requires cfg.Valid() && SenderInv(cfg, me) && me.pc == Start
    ensures SenderInv(cfg, RunRank(cfg, me))
  {
    hide WellLaid, Used, Holds, Flatten, Write, Metas;
    if !cfg.IsLast(me.k) {
      HoldsNone(me.Buf(!me.send), cfg.buckets[me.k + 1]);
    }
  }

  lemma SenderRuns(cfg: Config, me: Rank)
    requires cfg.Valid() && SenderInv(cfg, me) && CanRun(me)
    ensures SenderInv(cfg, RunRank(cfg, me))
    ensures RunRank(cfg, me).finished == me.finished && RunRank(cfg, me).started >= me.started
  {
    hide WellLaid, Used, Holds, Flatten, Write, Metas;
    match me.pc
    case Fill => SenderFills(cfg, me);
    case Start => SenderStarts(cfg, me);
    case _ =>
  }

  lemma ReceiverYields(cfg: Config, me: Rank)
    requires cfg.Valid() && ReceiverInv(cfg, me) && me.pc == Yield
    ensures ReceiverInv(cfg, RunRank(cfg, me))
  {
    hide WellLaid, Used, Holds, Flatten, Slice;
    if me.j < |me.metas| {
      SliceIsChunk(me.Buf(me.send), cfg.buckets[me.k], me.j);
    }
  }

  lemma ReceiverTakesUp(cfg: Config, me: Rank)
    requires cfg.Valid() && ReceiverInv(cfg, me) && me.pc in {FirstWait, NextWait} && CanRun(me)
    ensures ReceiverInv(cfg, RunRank(cfg, me))
  {
    hide WellLaid, Used, Holds, Flatten, Metas;
    if me.pc == FirstWait {
      FirstBucket(cfg.buckets);
    } else {
      FlattenNext(cfg.buckets, me.k);
    }
  }

  lemma ReceiverRuns(cfg: Config, me: Rank)
    requires cfg.Valid() && ReceiverInv(cfg, me) && CanRun(me)
    ensures ReceiverInv(cfg, RunRank(cfg, me)) && RunRank(cfg, me).finished == me.finished
  {
    hide WellLaid, Used, Holds, Flatten, Slice, Metas;
    match me.pc
    case FirstWait => ReceiverTakesUp(cfg, me);
    case NextWait => ReceiverTakesUp(cfg, me);
    case Yield => ReceiverYields(cfg, me);
    case _ =>
  }

  lemma Delivers(cfg: Config, sender: Rank, me: Rank)
    requires SenderInv(cfg, sender) && ReceiverInv(cfg, me) && sender.InFlight() && me.InFlight() &&
        me.finished == sender.finished
    ensures ReceiverInv(cfg, Received(sender, me)) && Lockstep(sender, Received(sender, me))
  {
    hide WellLaid, Used, Holds, Flatten;
  }

  lemma StepKeeps(cfg: Config, s: State, a: Action)
    requires cfg.Valid() && Inv(cfg, s) && Enabled(cfg, s, a)
    ensures Inv(cfg, Apply(cfg, s, a))
  {
    hide ReceiverInv, RunRank;
    match a
    case Run(r) =>
      if r == 0 {
        SenderRuns(cfg, s[0]);
      } else {
        ReceiverRuns(cfg, s[r]);
      }
      hide SenderInv;
    case Deliver(r) =>
      hide SenderInv;
      Delivers(cfg, s[0], s[r]);
    case Complete =>
  }

  lemma InitialInv(cfg: Config, s: State)
    requires cfg.Valid() && Initial(cfg, s)
    ensures Inv(cfg, s)
  {
    HoldsNone(s[0].Buf(s[0].send), cfg.buckets[0]);
  }

  lemma {:induction false} RunInv(cfg: Config, run: seq<State>, i: nat)
    requires cfg.Valid() && IsRun(cfg, run) && i < |run|
    ensures Inv(cfg, run[i])
  {
    hide Inv;
    if i == 0 {
      InitialInv(cfg, run[0]);
    } else {
      RunInv(cfg, run, i - 1);
      assert Follows(cfg, run[i - 1], run[i - 1 + 1]);
      var a :| Enabled(cfg, run[i - 1], a) && run[i - 1 + 1] == Apply(cfg, run[i - 1], a);
      StepKeeps(cfg, run[i - 1], a);
    }
  }

  // --------------------------------------------------------------- guarantees

  /** In every reachable state every receiver has finished exactly the broadcasts the
      sender has, or one more that is in flight at the sender; and a broadcast in
      flight never uses the buffer being filled or the buffer being yielded. */
  lemma BroadcastsAreLockstep(cfg: Config, run: seq<State>, i: nat, r: nat)
    requires cfg.Valid() && IsRun(cfg, run) && i < |run| && 0 < r <= cfg.last
    ensures var s := run[i];
      && Sized(cfg, s)
      && s[0].finished <= s[r].finished <= s[0].started <= s[0].finished + 1
      && (s[0].InFlight() && s[0].pc == Fill ==> s[0].bucket != s[0].send)
      && (s[r].InFlight() && s[r].pc == Yield ==> s[r].bucket != s[r].send)
  {
    hide IsRun, Holds, Flatten, WellLaid;
    RunInv(cfg, run, i);
    assert ReceiverInv(cfg, run[i][r]);
  }

  /** What a receiver has yielded is a prefix of the sender's chunk stream, and when
      it finishes it has yielded every bucket's chunks once, in order. */
  lemma StreamIsPrefix(cfg: Config, run: seq<State>, i: nat, r: nat)
    requires cfg.Valid() && IsRun(cfg, run) && i < |run| && 0 < r <= cfg.last
    ensures Sized(cfg, run[i]) && run[i][r].out <= Flatten(cfg.buckets)
    ensures run[i][r].pc == Done ==> run[i][r].out == Flatten(cfg.buckets)
  {
    hide IsRun, Holds, WellLaid;
    RunInv(cfg, run, i);
    var me := run[i][r];
    assert ReceiverInv(cfg, me);
    if me.pc !in {First, FirstWait} {
      FlattenPrefix(cfg.buckets, me.k, me.j);
      if me.pc == Done {
        FlattenTake(cfg.buckets, me.k);
        assert cfg.buckets[..me.k + 1] == cfg.buckets && cfg.buckets[me.k][..me.j] == cfg.buckets[me.k];
      }
    }
  }

  ghost predicate AllDone(cfg: Config, s: State)
    requires Sized(cfg, s)
  {
    forall r :: 0 <= r <= cfg.last ==> s[r].pc == Done
  }

  ghost predicate CanStep(cfg: Config, s: State)
    requires Sized(cfg, s)
  {
    exists a :: Enabled(cfg, s, a)
  }

  ghost predicate SomeRaised(cfg: Config, s: State)
    requires Sized(cfg, s)
  {
    exists r: nat :: r <= cfg.last && Raised(cfg, r, s[r])
  }

  // A receiver that has not finished the sender's broadcast can run or be delivered to.
  lemma ReceiverSteps(cfg: Config, s: State, r: nat)
    requires cfg.Valid() && Inv(cfg, s) && 0 < r <= cfg.last && !Raised(cfg, r, s[r])
    requires s[0].InFlight() && s[r].finished <= s[0].finished
    ensures CanStep(cfg, s)
  {
    hide Holds, Flatten, WellLaid, Raised;
    assert ReceiverInv(cfg, s[r]) && Lockstep(s[0], s[r]);
    assert Enabled(cfg, s, Run(r)) || Enabled(cfg, s, Deliver(r));
  }

  // Once the sender is through, a receiver has nothing to wait for.
  lemma UnfinishedRuns(cfg: Config, s: State, r: nat)
    requires cfg.Valid() && Inv(cfg, s) && r <= cfg.last && !Raised(cfg, r, s[r])
    requires s[0].pc == Done && s[r].pc != Done
    ensures Enabled(cfg, s, Run(r))
  {
    hide Holds, Flatten, WellLaid, Raised;
    assert ReceiverInv(cfg, s[r]) && Lockstep(s[0], s[r]);
  }

  lemma SenderWaits(cfg: Config, s: State)
    requires Inv(cfg, s) && !Enabled(cfg, s, Run(0)) && !Raised(cfg, 0, s[0])
    ensures s[0].InFlight() || s[0].pc == Done
  {
    hide Raised, ReceiverInv, Holds, Flatten;
  }

  /** From every reachable state in which some rank is unfinished and none has raised, some rank
      can step.  A receiver that is waiting has started a broadcast the sender is not in: then
      the sender can run. */
  lemma NoDeadlock(cfg: Config, run: seq<State>, i: nat)
    requires cfg.Valid() && IsRun(cfg, run) && i < |run|
    ensures Sized(cfg, run[i])
    ensures CanStep(cfg, run[i]) || AllDone(cfg, run[i]) || SomeRaised(cfg, run[i])
  {
    hide IsRun, Raised, SenderInv, ReceiverInv, CanRun;
    RunInv(cfg, run, i);
    var s := run[i];
    if SomeRaised(cfg, s) || Enabled(cfg, s, Run(0)) {
      return;
    }
    assert !Raised(cfg, 0, s[0]);
    SenderWaits(cfg, s);
    if s[0].InFlight() {
      if !Enabled(cfg, s, Complete) {
        var r :| 0 < r <= cfg.last && s[r].finished <= s[0].finished;
        assert !Raised(cfg, r, s[r]);
        ReceiverSteps(cfg, s, r);
      }
    } else if !AllDone(cfg, s) {
      var r :| 0 <= r <= cfg.last && s[r].pc != Done;
      assert !Raised(cfg, r, s[r]);
      UnfinishedRuns(cfg, s, r);
    }
  }

  // ------------------------------------------------------------- termination

  function Phase(me: Rank): nat {
    match me.pc
    case Fill => 0
    case FlushWait => 1
    case Start => 2
    case LastWait => 3
    case First => 0
    case FirstWait => 1
    case Next => 2
    case Yield => 3
    case NextWait => 4
    case Done => 4
  }

  function Before(cfg: Config, k: nat): nat {
    if k <= |cfg.buckets| then |Flatten(cfg.buckets[..k])| else 0
  }

  // Steps a rank has made, its broadcasts' completions included.
  function Work(cfg: Config, me: Rank): nat {
    Before(cfg, me.k) + (if me.pc in {First, FirstWait} then 0 else me.j + 4 * me.k) + Phase(me) + me.finished
  }

  function Limit(cfg: Config): nat {
    |Flatten(cfg.buckets)| + 5 * |cfg.buckets| + 5
  }

  // All that the count needs to know of a rank.
  predicate Countable(cfg: Config, me: Rank) {
    && me.k < |cfg.buckets| && (me.pc in {First, FirstWait} ==> me.k == 0)
    && (me.pc in {Start, NextWait} ==> me.j == |cfg.buckets[me.k]|)
    && (me.pc == NextWait ==> me.k + 1 < |cfg.buckets|)
    && (me.pc !in {First, FirstWait} ==> me.j <= |cfg.buckets[me.k]|)
    && me.finished <= |cfg.buckets|
  }

  lemma SenderCountable(cfg: Config, me: Rank)
    requires SenderInv(cfg, me)
    ensures Countable(cfg, me)
  {
    hide Holds, Flatten;
  }

  lemma ReceiverCountable(cfg: Config, me: Rank)
    requires cfg.Valid() && ReceiverInv(cfg, me)
    ensures Countable(cfg, me)
  {
    hide Holds, Flatten;
  }

  lemma BeforeNext(cfg: Config, k: nat)
    requires k < |cfg.buckets|
    ensures Before(cfg, k + 1) == Before(cfg, k) + |cfg.buckets[k]|
  {
    FlattenTake(cfg.buckets, k);
  }

  // A step within the bucket at hand.
  lemma StaysWork(cfg: Config, me: Rank)
    requires Countable(cfg, me) && CanRun(me) && me.pc !in {Start, NextWait}
    ensures Work(cfg, RunRank(cfg, me)) >= Work(cfg, me) + 1
  {
    hide Before, Slice, Write, Metas;
  }

  // A step that turns to the next bucket, or announces the last.
  lemma TurnsWork(cfg: Config, me: Rank)
    requires Countable(cfg, me) && CanRun(me) && me.pc in {Start, NextWait}
    ensures Work(cfg, RunRank(cfg, me)) >= Work(cfg, me) + 1
  {
    hide Before, Metas;
    BeforeNext(cfg, me.k);
  }

  lemma RunWorks(cfg: Config, me: Rank)
    requires Countable(cfg, me) && CanRun(me)
    ensures Work(cfg, RunRank(cfg, me)) >= Work(cfg, me) + 1
  {
    if me.pc in {Start, NextWait} {
      TurnsWork(cfg, me);
    } else {
      StaysWork(cfg, me);
    }
  }

  lemma WorkBounded(cfg: Config, me: Rank)
    requires Countable(cfg, me)
    ensures Work(cfg, me) <= Limit(cfg)
  {
    var j := if me.pc in {First, FirstWait} then 0 else me.j;
    FlattenPrefix(cfg.buckets, me.k, j);
    assert |Flatten(cfg.buckets[..me.k]) + cfg.buckets[me.k][..j]| <= |Flatten(cfg.buckets)|;
    hide Flatten;
  }

  function Works(cfg: Config, s: State): (ws: seq<int>)
    ensures |ws| == |s| && forall r :: 0 <= r < |s| ==> ws[r] == Work(cfg, s[r])
  {
    seq(|s|, r requires 0 <= r < |s| => Work(cfg, s[r]))
  }

  lemma TotalGrows(cfg: Config, s: State, r: nat, me: Rank)
    requires r < |s| && Work(cfg, me) >= Work(cfg, s[r]) + 1
    ensures Sum(Works(cfg, s[r := me])) >= Sum(Works(cfg, s)) + 1
  {
    hide Work;
    SumUpdate(Works(cfg, s), r, Work(cfg, me));
    assert Works(cfg, s[r := me]) == Works(cfg, s)[r := Work(cfg, me)];
  }

  lemma AllCountable(cfg: Config, s: State, r: nat)
    requires cfg.Valid() && Inv(cfg, s) && r <= cfg.last
    ensures Countable(cfg, s[r])
  {
    hide SenderInv, ReceiverInv, Countable;
    if r == 0 {
      SenderCountable(cfg, s[0]);
    } else {
      ReceiverCountable(cfg, s[r]);
    }
  }

  lemma CollectiveWorks(cfg: Config, sender: Rank, me: Rank)
    ensures me.InFlight() ==> Work(cfg, Received(sender, me)) >= Work(cfg, me) + 1
    ensures Work(cfg, sender.(finished := sender.finished + 1)) >= Work(cfg, sender) + 1
  {
    hide Before;
  }

  lemma StepWorks(cfg: Config, s: State, a: Action)
    requires cfg.Valid() && Inv(cfg, s) && Enabled(cfg, s, a)
    ensures Sum(Works(cfg, Apply(cfg, s, a))) >= Sum(Works(cfg, s)) + 1
  {
    match a
    case Run(r) =>
      AllCountable(cfg, s, r);
      RunWorks(cfg, s[r]);
      hide Inv, Work, RunRank, Countable, CanRun, Raised;
      TotalGrows(cfg, s, r, RunRank(cfg, s[r]));
    case Deliver(r) =>
      hide Inv, Work, Received;
      CollectiveWorks(cfg, s[0], s[r]);
      TotalGrows(cfg, s, r, Received(s[0], s[r]));
    case Complete =>
      hide Inv, Work;
      CollectiveWorks(cfg, s[0], s[0]);
      TotalGrows(cfg, s, 0, s[0].(finished := s[0].finished + 1));
  }

  lemma InvBounded(cfg: Config, s: State)
    requires cfg.Valid() && Inv(cfg, s)
    ensures 0 <= Sum(Works(cfg, s)) <= (cfg.last + 1) * Limit(cfg)
  {
    hide SenderInv, ReceiverInv, Work, Limit;
    forall r | 0 <= r <= cfg.last ensures Work(cfg, s[r]) <= Limit(cfg) {
      AllCountable(cfg, s, r);
      WorkBounded(cfg, s[r]);
    }
    SumBounded(Works(cfg, s), Limit(cfg));
  }

  lemma {:induction false} RunWorksOut(cfg: Config, run: seq<State>, i: nat)
    requires cfg.Valid() && IsRun(cfg, run) && i < |run|
    ensures Inv(cfg, run[i]) && Sum(Works(cfg, run[i])) >= i
  {
    hide Inv, Works;
    RunInv(cfg, run, i);
    if i == 0 {
      InvBounded(cfg, run[0]);
    } else {
      RunWorksOut(cfg, run, i - 1);
      assert Follows(cfg, run[i - 1], run[i - 1 + 1]);
      var a :| Enabled(cfg, run[i - 1], a) && run[i - 1 + 1] == Apply(cfg, run[i - 1], a);
      StepWorks(cfg, run[i - 1], a);
    }
  }

  // ------------------------------------------------------------ runs that raise

  // The sender has got this far without repeating a name; a receiver that raised stays where it is.
  ghost predicate Clean(cfg: Config, r: nat, me: Rank) {
    if r == 0 then FilledApart(cfg.buckets, me.k, me.j) else ReceiverRaises(me.out, cfg.bucketSize) ==> me.pc == Yield
  }

  lemma RunClean(cfg: Config, r: nat, me: Rank)
    requires (if r == 0 then SenderInv(cfg, me) else ReceiverInv(cfg, me)) && CanRun(me) && !Raised(cfg, r, me) &&
        Clean(cfg, r, me)
    ensures Clean(cfg, r, RunRank(cfg, me))
  {
    hide Holds, Flatten, Metas, Slice, Write, FilledApart, ReceiverRaises, SenderRaises;
    if r == 0 && me.pc == Fill && me.j < |cfg.buckets[me.k]| {
      FillApart(cfg.buckets, me.k, me.j);
    } else if r == 0 && me.pc == Start {
      NextApart(cfg.buckets, me.k);
    }
  }

  ghost predicate AllClean(cfg: Config, s: State)
    requires Sized(cfg, s)
  {
    forall r :: 0 <= r <= cfg.last ==> Clean(cfg, r, s[r])
  }

  lemma StepClean(cfg: Config, s: State, a: Action)
    requires cfg.Valid() && Inv(cfg, s) && Enabled(cfg, s, a) && AllClean(cfg, s)
    ensures Sized(cfg, Apply(cfg, s, a)) && AllClean(cfg, Apply(cfg, s, a))
  {
    hide RunRank, CanRun, SenderInv, ReceiverInv, FilledApart, ReceiverRaises;
    match a
    case Run(r) =>
      assert Clean(cfg, r, s[r]);
      RunClean(cfg, r, s[r]);
    case Deliver(r) => assert Clean(cfg, r, s[r]);
    case Complete => assert Clean(cfg, 0, s[0]);
  }

  lemma {:induction false} RunsAreClean(cfg: Config, run: seq<State>, i: nat)
    requires cfg.Valid() && IsRun(cfg, run) && i < |run|
    ensures Sized(cfg, run[i]) && AllClean(cfg, run[i])
  {
    hide Apply, Inv;
    if i == 0 {
      forall r | 0 < r <= cfg.last ensures !ReceiverRaises(run[0][r].out, cfg.bucketSize) {
      }
    } else {
      RunsAreClean(cfg, run, i - 1);
      RunInv(cfg, run, i - 1);
      assert Follows(cfg, run[i - 1], run[i - 1 + 1]);
      var a :| Enabled(cfg, run[i - 1], a) && run[i - 1 + 1] == Apply(cfg, run[i - 1], a);
      StepClean(cfg, run[i - 1], a);
    }
  }

  // Every receiver's merge of the chunks it has yielded is `end`.
  ghost predicate AllReceived(cfg: Config, s: State, end: MergeState)
    requires Sized(cfg, s)
  {
    forall r :: 0 < r <= cfg.last ==> Merge(s[r].out, cfg.bucketSize) == end
  }

  // Every tensor that travels whole can be viewed, if there is a receiver at all.
  ghost predicate Receivable(cfg: Config) {
    cfg.last == 0 || AllViewable(Flatten(cfg.buckets), cfg.bucketSize)
  }

  lemma NobodyRaises(cfg: Config, ws: seq<Tensor>, run: seq<State>, i: nat)
    requires cfg.Valid() && cfg.bucketSize > 0 && AllValid(ws) && cfg.buckets == SentBuckets(ws, cfg.bucketSize)
    requires IsRun(cfg, run) && i < |run| && AllNamesDistinct(cfg.buckets) && Receivable(cfg)
    ensures Sized(cfg, run[i]) && !SomeRaised(cfg, run[i])
  {
    hide IsRun, AllNamesDistinct, AllViewable, SenderRaises, ReceiverRaises, SentBuckets, Flatten;
    RunsAreClean(cfg, run, i);
    forall r: nat | r <= cfg.last ensures !Raised(cfg, r, run[i][r]) {
      if r == 0 {
        SenderSafe(cfg.buckets, run[i][0].k, run[i][0].j);
      } else {
        StreamIsPrefix(cfg, run, i, r);
        ReceiverSafe(ws, cfg.bucketSize, run[i][r].out);
      }
    }
  }

  // A finished group met neither failure.
  lemma FinishedIsFaultless(cfg: Config, ws: seq<Tensor>, run: seq<State>, i: nat)
    requires cfg.Valid() && cfg.bucketSize > 0 && AllValid(ws) && cfg.buckets == SentBuckets(ws, cfg.bucketSize)
    requires IsRun(cfg, run) && i < |run| && Sized(cfg, run[i]) && AllDone(cfg, run[i])
    ensures AllNamesDistinct(cfg.buckets) && Receivable(cfg)
    ensures AllReceived(cfg, run[i], MergeState(NonEmpty(ws), None, true))
  {
    hide IsRun, SentBuckets, Flatten, Merge, Holds, AllNamesDistinct, AllViewable, FilledApart, ReceiverInv;
    RunInv(cfg, run, i);
    RunsAreClean(cfg, run, i);
    assert Clean(cfg, 0, run[i][0]);
    NextApart(cfg.buckets, run[i][0].k);
    forall r | 0 < r <= cfg.last
      ensures AllViewable(Flatten(cfg.buckets), cfg.bucketSize)
      ensures Merge(run[i][r].out, cfg.bucketSize) == MergeState(NonEmpty(ws), None, true)
    {
      StreamIsPrefix(cfg, run, i, r);
      assert Clean(cfg, r, run[i][r]);
      WholeStreamMerged(ws, cfg.bucketSize, run[i][r].out);
    }
    if cfg.last > 0 {
      assert 0 < cfg.last <= cfg.last && run[i][cfg.last].pc == Done;
    }
  }

  // No receiver has yielded anything but a prefix of the sender's tensors.
  ghost predicate NothingWrong(cfg: Config, s: State, ws: seq<Tensor>)
    requires Sized(cfg, s)
  {
    forall r :: 0 < r <= cfg.last ==> IsPrefix(Merge(s[r].out, cfg.bucketSize).out, NonEmpty(ws))
  }

  /** Runs are bounded; one that cannot go on has every rank finished if and only if no bucket
      repeats a name and every tensor that travels whole can be viewed where it was packed.
      Then every receiver holds exactly the sender's non-empty tensors; otherwise some rank has
      raised.  Either way no receiver has yielded anything but the sender's tensors in order. */
  lemma EveryRunDelivers(cfg: Config, ws: seq<Tensor>, run: seq<State>)
    requires cfg.Valid() && cfg.bucketSize > 0 && AllValid(ws) && cfg.buckets == SentBuckets(ws, cfg.bucketSize)
    requires IsRun(cfg, run)
    ensures |run| - 1 <= (cfg.last + 1) * Limit(cfg)
    ensures Sized(cfg, run[|run| - 1]) && NothingWrong(cfg, run[|run| - 1], ws)
    ensures !CanStep(cfg, run[|run| - 1]) ==>
      var end := run[|run| - 1];
      && (AllDone(cfg, end) <==> AllNamesDistinct(cfg.buckets) && Receivable(cfg))
      && (AllDone(cfg, end) ==> AllReceived(cfg, end, MergeState(NonEmpty(ws), None, true)))
      && (AllDone(cfg, end) || SomeRaised(cfg, end))
  {
    hide Merge, SentBuckets, Apply, Enabled, Works, Limit, Inv, AllNamesDistinct, Receivable, Flatten;
    var n := |run| - 1;
    RunWorksOut(cfg, run, n);
    InvBounded(cfg, run[n]);
    NoDeadlock(cfg, run, n);
    if AllDone(cfg, run[n]) {
      FinishedIsFaultless(cfg, ws, run, n);
    } else if AllNamesDistinct(cfg.buckets) && Receivable(cfg) {
      NobodyRaises(cfg, ws, run, n);
    }
    forall r | 0 < r <= cfg.last ensures IsPrefix(Merge(run[n][r].out, cfg.bucketSize).out, NonEmpty(ws)) {
      StreamIsPrefix(cfg, run, n, r);
      NeverWrong(ws, cfg.bucketSize, run[n][r].out);
    }
  }

  // ------------------------------------------------------------------ runs exist

  // The state in which an update starts, with whatever the buffers hold.
  function Begun(cfg: Config, contents: seq<(seq<Byte>, seq<Byte>)>): State
    requires |contents| == cfg.last + 1
  {
    seq(cfg.last + 1, r requires 0 <= r <= cfg.last =>
      Rank(if r == 0 then Fill else First, 0, 0, contents[r].0, contents[r].1, false, 0, 0, false, [], false, [], false,
        []))
  }

  lemma BegunIsInitial(cfg: Config, contents: seq<(seq<Byte>, seq<Byte>)>)
    requires |contents| == cfg.last + 1
    requires forall r :: 0 <= r <= cfg.last ==> |contents[r].0| == |contents[r].1| == cfg.bucketSize
    ensures Initial(cfg, Begun(cfg, contents)) && IsRun(cfg, [Begun(cfg, contents)])
  {
  }

  lemma RunExtends(cfg: Config, run: seq<State>, a: Action)
    requires IsRun(cfg, run) && Sized(cfg, run[|run| - 1]) && Enabled(cfg, run[|run| - 1], a)
    ensures IsRun(cfg, run + [Apply(cfg, run[|run| - 1], a)])
  {
    var longer := run + [Apply(cfg, run[|run| - 1], a)];
    assert Follows(cfg, run[|run| - 1], longer[|run|]);
    hide Initial, Enabled, Apply, Follows;
    forall i | 0 <= i < |longer| - 1 ensures Follows(cfg, longer[i], longer[i + 1]) {
      assert longer[i] == run[i] && (i < |run| - 1 ==> longer[i + 1] == run[i + 1]);
    }
  }

  lemma RunIsBounded(cfg: Config, run: seq<State>)
    requires cfg.Valid() && IsRun(cfg, run)
    ensures |run| - 1 <= (cfg.last + 1) * Limit(cfg)
  {
    assert |run| > 0;
    hide Inv, Works, Limit, Apply, Enabled, IsRun;
    RunWorksOut(cfg, run, |run| - 1);
    RunInv(cfg, run, |run| - 1);
    InvBounded(cfg, run[|run| - 1]);
  }

  function Longest(cfg: Config): nat {
    (cfg.last + 1) * Limit(cfg) + 1
  }

  // The run so far goes on within the bound, or is over.
  lemma StepOrEnd(cfg: Config, run: seq<State>) returns (next: seq<State>)
    requires cfg.Valid() && IsRun(cfg, run)
    ensures IsRun(cfg, next) && run <= next && |run| <= Longest(cfg)
    ensures |next| == |run| ==> Sized(cfg, run[|run| - 1]) && !CanStep(cfg, run[|run| - 1])
  {
    RunIsBounded(cfg, run);
    RunInv(cfg, run, |run| - 1);
    assert Sized(cfg, run[|run| - 1]);
    assert |run| <= Longest(cfg);
    hide *;
    next := run;
    if CanStep(cfg, run[|run| - 1]) {
      next := TakeStep(cfg, run);
    }
  }

  lemma TakeStep(cfg: Config, run: seq<State>) returns (next: seq<State>)
    requires IsRun(cfg, run) && |run| > 0 && Sized(cfg, run[|run| - 1]) && CanStep(cfg, run[|run| - 1])
    ensures IsRun(cfg, next) && run <= next && |next| == |run| + 1
  {
    var a :| Enabled(cfg, run[|run| - 1], a);
    hide *;
    RunExtends(cfg, run, a);
    next := run + [Apply(cfg, run[|run| - 1], a)];
  }

  /** Every run can be continued until nothing can step. */
  lemma {:induction false} EveryRunEnds(cfg: Config, run: seq<State>) returns (longer: seq<State>)
    requires cfg.Valid() && IsRun(cfg, run)
    ensures IsRun(cfg, longer) && run <= longer
    ensures Sized(cfg, longer[|longer| - 1]) && !CanStep(cfg, longer[|longer| - 1])
    decreases Longest(cfg) - |run|
  {
    longer := StepOrEnd(cfg, run);
    hide *;
    if |longer| > |run| {
      var next := longer;
      var on := StepOrEnd(cfg, next);
      longer := EveryRunEnds(cfg, next);
    } else {
      assert longer == run;
    }
  }

  /** Delivery happens: from any buffer contents there is a run to the end, and if no bucket repeats
      a name and every whole-bucket tensor is viewable, it leaves every receiver with the tensors. */
  lemma DeliveryHappens(cfg: Config, ws: seq<Tensor>, contents: seq<(seq<Byte>, seq<Byte>)>) returns (run: seq<State>)
    requires cfg.Valid() && cfg.bucketSize > 0 && AllValid(ws) && cfg.buckets == SentBuckets(ws, cfg.bucketSize)
    requires |contents| == cfg.last + 1
    requires forall r :: 0 <= r <= cfg.last ==> |contents[r].0| == |contents[r].1| == cfg.bucketSize
    ensures IsRun(cfg, run) && run[0] == Begun(cfg, contents) && Sized(cfg, run[|run| - 1])
    ensures !CanStep(cfg, run[|run| - 1])
    ensures AllNamesDistinct(cfg.buckets) && Receivable(cfg) ==>
      AllDone(cfg, run[|run| - 1]) && AllReceived(cfg, run[|run| - 1], MergeState(NonEmpty(ws), None, true))
  {
    BegunIsInitial(cfg, contents);
    hide Begun, Initial, IsRun, AllNamesDistinct, Receivable, AllDone, AllReceived, SentBuckets, Flatten;
    run := EveryRunEnds(cfg, [Begun(cfg, contents)]);
    assert run[0] == [Begun(cfg, contents)][0];
    EveryRunDelivers(cfg, ws, run);
  }
}
