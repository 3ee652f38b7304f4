/** What the Mooncake relay guarantees over whole runs. */
module MooncakeTheorems {
  import opened Flattening
  import opened Chunks
  import opened MooncakeBuckets
  import opened MooncakeChain
  import opened MooncakeInvariant
  import opened Sums

  /** At every transfer the predecessor's half holds exactly the announced bucket,
      for any number of ranks and buckets, whatever the buffers held before. */
  lemma ReadsAreIntact(cfg: Config, run: seq<State>, i: nat, r: nat)
    requires cfg.Valid() && cfg.NoFalseAck() && IsRun(cfg, run) && i < |run| && 0 < r <= cfg.last
    requires Sized(cfg, run[i]) && run[i].ranks[r].pc == Read
    ensures var me := run[i].ranks[r];
      && me.k < |cfg.buckets| && InfoOf(cfg, me.info, me.k)
      && Window(run[i].ranks[r - 1].Half(me.info.ptr), 0, me.info.len) == Content(cfg.buckets[me.k])
  {
    hide IsRun, Content;
    RunInv(cfg, run, i);
    assert RankInv(cfg, r, run[i].ranks[r]);
    assert LinkInv(cfg, run[i].ranks[r - 1], run[i].ranks[r], run[i].queues[r]);
    SourceIntact(cfg, run[i].ranks[r - 1], run[i].ranks[r], run[i].queues[r]);
  }

  /** The last rank yields, bucket by bucket, the entries the sender listed, byte for byte. */
  lemma LastRankIsExact(cfg: Config, run: seq<State>, i: nat)
    requires cfg.Valid() && cfg.NoFalseAck() && IsRun(cfg, run) && i < |run|
    ensures Sized(cfg, run[i]) && run[i].ranks[cfg.last].out <= Flatten(ServedAll(cfg.buckets))
    ensures run[i].ranks[cfg.last].pc == Done ==> run[i].ranks[cfg.last].out == Flatten(ServedAll(cfg.buckets))
  {
    hide IsRun, Halves, Served;
    RunInv(cfg, run, i);
    var me, served := run[i].ranks[cfg.last], ServedAll(cfg.buckets);
    FlattenPrefix(served, me.k, Yielded(cfg, me));
    if me.pc == Done {
      assert RankInv(cfg, cfg.last, me);
      FlattenTake(served, me.k);
      hide Flatten;
      assert served[..me.k + 1] == served && served[me.k][..|served[me.k]|] == served[me.k];
    }
  }

  /** From the tensors to the last rank, when they pack and no reused bucket begins with the
      pattern: in every interleaving a finished last rank has yielded the tensors that the sender
      was given if and only if no bucket lists a name twice. */
  lemma LastRankReceivesTheWeights(cfg: Config, ws: seq<Part>, run: seq<State>)
    requires cfg.Valid() && cfg.NoFalseAck() && Pack([], ws, cfg.bucketSize) == Some(cfg.buckets)
    requires IsRun(cfg, run)
    ensures |run| > 0 && Sized(cfg, run[|run| - 1])
    ensures var out := run[|run| - 1].ranks[cfg.last].out;
      && ((forall k :: 0 <= k < |cfg.buckets| ==> NamesApart(cfg.buckets[k])) ==> out <= ws)
      && (!CanStep(cfg, run[|run| - 1]) ==>
            (out == ws <==> forall k :: 0 <= k < |cfg.buckets| ==> NamesApart(cfg.buckets[k])))
  {
    assert |run| > 0;
    hide IsRun, Config.NoFalseAck, Flatten, Limit, NamesApart, Served;
    PackExactly([], ws, cfg.bucketSize);
    assert [] + ws == ws;
    ServedStreamIff(cfg.buckets);
    EveryRunFinishes(cfg, run);
    LastRankIsExact(cfg, run, |run| - 1);
  }

  // The bytes of a part that lie under the acknowledgement pattern already equal it.
  ghost predicate AgreesWithMagic(b: Bucket, j: nat)
    requires j < |b|
  {
    forall x :: 0 <= x < |b[j].bytes| && Offset(b, j) + x < 4 ==> b[j].bytes[x] == MAGIC[Offset(b, j) + x]
  }

  /** A view that a middle rank is about to yield is the sender's tensor if and only
      if its successor has not yet acknowledged the bucket, or the acknowledgement
      does not change the tensor's bytes. */
  lemma ViewsAreExactUntilAcknowledged(cfg: Config, run: seq<State>, i: nat, r: nat)
    requires cfg.Valid() && cfg.NoFalseAck() && IsRun(cfg, run) && i < |run| && 0 < r < cfg.last
    requires Sized(cfg, run[i]) && run[i].ranks[r].pc == Yield && run[i].ranks[r].j < |run[i].ranks[r].info.views|
    ensures var me, next := run[i].ranks[r], run[i].ranks[r + 1];
      && me.k < |cfg.buckets| && me.j < |Slots(cfg.buckets[me.k])|
      && (var b, v := cfg.buckets[me.k], me.info.views[me.j];
          var x := Slots(b)[me.j];
          && v.name == b[x].name
          && (Window(me.Half(Odd(me.k)), v.offset, v.size) == b[x].bytes
              <==> Acked(next) <= me.k || AgreesWithMagic(b, x)))
  {
    hide IsRun, Content, Stamped, Slots, Window, Offset;
    RunInv(cfg, run, i);
    var me, next := run[i].ranks[r], run[i].ranks[r + 1];
    assert RankInv(cfg, r, me);
    assert LinkInv(cfg, run[i].ranks[(r + 1) - 1], next, run[i].queues[r + 1]);
    var b := cfg.buckets[me.k];
    assert Stamped(me.Half(Odd(me.k)), Content(b), me.k < Acked(next));
    if Acked(next) <= me.k {
      WindowIsPart(me.Half(Odd(me.k)), b, Slots(b)[me.j]);
    } else {
      StampedWindow(me.Half(Odd(me.k)), b, Slots(b)[me.j]);
    }
  }

  lemma StampedWindow(half: seq<Byte>, b: Bucket, j: nat)
    requires Stamped(half, Content(b), true) && j < |b|
    ensures Window(half, Offset(b, j), |b[j].bytes|) == b[j].bytes <==> AgreesWithMagic(b, j)
  {
    PartWindow(b, j);
    var c, o, n := Content(b), Offset(b, j), |b[j].bytes|;
    StampedBytes(half, c);
    hide Content, Offset, Stamped;
    var w := Window(half, o, n);
    assert w == half[o..o + n];
    forall x | 0 <= x < n ensures w[x] == if o + x < 4 then MAGIC[o + x] else b[j].bytes[x] {
      assert b[j].bytes[x] == c[o..o + n][x] == c[o + x];
      assert w[x] == half[o + x];
    }
    if AgreesWithMagic(b, j) {
      assert w == b[j].bytes;
    }
  }

  lemma StampedBytes(half: seq<Byte>, content: seq<Byte>)
    requires Stamped(half, content, true)
    ensures |half| >= 4 && |content| <= |half|
    ensures forall x :: 0 <= x < |content| || 0 <= x < 4 ==> half[x] == if x < 4 then MAGIC[x] else content[x]
  {
    forall x | 0 <= x < |content| || 0 <= x < 4 ensures half[x] == if x < 4 then MAGIC[x] else content[x] {
      if x < 4 {
        assert half[x] == half[..4][x];
      } else {
        assert half[x] == half[4..|content|][x - 4] == content[4..][x - 4];
      }
    }
  }

  // ---------------------------------------------------------------- liveness

  ghost predicate AllDone(cfg: Config, s: State)
    requires Sized(cfg, s)
  {
    forall r :: 0 <= r <= cfg.last ==> s.ranks[r].pc == Done
  }

  ghost predicate Drained(cfg: Config, s: State)
    requires Sized(cfg, s)
  {
    forall r :: 0 < r <= cfg.last ==> s.queues[r] == []
  }

  ghost predicate CanStep(cfg: Config, s: State)
    requires Sized(cfg, s)
  {
    exists r: nat :: Enabled(cfg, s, r)
  }

  // A poll that fails means the bucket is not acknowledged, and the successor still has something to do.
  lemma FailedPoll(cfg: Config, r: nat, me: Rank, next: Rank, queue: seq<Info>)
    requires RankInv(cfg, r, me) && ReceiverInv(cfg, next) && LinkInv(cfg, me, next, queue)
    requires me.pc in {Wait, FinalWait, WaitHalf} && !Acknowledged(me.Half(Odd(me.k)))
    ensures next.pc != Done && (next.pc == Recv ==> queue != [])
  {
    hide Content, Views;
    var n := if me.pc == FinalWait then me.k else me.k - 2;
    assert Odd(n) == Odd(me.k);
    assert Stamped(me.Half(Odd(n)), Content(cfg.buckets[n]), n < Acked(next));
    assert Acked(next) <= n;
  }

  // A rank at or after r can step.
  ghost predicate CanStepFrom(cfg: Config, s: State, r: nat)
    requires Sized(cfg, s)
  {
    exists q: nat :: r <= q && Enabled(cfg, s, q)
  }

  // A rank that polls depends on its successor, so look there.
  lemma {:induction false} AckArrives(cfg: Config, s: State, r: nat)
    requires cfg.Valid() && Inv(cfg, s) && Sized(cfg, s) && r < cfg.last
    requires s.ranks[r].pc in {Wait, FinalWait, WaitHalf}
    ensures CanStepFrom(cfg, s, r)
    decreases cfg.last - r
  {
    hide Halves, Content, Views, Flatten, InfoOf;
    var next := s.ranks[r + 1];
    assert RankInv(cfg, r, s.ranks[r]) && RankInv(cfg, r + 1, next);
    assert LinkInv(cfg, s.ranks[(r + 1) - 1], next, s.queues[r + 1]);
    if !Enabled(cfg, s, r) && !Enabled(cfg, s, r + 1) {
      FailedPoll(cfg, r, s.ranks[r], next, s.queues[r + 1]);
      AckArrives(cfg, s, r + 1);
    }
  }

  // A rank that waits for metadata is behind its predecessor, so look there.
  lemma {:induction false} SomeoneSteps(cfg: Config, s: State, r: nat)
    requires cfg.Valid() && Inv(cfg, s) && Sized(cfg, s) && r <= cfg.last && s.ranks[r].pc != Done
    ensures CanStep(cfg, s)
    decreases r
  {
    hide Halves, Content, Views, Flatten, InfoOf;
    var me := s.ranks[r];
    assert RankInv(cfg, r, me);
    if !Enabled(cfg, s, r) {
      if me.pc == Recv {
        assert LinkInv(cfg, s.ranks[r - 1], me, s.queues[r]);
        assert RankInv(cfg, r - 1, s.ranks[r - 1]);
        SomeoneSteps(cfg, s, r - 1);
      } else {
        AckArrives(cfg, s, r);
      }
    }
  }

  // ------------------------------------------------------------- termination

  function Phase(me: Rank): nat {
    match me.pc
    case Wait => 0
    case Fill => 1
    case Send => 2
    case FinalWait => 3
    case Recv => 0
    case WaitHalf => 1
    case Read => 2
    case Forward => 3
    case Yield => 4
    case Ack => 5
    case Done => 6
  }

  function Before(cfg: Config, k: nat): nat {
    if k <= |cfg.buckets| then |Flatten(cfg.buckets[..k])| else 0
  }

  // Steps a rank has made; a sender that does not wait makes one fewer.
  function Work(cfg: Config, r: nat, me: Rank): nat {
    var parts := if me.k < |cfg.buckets| then |cfg.buckets[me.k]| else 0;
    Before(cfg, me.k) + 7 * me.k + Phase(me)
    + (match me.pc
       case Fill => me.j
       case Yield => me.j
       case Send => parts
       case FinalWait => parts
       case Ack => parts
       case Done => parts
       case _ => 0)
  }

  function Limit(cfg: Config): nat {
    |Flatten(cfg.buckets)| + 7 * |cfg.buckets| + 6
  }

  // All that the count needs to know of a rank.
  predicate Countable(cfg: Config, me: Rank) {
    && me.k < |cfg.buckets|
    && (me.pc in {Fill, Yield} ==> me.j <= |cfg.buckets[me.k]|)
    && (me.pc == Yield ==> |me.info.views| <= |cfg.buckets[me.k]|)
    && (me.pc == Ack && !me.info.isLast ==> me.k + 1 < |cfg.buckets|)
  }

  lemma RankCountable(cfg: Config, r: nat, me: Rank)
    requires RankInv(cfg, r, me)
    ensures Countable(cfg, me)
  {
    hide Content;
  }

  lemma RankWorks(cfg: Config, r: nat, l: Local)
    requires Countable(cfg, l.me) && CanRun(l.me, l.inq)
    ensures Work(cfg, r, RunRank(cfg, r, l).me) >= Work(cfg, r, l.me) + 1
  {
    hide Countable, CanRun, RunRank, Work;
    if l.me.pc in {Send, Ack} {
      TurnWorks(cfg, r, l);
    } else {
      StayWorks(cfg, r, l);
    }
  }

  lemma TurnWorks(cfg: Config, r: nat, l: Local)
    requires Countable(cfg, l.me) && CanRun(l.me, l.inq) && l.me.pc in {Send, Ack}
    ensures Work(cfg, r, RunRank(cfg, r, l).me) >= Work(cfg, r, l.me) + 1
  {
    if l.me.k + 1 < |cfg.buckets| {
      FlattenTake(cfg.buckets, l.me.k);
      assert Before(cfg, l.me.k + 1) == Before(cfg, l.me.k) + |cfg.buckets[l.me.k]|;
    }
    hide Content, Flatten, Overwrite, Window, Views, Before, Offset, Acknowledged;
  }

  lemma StayWorks(cfg: Config, r: nat, l: Local)
    requires Countable(cfg, l.me) && CanRun(l.me, l.inq) && l.me.pc !in {Send, Ack}
    ensures Work(cfg, r, RunRank(cfg, r, l).me) >= Work(cfg, r, l.me) + 1
  {
    hide Content, Flatten, Overwrite, Window, Views, Before, Offset, Acknowledged;
  }

  lemma WorkBounded(cfg: Config, r: nat, me: Rank)
    requires RankInv(cfg, r, me)
    ensures Work(cfg, r, me) <= Limit(cfg)
  {
    var j := if me.pc in {Fill, Yield} then me.j
      else if me.pc in {Send, FinalWait, Ack, Done} then |cfg.buckets[me.k]|
      else 0;
    FlattenPrefix(cfg.buckets, me.k, j);
    assert |Flatten(cfg.buckets[..me.k]) + cfg.buckets[me.k][..j]| <= |Flatten(cfg.buckets)|;
    hide Content, Flatten;
  }

  function Works(cfg: Config, ranks: seq<Rank>): (ws: seq<int>)
    ensures |ws| == |ranks| && forall r :: 0 <= r < |ranks| ==> ws[r] == Work(cfg, r, ranks[r])
  {
    seq(|ranks|, r requires 0 <= r < |ranks| => Work(cfg, r, ranks[r]))
  }

  function Total(cfg: Config, ranks: seq<Rank>): int {
    Sum(Works(cfg, ranks))
  }

  lemma TotalUpdate(cfg: Config, ranks: seq<Rank>, r: nat, me: Rank)
    requires r < |ranks|
    ensures Total(cfg, ranks[r := me]) == Total(cfg, ranks) - Work(cfg, r, ranks[r]) + Work(cfg, r, me)
  {
    hide Work;
    SumUpdate(Works(cfg, ranks), r, Work(cfg, r, me));
    assert Works(cfg, ranks[r := me]) == Works(cfg, ranks)[r := Work(cfg, r, me)];
  }

  lemma HalvesDoNoWork(cfg: Config, r: nat, me: Rank, me': Rank)
    requires me' == me.(h0 := me'.h0, h1 := me'.h1)
    ensures Work(cfg, r, me') == Work(cfg, r, me)
  {
  }

  lemma StepWorks(cfg: Config, s: State, r: nat)
    requires cfg.Valid() && cfg.NoFalseAck() && Inv(cfg, s) && Enabled(cfg, s, r)
    ensures Total(cfg, Step(cfg, s, r).ranks) >= Total(cfg, s.ranks) + 1
  {
    hide Work, RunRank, RankInv, LinkInv, Halves, LastExact, Config.NoFalseAck;
    var l := LocalOf(cfg, s, r);
    AroundRank(cfg, s, r);
    RunKeeps(cfg, r, l, NextOf(s, r));
    RankCountable(cfg, r, l.me);
    RankWorks(cfg, r, l);
    var l' := RunRank(cfg, r, l);
    if r > 0 {
      HalvesDoNoWork(cfg, r - 1, s.ranks[r - 1], l'.prev);
      TotalUpdate(cfg, s.ranks, r - 1, l'.prev);
      TotalUpdate(cfg, s.ranks[r - 1 := l'.prev], r, l'.me);
    } else {
      TotalUpdate(cfg, s.ranks, r, l'.me);
    }
  }

  lemma InvBounded(cfg: Config, s: State)
    requires cfg.Valid() && Inv(cfg, s)
    ensures 0 <= Total(cfg, s.ranks) <= (cfg.last + 1) * Limit(cfg)
  {
    hide Work, Limit, LinkInv, Halves, RankInv;
    forall r | 0 <= r <= cfg.last ensures Work(cfg, r, s.ranks[r]) <= Limit(cfg) {
      WorkBounded(cfg, r, s.ranks[r]);
    }
    SumBounded(Works(cfg, s.ranks), Limit(cfg));
  }

  lemma {:induction false} RunWorks(cfg: Config, run: seq<State>, i: nat)
    requires cfg.Valid() && cfg.NoFalseAck() && IsRun(cfg, run) && i < |run|
    ensures Total(cfg, run[i].ranks) >= i
    ensures Inv(cfg, run[i])
  {
    hide Inv, Total, Step, Config.NoFalseAck;
    RunInv(cfg, run, i);
    if i == 0 {
      InvBounded(cfg, run[0]);
    } else {
      RunWorks(cfg, run, i - 1);
      var j := i - 1;
      assert Linked(cfg, run[j], run[j + 1]);
      var r: nat :| Enabled(cfg, run[j], r) && run[j + 1] == Step(cfg, run[j], r);
      StepWorks(cfg, run[j], r);
    }
  }

  /** No run exceeds a bound known in advance, and a run that cannot go on has every
      rank finished and nothing left in a queue, so the next update may begin with
      the buffers as they are. */
  lemma EveryRunFinishes(cfg: Config, run: seq<State>)
    requires cfg.Valid() && cfg.NoFalseAck() && IsRun(cfg, run)
    ensures |run| - 1 <= (cfg.last + 1) * Limit(cfg)
    ensures Sized(cfg, run[|run| - 1])
    ensures CanStep(cfg, run[|run| - 1]) || AllDone(cfg, run[|run| - 1])
    ensures AllDone(cfg, run[|run| - 1]) ==> Drained(cfg, run[|run| - 1])
  {
    hide Total, Limit, Step, Enabled, Config.NoFalseAck, Halves, RankInv;
    var n := |run| - 1;
    RunWorks(cfg, run, n);
    InvBounded(cfg, run[n]);
    var s := run[n];
    if !AllDone(cfg, s) {
      var r :| 0 <= r <= cfg.last && s.ranks[r].pc != Done;
      SomeoneSteps(cfg, s, r);
    } else {
      forall r | 0 < r <= cfg.last ensures s.queues[r] == [] {
        DrainedLink(cfg, s, r);
      }
    }
  }

  lemma DrainedLink(cfg: Config, s: State, r: nat)
    requires Inv(cfg, s) && 0 < r <= cfg.last && s.ranks[r - 1].pc == Done && s.ranks[r].pc == Done
    ensures s.queues[r] == []
  {
    hide Halves, InfoOf;
    assert RankInv(cfg, r - 1, s.ranks[r - 1]) && RankInv(cfg, r, s.ranks[r]);
    assert LinkInv(cfg, s.ranks[r - 1], s.ranks[r], s.queues[r]);
  }
}
