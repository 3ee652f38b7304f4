/** Exactly when the tensors that a middle rank yields can be trusted. */
module MooncakeViews {
  import opened Flattening
  import opened Chunks
  import opened MooncakeBuckets
  import opened MooncakeChain
  import opened MooncakeInvariant
  import opened MooncakeTheorems
  import opened MooncakePolling

  // A middle rank is about to yield something else than the sender's bytes.
  ghost predicate TornAt(cfg: Config, s: State, r: nat)
    requires Sized(cfg, s)
  {
    && 0 < r < cfg.last && s.ranks[r].pc == Yield && s.ranks[r].k < |cfg.buckets|
    && s.ranks[r].j < |s.ranks[r].info.views| && s.ranks[r].j < |Slots(cfg.buckets[s.ranks[r].k])|
    && var me, b := s.ranks[r], cfg.buckets[s.ranks[r].k];
    var v, part := me.info.views[me.j], b[Slots(b)[me.j]];
    !(v.name == part.name && Window(me.Half(Odd(me.k)), v.offset, v.size) == part.bytes)
  }

  ghost predicate ViewsAreExact(cfg: Config) {
    forall s: State, r: nat :: Reachable(cfg, s) && Sized(cfg, s) ==> !TornAt(cfg, s, r)
  }

  // The acknowledgement pattern leaves every listed tensor as it is.
  ghost predicate Harmless(cfg: Config) {
    forall k, j :: 0 <= k < |cfg.buckets| && 0 <= j < |Slots(cfg.buckets[k])| ==> HarmlessAt(cfg, k, j)
  }

  ghost predicate HarmlessAt(cfg: Config, k: nat, j: nat)
    requires k < |cfg.buckets| && j < |Slots(cfg.buckets[k])|
  {
    AgreesWithMagic(cfg.buckets[k], Slots(cfg.buckets[k])[j])
  }

  lemma TornMeansAcknowledged(cfg: Config, s: State, r: nat)
    requires cfg.Valid() && cfg.NoFalseAck() && Reachable(cfg, s) && Sized(cfg, s) && 0 < r < cfg.last
    requires s.ranks[r].pc == Yield && s.ranks[r].j < |s.ranks[r].info.views|
    ensures var me := s.ranks[r];
      && me.k < |cfg.buckets| && me.j < |Slots(cfg.buckets[me.k])|
      && (TornAt(cfg, s, r) <==> me.k < Acked(s.ranks[r + 1]) && !HarmlessAt(cfg, me.k, me.j))
  {
    var run :| IsRun(cfg, run) && EndsAt(run, s);
    hide IsRun, Reachable, Slots, Window, AgreesWithMagic;
    ViewsAreExactUntilAcknowledged(cfg, run, |run| - 1, r);
  }

  // ------------------------------------------- driving the chain to a late view

  // The rank has not got beyond view j of bucket k.
  predicate NotPast(me: Rank, k: nat, j: nat) {
    me.k < k || (me.k == k && (me.pc in {Recv, WaitHalf, Read, Forward} || (me.pc == Yield && me.j <= j)))
  }

  predicate AtView(me: Rank, k: nat, j: nat) {
    me.pc == Yield && me.k == k && me.j == j
  }

  lemma StaysBefore(cfg: Config, r: nat, l: Local, k: nat, j: nat)
    requires r > 0 && ReceiverInv(cfg, l.me) && CanRun(l.me, l.inq) && k < |cfg.buckets| && j < |Slots(cfg.buckets[k])|
    requires NotPast(l.me, k, j) && !AtView(l.me, k, j)
    ensures NotPast(RunRank(cfg, r, l).me, k, j)
  {
    hide Content, Overwrite, Window, Slots, Acknowledged;
  }

  lemma StepStaysBefore(cfg: Config, s: State, r: nat, m: nat, k: nat, j: nat)
    requires cfg.Valid() && cfg.NoFalseAck() && Inv(cfg, s) && Enabled(cfg, s, r)
    requires 0 < m <= cfg.last && k < |cfg.buckets| && j < |Slots(cfg.buckets[k])| && NotPast(s.ranks[m], k, j)
    requires !(r == m && AtView(s.ranks[m], k, j))
    ensures Inv(cfg, Step(cfg, s, r)) && NotPast(Step(cfg, s, r).ranks[m], k, j)
    ensures Total(cfg, Step(cfg, s, r).ranks) >= Total(cfg, s.ranks) + 1
  {
    StepKeeps(cfg, s, r);
    StepWorks(cfg, s, r);
    assert RankInv(cfg, m, s.ranks[m]);
    hide Inv, Total, RunRank, ReceiverInv, SenderInv, CanRun, Slots;
    var l := LocalOf(cfg, s, r);
    if r == m {
      StaysBefore(cfg, r, l, k, j);
    } else if r == m + 1 {
      HalvesOnlyChange(cfg, r, l);
    }
  }

  // A rank leaves its predecessor as it was, but for the bytes of its halves.
  lemma HalvesOnlyChange(cfg: Config, r: nat, l: Local)
    requires CanRun(l.me, l.inq)
    ensures RunRank(cfg, r, l).prev == l.prev.(h0 := RunRank(cfg, r, l).prev.h0, h1 := RunRank(cfg, r, l).prev.h1)
  {
    hide Content, Overwrite, Window, Views, Offset, Acknowledged;
  }

  ghost predicate Still(cfg: Config, s: State, m: nat, k: nat, j: nat)
    requires Sized(cfg, s) && m <= cfg.last
  {
    forall r: nat :: Enabled(cfg, s, r) ==> r == m && AtView(s.ranks[m], k, j)
  }

  lemma DriveToView(cfg: Config, s: State, m: nat, k: nat, j: nat) returns (t: State)
    requires cfg.Valid() && cfg.NoFalseAck() && Reachable(cfg, s) && Sized(cfg, s) && Inv(cfg, s)
    requires 0 < m <= cfg.last && k < |cfg.buckets| && j < |Slots(cfg.buckets[k])| && NotPast(s.ranks[m], k, j)
    ensures Reachable(cfg, t) && Sized(cfg, t) && Inv(cfg, t) && NotPast(t.ranks[m], k, j) && Still(cfg, t, m, k, j)
    decreases (cfg.last + 1) * Limit(cfg) - Total(cfg, s.ranks)
  {
    hide Inv, Total, Limit, Enabled, Step, Reachable, Config.NoFalseAck, NotPast, AtView;
    if Still(cfg, s, m, k, j) {
      t := s;
    } else {
      var r: nat :| Enabled(cfg, s, r) && !(r == m && AtView(s.ranks[m], k, j));
      StepStaysBefore(cfg, s, r, m, k, j);
      ReachStep(cfg, s, r);
      InvBounded(cfg, Step(cfg, s, r));
      t := DriveToView(cfg, Step(cfg, s, r), m, k, j);
    }
  }

  // A last rank that cannot run has acknowledged what its predecessor forwarded.
  lemma LastHasCaughtUp(cfg: Config, m: Rank, end: Rank, queue: seq<Info>)
    requires ReceiverInv(cfg, end) && LinkInv(cfg, m, end, queue) && end.pc != WaitHalf && !CanRun(end, queue)
    requires m.pc == Yield && m.k < |cfg.buckets|
    ensures m.k < Acked(end)
  {
    hide Halves, InfoOf, Content, Slots;
  }

  lemma StillShape(cfg: Config, s: State, k: nat, j: nat)
    requires cfg.Valid() && Sized(cfg, s) && Inv(cfg, s) && cfg.last >= 2 && k < |cfg.buckets|
    requires NotPast(s.ranks[cfg.last - 1], k, j) && Still(cfg, s, cfg.last - 1, k, j)
    ensures AtView(s.ranks[cfg.last - 1], k, j) && k < Acked(s.ranks[cfg.last])
  {
    hide Inv, LinkInv, ReceiverInv, CanRun, NotPast;
    var m, end := s.ranks[cfg.last - 1], s.ranks[cfg.last];
    LastTwo(cfg, s);
    NotPastIsUnfinished(cfg, m, k, j);
    SomeoneSteps(cfg, s, cfg.last - 1);
    assert AtView(m, k, j);
    assert !Enabled(cfg, s, cfg.last);
    LastHasCaughtUp(cfg, m, end, s.queues[cfg.last]);
  }

  lemma LastTwo(cfg: Config, s: State)
    requires Inv(cfg, s) && cfg.last >= 2
    ensures Sized(cfg, s)
    ensures ReceiverInv(cfg, s.ranks[cfg.last - 1]) && ReceiverInv(cfg, s.ranks[cfg.last])
    ensures LinkInv(cfg, s.ranks[cfg.last - 1], s.ranks[cfg.last], s.queues[cfg.last])
    ensures s.ranks[cfg.last].pc != WaitHalf
  {
    hide LinkInv, ReceiverInv, Halves;
    assert RankInv(cfg, cfg.last - 1, s.ranks[cfg.last - 1]) && RankInv(cfg, cfg.last, s.ranks[cfg.last]);
  }

  lemma NotPastIsUnfinished(cfg: Config, me: Rank, k: nat, j: nat)
    requires ReceiverInv(cfg, me) && k < |cfg.buckets| && NotPast(me, k, j)
    ensures me.pc != Done
  {
    hide InfoOf, Slots;
  }

  /** Every tensor that every middle rank yields, in every run, is the sender's if and only if there
      is no middle rank, or the pattern leaves every listed tensor as it is.  (The last rank is
      always exact.) */
  lemma ViewsAreExactIff(cfg: Config)
    requires cfg.Valid() && cfg.NoFalseAck()
    ensures ViewsAreExact(cfg) <==> cfg.last == 1 || Harmless(cfg)
  {
    hide Reachable, HarmlessAt, Slots, Inv, Config.NoFalseAck, Start;
    if cfg.last == 1 || Harmless(cfg) {
      forall s: State, r: nat | Reachable(cfg, s) && Sized(cfg, s) ensures !TornAt(cfg, s, r) {
        if TornAt(cfg, s, r) {
          TornMeansAcknowledged(cfg, s, r);
          assert false;
        }
      }
    } else {
      var k, j :| 0 <= k < |cfg.buckets| && 0 <= j < |Slots(cfg.buckets[k])| && !HarmlessAt(cfg, k, j);
      var s := Beginning(cfg, k, j);
      var t := DriveToView(cfg, s, cfg.last - 1, k, j);
      StillShape(cfg, t, k, j);
      LateViewIsListed(cfg, t, k, j);
      TornMeansAcknowledged(cfg, t, cfg.last - 1);
      assert TornAt(cfg, t, cfg.last - 1);
    }
  }

  lemma LateViewIsListed(cfg: Config, s: State, k: nat, j: nat)
    requires Sized(cfg, s) && Inv(cfg, s) && cfg.last >= 2 && AtView(s.ranks[cfg.last - 1], k, j)
    requires k < |cfg.buckets| && j < |Slots(cfg.buckets[k])|
    ensures j < |s.ranks[cfg.last - 1].info.views|
  {
    assert RankInv(cfg, cfg.last - 1, s.ranks[cfg.last - 1]);
    hide Content, Slots;
  }

  lemma Beginning(cfg: Config, k: nat, j: nat) returns (s: State)
    requires cfg.Valid() && cfg.last >= 2
    ensures Reachable(cfg, s) && Sized(cfg, s) && Inv(cfg, s) && NotPast(s.ranks[cfg.last - 1], k, j)
  {
    s := Start(cfg);
    assert Initial(cfg, s);
    assert IsRun(cfg, [s]) && EndsAt([s], s);
    InitialInv(cfg, s);
  }
}
