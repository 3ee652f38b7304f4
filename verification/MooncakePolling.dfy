/** Exactly when polling a data buffer for its own acknowledgement can be trusted, and
    runs in which it cannot. */
module MooncakePolling {
  import opened Flattening
  import opened Chunks
  import opened MooncakeBuckets
  import opened MooncakeChain
  import opened MooncakeInvariant
  import opened MooncakeTheorems

  // A poll is about to succeed although the successor has not acknowledged the bucket.
  ghost predicate Fooled(cfg: Config, s: State, r: nat)
    requires Sized(cfg, s)
  {
    && r < cfg.last && s.ranks[r].pc in {Wait, WaitHalf} && 2 <= s.ranks[r].k
    && Acknowledged(s.ranks[r].Half(Odd(s.ranks[r].k)))
    && Acked(s.ranks[r + 1]) <= s.ranks[r].k - 2
  }

  ghost predicate EndsAt(run: seq<State>, s: State) {
    |run| > 0 && run[|run| - 1] == s
  }

  ghost predicate Reachable(cfg: Config, s: State) {
    exists run :: IsRun(cfg, run) && EndsAt(run, s)
  }

  lemma RunGrows(cfg: Config, run: seq<State>, t: State)
    requires IsRun(cfg, run) && Linked(cfg, run[|run| - 1], t)
    ensures IsRun(cfg, run + [t])
  {
    hide Linked, Initial;
    var longer := run + [t];
    assert longer[0] == run[0];
    forall i | 0 <= i < |longer| - 1 ensures Linked(cfg, longer[i], longer[i + 1]) {
      assert longer[i] == run[i];
      if i < |run| - 1 {
        assert longer[i + 1] == run[i + 1];
      }
    }
  }

  lemma ReachStep(cfg: Config, s: State, r: nat)
    requires Reachable(cfg, s) && Sized(cfg, s) && Enabled(cfg, s, r)
    ensures Reachable(cfg, Step(cfg, s, r)) && Sized(cfg, Step(cfg, s, r))
  {
    var run :| IsRun(cfg, run) && EndsAt(run, s);
    hide IsRun, Initial, Enabled, Step;
    var t := Step(cfg, s, r);
    assert Linked(cfg, s, t);
    RunGrows(cfg, run, t);
    assert EndsAt(run + [t], t);
  }

  // ------------------------------------------------ driving the chain to bucket k

  // Bucket k is the first that can pass for an acknowledgement.
  ghost predicate FirstBad(cfg: Config, k: nat) {
    && cfg.Valid() && k + 2 < |cfg.buckets| && !DiffersFromMagic(Content(cfg.buckets[k]))
    && forall j :: 0 <= j < k ==> DiffersFromMagic(Content(cfg.buckets[j]))
  }

  // The same chain with a shorter stream: up to bucket k it cannot tell the difference.
  function Cut(cfg: Config, k: nat): Config
    requires k + 2 < |cfg.buckets|
  {
    cfg.(buckets := cfg.buckets[..k + 2])
  }

  predicate Upto(me: Rank, k: nat) {
    me.k <= k && me.pc in {Fill, Send, Wait}
  }

  // The bytes at x of the pattern's range that the bucket has not overwritten.
  predicate MagicFrom(half: seq<Byte>, from: nat) {
    forall x :: from <= x < 4 && x < |half| ==> half[x] == MAGIC[x]
  }

  // Whatever the sender has not yet written over still shows the pattern.
  predicate Stale(cfg: Config, me: Rank)
    requires me.k < |cfg.buckets|
  {
    var b := cfg.buckets[me.k];
    && (me.pc == Fill && me.j <= |b| ==> MagicFrom(me.Half(Odd(me.k)), Offset(b, me.j)))
    && (me.pc == Send ==> MagicFrom(me.Half(Odd(me.k)), |Content(b)|))
    && (me.k == 0 ==> MagicFrom(me.h1, 0))
  }

  ghost predicate At(cfg: Config, k: nat, s: State)
    requires k + 2 < |cfg.buckets|
  {
    Sized(cfg, s) && Inv(Cut(cfg, k), s) && Upto(s.ranks[0], k) && Stale(cfg, s.ranks[0])
  }

  predicate AtSend(me: Rank, k: nat) {
    me.pc == Send && me.k == k
  }

  lemma SameRun(cfg: Config, k: nat, r: nat, l: Local)
    requires k + 2 < |cfg.buckets| && CanRun(l.me, l.inq) && RankInv(Cut(cfg, k), r, l.me)
    requires r == 0 ==> Upto(l.me, k)
    ensures RunRank(cfg, r, l) == RunRank(Cut(cfg, k), r, l)
  {
    hide Content, Overwrite, Window, Views, Offset, Acknowledged, InfoOf;
    assert r == 0 ==> Cut(cfg, k).buckets[l.me.k] == cfg.buckets[l.me.k];
  }

  lemma SameStep(cfg: Config, k: nat, s: State, r: nat)
    requires k + 2 < |cfg.buckets| && Sized(cfg, s) && Enabled(cfg, s, r) && Upto(s.ranks[0], k)
    requires RankInv(Cut(cfg, k), r, s.ranks[r])
    ensures Step(cfg, s, r) == Step(Cut(cfg, k), s, r)
  {
    hide RunRank, RankInv, Upto;
    SameRun(cfg, k, r, Local(PrevOf(s, r), s.ranks[r], s.queues[r], s.queues[r + 1]));
  }

  lemma OverwriteAt(half: seq<Byte>, at: nat, bytes: seq<Byte>, x: nat)
    requires x < |half|
    ensures |Overwrite(half, at, bytes)| == |half|
    ensures !(at <= x < at + |bytes|) ==> Overwrite(half, at, bytes)[x] == half[x]
    ensures at <= x < at + |bytes| && at + |bytes| <= |half| ==> Overwrite(half, at, bytes)[x] == bytes[x - at]
  {
  }

  // The sender's own step keeps the untouched bytes.
  lemma SenderStale(cfg: Config, k: nat, l: Local)
    requires k + 2 < |cfg.buckets| && Upto(l.me, k) && !AtSend(l.me, k) && CanRun(l.me, l.inq) && Stale(cfg, l.me)
    requires l.me.pc == Fill ==> l.me.j <= |cfg.buckets[l.me.k]|
    ensures var me' := RunRank(cfg, 0, l).me; Upto(me', k) && Stale(cfg, me')
  {
    match l.me.pc
    case Fill => FillStale(cfg, k, l);
    case Send => SendStale(cfg, k, l);
    case Wait => WaitStale(cfg, k, l);
  }

  lemma FillStale(cfg: Config, k: nat, l: Local)
    requires k + 2 < |cfg.buckets| && Upto(l.me, k) && Stale(cfg, l.me) && l.me.pc == Fill &&
        l.me.j <= |cfg.buckets[l.me.k]|
    ensures var me' := RunRank(cfg, 0, l).me; Upto(me', k) && Stale(cfg, me')
  {
    var me, b, half := l.me, cfg.buckets[l.me.k], l.me.Half(Odd(l.me.k));
    assert b[..|b|] == b;
    if me.j < |b| {
      OffsetGrows(b, me.j);
      hide Content, Offset, Overwrite, MagicFrom;
    } else {
      hide Content, Overwrite, MagicFrom;
    }
  }

  lemma SendStale(cfg: Config, k: nat, l: Local)
    requires k + 2 < |cfg.buckets| && Upto(l.me, k) && !AtSend(l.me, k) && Stale(cfg, l.me) && l.me.pc == Send
    ensures var me' := RunRank(cfg, 0, l).me; Upto(me', k) && Stale(cfg, me')
  {
    EmptyContent(cfg.buckets[l.me.k + 1]);
    hide Content, Views, MagicFrom;
  }

  lemma WaitStale(cfg: Config, k: nat, l: Local)
    requires k + 2 < |cfg.buckets| && Upto(l.me, k) && CanRun(l.me, l.inq) && Stale(cfg, l.me) && l.me.pc == Wait
    ensures var me' := RunRank(cfg, 0, l).me; Upto(me', k) && Stale(cfg, me')
  {
    var half := l.me.Half(Odd(l.me.k));
    assert forall x :: 0 <= x < 4 ==> half[x] == half[..4][x];
    assert forall from: nat :: MagicFrom(half, from);
    hide Content, Offset, MagicFrom, Acknowledged;
  }

  lemma OffsetGrows(b: Bucket, j: nat)
    requires j < |b|
    ensures Offset(b, j + 1) == Offset(b, j) + |b[j].bytes|
  {
    assert b[..j + 1][..j] == b[..j];
  }

  // So does the successor's acknowledgement.
  lemma AckStale(cfg: Config, k: nat, prev: Rank, odd: bool)
    requires k + 2 < |cfg.buckets| && Upto(prev, k) && Stale(cfg, prev)
    ensures var prev' := prev.WithHalf(odd, Overwrite(prev.Half(odd), 0, MAGIC));
      Upto(prev', k) && Stale(cfg, prev')
  {
    hide Content, Offset;
    forall from: nat, h: seq<Byte> | MagicFrom(h, from) ensures MagicFrom(Overwrite(h, 0, MAGIC), from) {
      forall x | from <= x < 4 && x < |h| ensures Overwrite(h, 0, MAGIC)[x] == MAGIC[x] {
        OverwriteAt(h, 0, MAGIC, x);
      }
    }
  }

  lemma DriveStep(cfg: Config, k: nat, s: State, r: nat)
    requires FirstBad(cfg, k) && At(cfg, k, s) && Enabled(cfg, s, r) && !(r == 0 && AtSend(s.ranks[0], k))
    ensures At(cfg, k, Step(cfg, s, r))
    ensures Total(Cut(cfg, k), Step(cfg, s, r).ranks) >= Total(Cut(cfg, k), s.ranks) + 1
  {
    assert RankInv(Cut(cfg, k), r, s.ranks[r]);
    SameStep(cfg, k, s, r);
    StepKeeps(Cut(cfg, k), s, r);
    StepWorks(Cut(cfg, k), s, r);
    assert RankInv(Cut(cfg, k), 0, s.ranks[0]);
    hide Inv, Total, Stale, Content, Offset, FirstBad, Views, InfoOf, Halves, Overwrite, Window;
    SenderAfter(cfg, k, s, r);
  }

  lemma SenderAfter(cfg: Config, k: nat, s: State, r: nat)
    requires k + 2 < |cfg.buckets| && Sized(cfg, s) && Upto(s.ranks[0], k) && Stale(cfg, s.ranks[0])
    requires RankInv(Cut(cfg, k), 0, s.ranks[0]) && cfg.last >= 1
    requires Enabled(cfg, s, r) && !(r == 0 && AtSend(s.ranks[0], k))
    ensures Upto(Step(cfg, s, r).ranks[0], k) && Stale(cfg, Step(cfg, s, r).ranks[0])
  {
    hide Stale, Content, Offset, Views, Overwrite, Window, Acknowledged;
    var l := LocalOf(cfg, s, r);
    if r == 0 {
      SenderStale(cfg, k, l);
    } else if r == 1 && s.ranks[1].pc == Ack {
      AckStale(cfg, k, s.ranks[0], s.ranks[1].info.ptr);
    }
  }

  // Nothing can move but the sender, which is about to announce bucket k.
  ghost predicate Quiet(cfg: Config, k: nat, s: State)
    requires Sized(cfg, s)
  {
    forall r: nat :: Enabled(cfg, s, r) ==> r == 0 && AtSend(s.ranks[0], k)
  }

  lemma Drive(cfg: Config, k: nat, s: State) returns (t: State)
    requires FirstBad(cfg, k) && Reachable(cfg, s) && At(cfg, k, s)
    ensures Reachable(cfg, t) && At(cfg, k, t) && Quiet(cfg, k, t)
    decreases (cfg.last + 1) * Limit(Cut(cfg, k)) - Total(Cut(cfg, k), s.ranks)
  {
    hide Inv, Total, Limit, Stale, Enabled, Step, Reachable, FirstBad;
    if Quiet(cfg, k, s) {
      t := s;
    } else {
      var r: nat :| Enabled(cfg, s, r) && !(r == 0 && AtSend(s.ranks[0], k));
      DriveStep(cfg, k, s, r);
      ReachStep(cfg, s, r);
      CutBounded(cfg, k, Step(cfg, s, r));
      t := Drive(cfg, k, Step(cfg, s, r));
    }
  }

  lemma CutBounded(cfg: Config, k: nat, s: State)
    requires FirstBad(cfg, k) && At(cfg, k, s)
    ensures Total(Cut(cfg, k), s.ranks) <= (cfg.last + 1) * Limit(Cut(cfg, k))
  {
    InvBounded(Cut(cfg, k), s);
  }

  lemma SameEnabled(cfg: Config, k: nat, s: State, r: nat)
    requires k + 2 < |cfg.buckets| && Sized(cfg, s)
    ensures Sized(Cut(cfg, k), s) && (Enabled(Cut(cfg, k), s, r) <==> Enabled(cfg, s, r))
  {
  }

  /** When all is quiet the sender stands at bucket k, and rank 1 has acknowledged everything before it. */
  lemma QuietShape(cfg: Config, k: nat, s: State)
    requires FirstBad(cfg, k) && At(cfg, k, s) && Quiet(cfg, k, s)
    ensures AtSend(s.ranks[0], k) && s.ranks[1].pc == Recv && s.ranks[1].k == k && s.queues[1] == []
    ensures Halves(Cut(cfg, k), s.ranks[0], k)
  {
    var cut := Cut(cfg, k);
    assert RankInv(cut, 0, s.ranks[0]) && RankInv(cut, 1, s.ranks[1]) &&
        LinkInv(cut, s.ranks[1 - 1], s.ranks[1], s.queues[1]);
    SomeoneFrom(cut, s, 0);
    SomeoneFrom(cut, s, 1);
    assert cut.last == 1 ==> LastExact(cut, s.ranks[1]);
    hide Inv, Halves, Content, Stale, Flatten, InfoOf, Views, Acknowledged, LastExact;
    NobodyElse(cfg, k, s);
  }

  lemma NobodyElse(cfg: Config, k: nat, s: State)
    requires FirstBad(cfg, k) && Sized(cfg, s) && Quiet(cfg, k, s)
    ensures !CanStepFrom(Cut(cfg, k), s, 1) && !Enabled(Cut(cfg, k), s, 1)
    ensures AtSend(s.ranks[0], k) || (!CanStepFrom(Cut(cfg, k), s, 0) && !Enabled(Cut(cfg, k), s, 0))
  {
    hide Enabled, Content;
    forall r: nat ensures Enabled(Cut(cfg, k), s, r) <==> Enabled(cfg, s, r) {
      SameEnabled(cfg, k, s, r);
    }
  }

  // A rank that polls can itself move, or someone after it can.
  lemma SomeoneFrom(cfg: Config, s: State, r: nat)
    requires cfg.Valid() && Inv(cfg, s) && r <= cfg.last
    ensures r < cfg.last && s.ranks[r].pc in {Wait, FinalWait, WaitHalf} ==> CanStepFrom(cfg, s, r)
  {
    if r < cfg.last && s.ranks[r].pc in {Wait, FinalWait, WaitHalf} {
      AckArrives(cfg, s, r);
    }
  }

  // ---------------------------------------------------- the sender goes on alone

  lemma SendOn(cfg: Config, k: nat, s: State)
    requires Sized(cfg, s) && cfg.last >= 1 && AtSend(s.ranks[0], k) && k + 1 < |cfg.buckets|
    ensures Enabled(cfg, s, 0) && Sized(cfg, Step(cfg, s, 0))
    ensures var t := Step(cfg, s, 0);
      && t.ranks[0] == s.ranks[0].(pc := if k + 1 >= 2 then Wait else Fill, k := k + 1, j := 0) &&
            t.ranks[1] == s.ranks[1]
  {
    hide Content, Views;
  }

  lemma PollOn(cfg: Config, s: State)
    requires Sized(cfg, s) && cfg.last >= 1 && s.ranks[0].pc == Wait && Acknowledged(s.ranks[0].Half(Odd(s.ranks[0].k)))
    ensures Enabled(cfg, s, 0) && Sized(cfg, Step(cfg, s, 0))
    ensures var t := Step(cfg, s, 0); t.ranks[0] == s.ranks[0].(pc := Fill) && t.ranks[1] == s.ranks[1]
  {
  }

  lemma FillOn(cfg: Config, s: State)
    requires Sized(cfg, s) && cfg.last >= 1 && s.ranks[0].pc == Fill && s.ranks[0].k < |cfg.buckets|
    ensures Enabled(cfg, s, 0) && Sized(cfg, Step(cfg, s, 0))
    ensures var me, t := s.ranks[0], Step(cfg, s, 0);
      && t.ranks[1] == s.ranks[1] && t.ranks[0].k == me.k && t.ranks[0].Half(!Odd(me.k)) == me.Half(!Odd(me.k))
      && (if me.j < |cfg.buckets[me.k]| then t.ranks[0].pc == Fill && t.ranks[0].j == me.j + 1
            else t.ranks[0].pc == Send)
  {
    hide Content, Offset, Overwrite;
  }

  // The sender fills the rest of its bucket; nobody else moves, and the other half is untouched.
  lemma {:induction false} FillAll(cfg: Config, s: State) returns (t: State)
    requires Reachable(cfg, s) && Sized(cfg, s) && cfg.last >= 1 && s.ranks[0].pc == Fill &&
        s.ranks[0].k < |cfg.buckets|
    ensures Reachable(cfg, t) && Sized(cfg, t) && AtSend(t.ranks[0], s.ranks[0].k) && t.ranks[1] == s.ranks[1]
    ensures t.ranks[0].Half(!Odd(s.ranks[0].k)) == s.ranks[0].Half(!Odd(s.ranks[0].k))
    decreases if s.ranks[0].j < |cfg.buckets[s.ranks[0].k]| then |cfg.buckets[s.ranks[0].k]| - s.ranks[0].j else 0
  {
    hide Reachable, Step, Enabled;
    FillOn(cfg, s);
    ReachStep(cfg, s, 0);
    t := Step(cfg, s, 0);
    if t.ranks[0].pc == Fill {
      t := FillAll(cfg, t);
    }
  }

  lemma ContentShows(half: seq<Byte>, content: seq<Byte>)
    requires |half| >= 4 && |content| <= |half| && half[..|content|] == content
    requires MagicFrom(half, |content|) && !DiffersFromMagic(content)
    ensures Acknowledged(half)
  {
    forall x | 0 <= x < 4 ensures half[x] == MAGIC[x] {
      if x < |content| {
        assert half[..|content|][x] == content[x];
      }
    }
    assert half[..4] == MAGIC;
  }

  // At bucket k both polls ahead of the sender will succeed.
  lemma QuietHalves(cfg: Config, k: nat, s: State)
    requires FirstBad(cfg, k) && At(cfg, k, s) && AtSend(s.ranks[0], k) && Halves(Cut(cfg, k), s.ranks[0], k)
    ensures Acknowledged(s.ranks[0].Half(Odd(k)))
    ensures k >= 1 ==> Acknowledged(s.ranks[0].Half(Odd(k + 1)))
  {
    var me := s.ranks[0];
    assert Stamped(me.Half(Odd(k)), Content(Cut(cfg, k).buckets[k]), k < k);
    if k >= 1 {
      assert Odd(k + 1) == Odd(k - 1);
      assert Stamped(me.Half(Odd(k - 1)), Content(Cut(cfg, k).buckets[k - 1]), k - 1 < k);
    }
    hide Content, Offset;
    ContentShows(me.Half(Odd(k)), Content(cfg.buckets[k]));
  }

  // After announcing bucket k the sender comes to fill the next one.
  lemma SendAndPoll(cfg: Config, k: nat, s: State) returns (t: State)
    requires Reachable(cfg, s) && Sized(cfg, s) && cfg.last >= 1 && k + 1 < |cfg.buckets| && AtSend(s.ranks[0], k)
    requires k >= 1 ==> Acknowledged(s.ranks[0].Half(Odd(k + 1)))
    ensures Reachable(cfg, t) && Sized(cfg, t) && t.ranks[1] == s.ranks[1]
    ensures t.ranks[0].pc == Fill && t.ranks[0].k == k + 1 && t.ranks[0].h0 == s.ranks[0].h0 &&
        t.ranks[0].h1 == s.ranks[0].h1
  {
    hide Reachable, Step, Enabled, Acknowledged;
    SendOn(cfg, k, s);
    ReachStep(cfg, s, 0);
    t := Step(cfg, s, 0);
    if t.ranks[0].pc == Wait {
      PollOn(cfg, t);
      ReachStep(cfg, t, 0);
      t := Step(cfg, t, 0);
    }
  }

  lemma GoOn(cfg: Config, k: nat, s: State) returns (t: State)
    requires FirstBad(cfg, k) && Reachable(cfg, s) && At(cfg, k, s) && Quiet(cfg, k, s)
    ensures Reachable(cfg, t) && Sized(cfg, t) && Fooled(cfg, t, 0)
  {
    hide Reachable, Step, Enabled, Halves, Inv, Stale, Content, Acknowledged, Quiet, FirstBad, Fooled, Upto;
    RoomAhead(cfg, k);
    QuietShape(cfg, k, s);
    QuietHalves(cfg, k, s);
    t := SendAndPoll(cfg, k, s);
    t := FillAll(cfg, t);
    t := AnnounceNext(cfg, k, t);
  }

  // Announcing bucket k + 1 leads to the poll that bucket k's half already answers.
  lemma AnnounceNext(cfg: Config, k: nat, s: State) returns (t: State)
    requires Reachable(cfg, s) && Sized(cfg, s) && cfg.last >= 1 && k + 2 < |cfg.buckets| && AtSend(s.ranks[0], k + 1)
    requires Acked(s.ranks[1]) <= k && Acknowledged(s.ranks[0].Half(Odd(k)))
    ensures Reachable(cfg, t) && Sized(cfg, t) && Fooled(cfg, t, 0)
  {
    hide Reachable, Step, Enabled, Acknowledged;
    SendOn(cfg, k + 1, s);
    ReachStep(cfg, s, 0);
    t := Step(cfg, s, 0);
  }

  lemma RoomAhead(cfg: Config, k: nat)
    requires FirstBad(cfg, k)
    ensures k + 2 < |cfg.buckets| && cfg.last >= 1
  {
    hide Content;
  }

  // ------------------------------------------------------------------ the theorem

  ghost predicate PollsAreTruthful(cfg: Config) {
    forall s: State, r: nat :: Reachable(cfg, s) && Sized(cfg, s) ==> !Fooled(cfg, s, r)
  }

  lemma GuardedPolls(cfg: Config, s: State, r: nat)
    requires cfg.Valid() && cfg.NoFalseAck() && Reachable(cfg, s) && Sized(cfg, s)
    ensures !Fooled(cfg, s, r)
  {
    var run :| IsRun(cfg, run) && EndsAt(run, s);
    RunInv(cfg, run, |run| - 1);
    hide IsRun, Halves, Content;
    if Fooled(cfg, s, r) {
      assert RankInv(cfg, r, s.ranks[r]);
      assert LinkInv(cfg, s.ranks[(r + 1) - 1], s.ranks[r + 1], s.queues[r + 1]);
      WaitMeansAcked(cfg, s.ranks[r], s.ranks[r + 1], s.queues[r + 1]);
      assert false;
    }
  }

  // A buffer left over from an earlier update: both halves still acknowledged.
  function LeftOver(cfg: Config): seq<Byte>
    requires cfg.bucketSize >= 4
  {
    MAGIC + seq(cfg.bucketSize - 4, i => 0)
  }

  function Start(cfg: Config): State
    requires cfg.bucketSize >= 4
  {
    var none: seq<Info> := [];
    State(seq(cfg.last + 1, r => Rank(if r == 0 then Fill else Recv, 0, 0, LeftOver(cfg), LeftOver(cfg),
        Info([], false, 0, false), [])),
          seq(cfg.last + 2, r => none))
  }

  lemma StartIsAt(cfg: Config, k: nat)
    requires FirstBad(cfg, k)
    ensures Reachable(cfg, Start(cfg)) && At(cfg, k, Start(cfg))
  {
    var s := Start(cfg);
    assert Initial(cfg, s) && Initial(Cut(cfg, k), s);
    assert IsRun(cfg, [s]) && EndsAt([s], s);
    InitialInv(Cut(cfg, k), s);
    hide Inv, Content;
    forall x | 0 <= x < 4 ensures LeftOver(cfg)[x] == MAGIC[x] {
    }
  }

  lemma FirstBadBucket(cfg: Config) returns (k: nat)
    requires cfg.Valid() && !cfg.NoFalseAck()
    ensures FirstBad(cfg, k)
  {
    k := 0;
    while DiffersFromMagic(Content(cfg.buckets[k]))
      invariant k + 2 < |cfg.buckets| && forall j :: 0 <= j < k ==> DiffersFromMagic(Content(cfg.buckets[j]))
      decreases |cfg.buckets| - k
    {
      assert k + 3 < |cfg.buckets|;
      k := k + 1;
    }
  }

  /** A rank never mistakes data for an acknowledgement, in any run, if and only if no bucket
      whose half is used again begins with the pattern (a bucket shorter than the pattern counts
      when all its bytes agree). */
  lemma PollsAreTruthfulIff(cfg: Config)
    requires cfg.Valid()
    ensures PollsAreTruthful(cfg) <==> cfg.NoFalseAck()
  {
    hide Reachable, Fooled, FirstBad, At, Quiet, Start;
    if cfg.NoFalseAck() {
      forall s: State, r: nat | Reachable(cfg, s) && Sized(cfg, s) ensures !Fooled(cfg, s, r) {
        GuardedPolls(cfg, s, r);
      }
    } else {
      var k := FirstBadBucket(cfg);
      var s := Start(cfg);
      StartIsAt(cfg, k);
      var t := Drive(cfg, k, s);
      var u := GoOn(cfg, k, t);
      assert Reachable(cfg, u) && Sized(cfg, u) && Fooled(cfg, u, 0);
    }
  }

  // ------------------------------------------------------------ a view overwritten

  // One bucket of four zero bytes, three ranks.
  function Zeros(): Config {
    Config(2, 4, [[Part("w", [0, 0, 0, 0])]])
  }

  function Idle(pc: Pc): Rank {
    Rank(pc, 0, 0, MAGIC, MAGIC, Info([], false, 0, false), [])
  }

  // Rank r takes s to t, compared entry by entry.
  lemma Goes(s: State, r: nat, t: State)
    requires var cfg := Zeros();
      && Reachable(cfg, s) && Sized(cfg, s) && Sized(cfg, t) && Enabled(cfg, s, r)
      && var u := Step(cfg, s, r);
      && Sized(cfg, u) && t.ranks[0] == u.ranks[0] && t.ranks[1] == u.ranks[1] && t.ranks[2] == u.ranks[2]
      && t.queues[0] == u.queues[0] && t.queues[1] == u.queues[1] && t.queues[2] == u.queues[2] &&
            t.queues[3] == u.queues[3]
    ensures Reachable(Zeros(), t)
  {
    hide Reachable, Step, Enabled;
    var u := Step(Zeros(), s, r);
    ReachStep(Zeros(), s, r);
    assert t.ranks == u.ranks && t.queues == u.queues;
    assert t == u;
  }

  lemma WholeHalf(half: seq<Byte>, bytes: seq<Byte>)
    requires |half| == |bytes|
    ensures Overwrite(half, 0, bytes) == bytes && Window(half, 0, |half|) == half
  {
  }

  function ZeroInfo(): Info {
    Info([View("w", 0, 4)], false, 4, true)
  }

  function AfterSend(): State {
    State([Idle(FinalWait).(j := 1, h0 := [0, 0, 0, 0]), Idle(Recv), Idle(Recv)], [[], [ZeroInfo()], [], []])
  }

  function AfterRelay(): State {
    State([Idle(FinalWait).(j := 1, h0 := [0, 0, 0, 0]), Idle(Yield).(h0 := [0, 0, 0, 0], info := ZeroInfo()),
        Idle(Recv)],
          [[], [], [ZeroInfo()], []])
  }

  lemma ZerosLayout()
    ensures Zeros().Valid() && Content(Zeros().buckets[0]) == [0, 0, 0, 0] &&
        Views(Zeros().buckets[0]) == [View("w", 0, 4)]
    ensures Offset(Zeros().buckets[0], 0) == 0
  {
    var b := Zeros().buckets[0];
    assert b[..0] == [] && Content(b[..0]) == [];
    assert Content(b) == Content(b[..0]) + b[0].bytes;
  }

  function Begun3(): State {
    var none: seq<Info> := [];
    State([Idle(Fill), Idle(Recv), Idle(Recv)], [none, none, none, none])
  }

  const ZEROS: seq<Byte> := [0, 0, 0, 0]

  lemma SenderSends()
    ensures Reachable(Zeros(), AfterSend()) && Sized(Zeros(), AfterSend())
  {
    ZerosLayout();
    var s0 := Begun3();
    assert IsRun(Zeros(), [s0]) && EndsAt([s0], s0);
    hide IsRun, Reachable, Content, Views, Offset, Overwrite;
    WholeHalf(MAGIC, ZEROS);
    var s1 := s0.(ranks := [Idle(Fill).(j := 1, h0 := ZEROS), Idle(Recv), Idle(Recv)]);
    Goes(s0, 0, s1);
    var s2 := s0.(ranks := [Idle(Send).(j := 1, h0 := ZEROS), Idle(Recv), Idle(Recv)]);
    Goes(s1, 0, s2);
    Goes(s2, 0, AfterSend());
  }

  lemma MiddleRelays()
    ensures Reachable(Zeros(), AfterRelay()) && Sized(Zeros(), AfterRelay())
  {
    var s := AfterSend();
    SenderSends();
    hide IsRun, Reachable, Content, Views, Offset, Overwrite, Window;
    WholeHalf(MAGIC, ZEROS);
    WholeHalf(ZEROS, ZEROS);
    var first := s.ranks[0];
    var me := Idle(Read).(info := ZeroInfo());
    var none: seq<Info> := [];
    var s1 := State([first, me, Idle(Recv)], [none, none, none, none]);
    Goes(s, 1, s1);
    var s2 := s1.(ranks := [first, me.(pc := Forward, h0 := ZEROS), Idle(Recv)]);
    Goes(s1, 1, s2);
    Goes(s2, 1, AfterRelay());
  }

  function Relayed(): Rank {
    Idle(Yield).(h0 := ZEROS, info := ZeroInfo())
  }

  function LastAt(me: Rank): State {
    var none: seq<Info> := [];
    State([AfterRelay().ranks[0], Relayed(), me], [none, none, none, none])
  }

  function LastRank(pc: Pc): Rank {
    Idle(pc).(h0 := ZEROS, info := ZeroInfo())
  }

  function Yielded4(): Rank {
    LastRank(Yield).(j := 1, out := [Part("w", ZEROS)])
  }

  lemma LastReads()
    ensures Reachable(Zeros(), LastAt(LastRank(Yield)))
  {
    MiddleRelays();
    hide IsRun, Reachable, Content, Views, Offset, Overwrite, Window;
    WholeHalf(MAGIC, ZEROS);
    WholeHalf(ZEROS, ZEROS);
    Goes(AfterRelay(), 2, LastAt(Idle(Read).(info := ZeroInfo())));
    Goes(LastAt(Idle(Read).(info := ZeroInfo())), 2, LastAt(LastRank(Forward)));
    Goes(LastAt(LastRank(Forward)), 2, LastAt(LastRank(Yield)));
  }

  lemma LastYields()
    ensures Reachable(Zeros(), LastAt(Yielded4().(pc := Ack)))
  {
    LastReads();
    hide IsRun, Reachable, Content, Views, Offset, Overwrite, Window;
    WholeHalf(ZEROS, ZEROS);
    Goes(LastAt(LastRank(Yield)), 2, LastAt(Yielded4()));
    Goes(LastAt(Yielded4()), 2, LastAt(Yielded4().(pc := Ack)));
  }

  /** A view can be torn: with three ranks and a single bucket of zeros, the last rank may
      acknowledge while the middle rank still yields, and the tensor it then hands out
      is the acknowledgement pattern. */
  lemma AViewCanBeTorn()
    ensures var s := LastAt(Yielded4().(pc := Done)); var t := s.(ranks := s.ranks[1 := Relayed().(h0 := MAGIC)]);
      && Zeros().Valid() && Zeros().NoFalseAck() && Reachable(Zeros(), t) && t.ranks[1].pc == Yield
      && var v := t.ranks[1].info.views[0];
      Window(t.ranks[1].Half(false), v.offset, v.size) == MAGIC != Zeros().buckets[0][0].bytes
  {
    ZerosLayout();
    LastYields();
    hide IsRun, Reachable, Content, Views, Offset, Overwrite, Window;
    WholeHalf(ZEROS, MAGIC);
    WholeHalf(MAGIC, MAGIC);
    var s := LastAt(Yielded4().(pc := Done));
    var t := s.(ranks := s.ranks[1 := Relayed().(h0 := MAGIC)]);
    assert MAGIC[0] != ZEROS[0];
    Goes(LastAt(Yielded4().(pc := Ack)), 2, t);
  }
}
