/** What the NIXL relay guarantees over whole runs: buffers in use are never
    written, every rank sees the sender's stream, and every run ends with every
    rank finished. */
module NixlTheorems {
  import opened Flattening
  import opened Chunks
  import opened Packing
  import opened BucketFacts
  import opened NixlChain
  import opened NixlInvariant

  // ------------------------------------------------------------ buffer ownership

  // The rank and buffer an action writes, if any.
  function Target(cfg: Config, s: State, a: Action): Option<(nat, bool)>
    requires Sized(cfg, s) && Enabled(cfg, s, a)
  {
    var me := s.ranks[a.r];
    match a
    case Run(r, _) =>
      if me.pc == Fill && me.k < |cfg.buckets| && me.j < |cfg.buckets[me.k]| then Some((r, me.send)) else None
    case Copy(r) => Some((r, !me.send))
    case Land(r) => None
  }

  // The buffer is offered and not yet acknowledged, or holds the bucket whose views are being yielded.
  predicate InUse(me: Rank, which: bool) {
    || (me.op.Some? && me.op.value.desc == which)
    || (me.pc in {Relay, Next, Yield, AwaitAck, AwaitRead} && which == me.send)
  }

  lemma OnlyTargetChanges(cfg: Config, s: State, a: Action, r: nat, which: bool)
    requires Sized(cfg, s) && Enabled(cfg, s, a) && r <= cfg.last
    ensures Target(cfg, s, a) != Some((r, which)) ==> Apply(cfg, s, a).ranks[r].Buf(which) == s.ranks[r].Buf(which)
  {
    hide Write, Put, Slice, Metas, Raised;
  }

  /** No step of any run writes a buffer that is offered and not acknowledged, or
      whose views are still being yielded; so what a successor reads, byte by byte
      and at any time, is what was announced. */
  lemma BuffersInUseAreStable(cfg: Config, run: seq<State>, i: nat, a: Action, r: nat, which: bool)
    requires cfg.Valid() && IsRun(cfg, run) && i < |run|
    requires Sized(cfg, run[i]) && Enabled(cfg, run[i], a) && r <= cfg.last && InUse(run[i].ranks[r], which)
    ensures Target(cfg, run[i], a) != Some((r, which))
    ensures Apply(cfg, run[i], a).ranks[r].Buf(which) == run[i].ranks[r].Buf(which)
  {
    hide IsRun, Apply, Holds, WellLaid, Flatten, Used, LinkInv;
    RunInv(cfg, run, i);
    assert RankInv(cfg, r, run[i].ranks[r]);
    OnlyTargetChanges(cfg, run[i], a, r, which);
  }

  /** On every link of every reachable state at most one offer is outstanding, it is
      queued, in transfer or acknowledged, and an acknowledgement carries the key
      its offerer is waiting for. */
  lemma OneOutstandingOffer(cfg: Config, run: seq<State>, i: nat, r: nat)
    requires cfg.Valid() && IsRun(cfg, run) && i < |run| && 0 < r <= cfg.last
    ensures !run[i].failed && Sized(cfg, run[i])
    ensures var a, b, link := run[i].ranks[r - 1], run[i].ranks[r], run[i].links[r];
      && |link.msgs| + |link.notes| + (if b.rd.Reading? then 1 else 0) == (if a.op.Some? then 1 else 0)
      && (link.notes != [] ==> link.notes[0] == a.op.value.key)
      && (link.msgs != [] ==> link.msgs[0] == a.op.value)
      && (b.rd.Reading? ==> b.rd.offer == a.op.value)
  {
    hide IsRun;
    RunInv(cfg, run, i);
    assert LinkInv(cfg, run[i].ranks[r - 1], run[i].ranks[r], run[i].links[r]);
  }

  /** The flag is raised exactly where an assertion of the code fails: a wait whose notification
      carries another key, or a last wait with nothing to wait for. */
  lemma StepFailsIff(cfg: Config, s: State, a: Action)
    requires Sized(cfg, s) && Enabled(cfg, s, a)
    ensures Apply(cfg, s, a).failed <==>
      || s.failed
      || (a.Run? && var me, notes := s.ranks[a.r], s.links[a.r + 1].notes;
          || (me.pc == LastWait && me.op.None?)
          || (me.pc in {FlushWait, LastWait, AwaitAck} && me.op.Some? && notes[0] != me.op.value.key))
  {
  }

  // ----------------------------------------------------------- the same stream

  /** In every reachable state, what a rank has yielded is a prefix of the sender's
      chunk stream, offsets and bytes included; a finished rank has yielded it all. */
  lemma StreamIsPrefix(cfg: Config, run: seq<State>, i: nat, r: nat)
    requires cfg.Valid() && IsRun(cfg, run) && i < |run| && 0 < r <= cfg.last
    ensures Sized(cfg, run[i]) && run[i].ranks[r].out <= Flatten(cfg.buckets)
    ensures run[i].ranks[r].pc == Done ==> run[i].ranks[r].out == Flatten(cfg.buckets)
  {
    hide IsRun;
    RunInv(cfg, run, i);
    var me := run[i].ranks[r];
    assert RankInv(cfg, r, me);
    if me.pc !in {First, FirstRead} {
      FlattenPrefix(cfg.buckets, me.k, me.j);
      if me.pc == Done {
        FlattenTake(cfg.buckets, me.k);
        assert cfg.buckets[..me.k + 1] == cfg.buckets && cfg.buckets[me.k][..me.j] == cfg.buckets[me.k];
      }
    }
  }

  // --------------------------------------------------------- deadlock freedom

  ghost predicate AllDone(cfg: Config, s: State)
    requires Sized(cfg, s)
  {
    forall r :: 0 <= r <= cfg.last ==> s.ranks[r].pc == Done
  }

  ghost predicate CanStep(cfg: Config, s: State)
    requires Sized(cfg, s)
  {
    exists a :: Enabled(cfg, s, a)
  }

  ghost predicate SomeRaised(cfg: Config, s: State)
    requires Sized(cfg, s)
  {
    exists r: nat :: r <= cfg.last && Raised(cfg, r, s.ranks[r])
  }

  lemma TransferCanStep(cfg: Config, s: State, r: nat)
    requires cfg.Valid() && Inv(cfg, s) && 0 < r <= cfg.last && s.ranks[r].rd.Reading?
    ensures CanStep(cfg, s)
  {
    hide RankInv;
    assert LinkInv(cfg, s.ranks[r - 1], s.ranks[r], s.links[r]);
    if s.ranks[r].rd.pos < cfg.bucketSize {
      assert Enabled(cfg, s, Copy(r));
    } else {
      assert Enabled(cfg, s, Land(r));
    }
  }

  // A rank that awaits an acknowledgement depends on its successor, so look there.
  lemma {:induction false} AckArrives(cfg: Config, s: State, r: nat)
    requires cfg.Valid() && Inv(cfg, s) && r <= cfg.last
    requires Sized(cfg, s) && !SomeRaised(cfg, s)
    requires s.ranks[r].op.Some? && s.ranks[r].pc in {FlushWait, LastWait, AwaitAck}
    ensures CanStep(cfg, s)
    decreases cfg.last - r
  {
    hide Holds, WellLaid, Flatten, Used, Inv, Raised;
    AroundRank(cfg, s, r);
    AroundRank(cfg, s, r + 1);
    assert !Raised(cfg, r, s.ranks[r]) && !Raised(cfg, r + 1, s.ranks[r + 1]);
    if Enabled(cfg, s, Run(r, 0)) || Enabled(cfg, s, Run(r + 1, 0)) {
    } else if s.ranks[r + 1].rd.Reading? {
      TransferCanStep(cfg, s, r + 1);
    } else {
      AckArrives(cfg, s, r + 1);
    }
  }

  // A rank that waits for metadata is behind its predecessor, so look there.
  lemma {:induction false} SomeoneSteps(cfg: Config, s: State, r: nat)
    requires cfg.Valid() && Inv(cfg, s) && r <= cfg.last
    requires Sized(cfg, s) && !SomeRaised(cfg, s) && s.ranks[r].pc != Done
    ensures CanStep(cfg, s)
    decreases r
  {
    hide Holds, WellLaid, Flatten, Used, Inv, Raised;
    AroundRank(cfg, s, r);
    assert !Raised(cfg, r, s.ranks[r]);
    var me := s.ranks[r];
    if Enabled(cfg, s, Run(r, 0)) {
    } else if me.pc in {FlushWait, LastWait, AwaitAck} {
      AckArrives(cfg, s, r);
    } else if me.rd.Reading? {
      TransferCanStep(cfg, s, r);
    } else {
      SomeoneSteps(cfg, s, r - 1);
    }
  }

  /** From every reachable state in which some rank is unfinished and none has raised, some
      rank can step. */
  lemma NoDeadlock(cfg: Config, run: seq<State>, i: nat)
    requires cfg.Valid() && IsRun(cfg, run) && i < |run|
    ensures Sized(cfg, run[i])
    ensures CanStep(cfg, run[i]) || AllDone(cfg, run[i]) || SomeRaised(cfg, run[i])
  {
    hide IsRun;
    RunInv(cfg, run, i);
    if !AllDone(cfg, run[i]) && !SomeRaised(cfg, run[i]) {
      var r :| 0 <= r <= cfg.last && run[i].ranks[r].pc != Done;
      SomeoneSteps(cfg, run[i], r);
    }
  }
}
