/** Every run of the NIXL relay ends, within a bound known in advance, with every
    rank finished and every receiver holding exactly the sender's tensors. */
module NixlTermination {
  import opened Flattening
  import opened Chunks
  import opened Packing
  import opened BucketFacts
  import opened Delivery
  import opened Failures
  import opened Sums
  import opened NixlChain
  import opened NixlInvariant
  import opened NixlTheorems

  // Transfers completed so far.
  function Reads(me: Rank): int {
    Taken(me) - (if me.rd.Reading? then 1 else 0)
  }

  function Phase(me: Rank): nat {
    match me.pc
    case Fill => 0
    case FlushWait => 1
    case Announce => 2
    case LastWait => 3
    case First => 0
    case FirstRead => 1
    case Relay => 2
    case Next => 3
    case Yield => if me.isLast then 3 else 4
    case AwaitAck => if me.isLast then 4 else 5
    case AwaitRead => 6
    case Done => 5
  }

  // Program steps a rank has made.
  function Statements(cfg: Config, r: nat, me: Rank): int {
    if r == 0 then
      |Flatten(cfg.buckets[..(if me.k <= |cfg.buckets| then me.k else 0)])| + me.j + 3 * me.k +
          (if me.pc == Done then 4 else Phase(me))
    else
      |me.out| + 5 * me.k + Phase(me)
  }

  // Steps its transfers have made: one for each byte and one for each completion.
  function Moved(cfg: Config, me: Rank): int {
    Reads(me) * (cfg.bucketSize + 1) + (if me.rd.Reading? then me.rd.pos else 0)
  }

  function Work(cfg: Config, r: nat, me: Rank): int {
    Statements(cfg, r, me) + (if r == 0 then 0 else Moved(cfg, me))
  }

  function Limit(cfg: Config): nat {
    |Flatten(cfg.buckets)| + 5 * |cfg.buckets| + 10 + |cfg.buckets| * (cfg.bucketSize + 1)
  }

  lemma ReadsStep(n: int, size: nat)
    ensures (n + 1) * (size + 1) == n * (size + 1) + size + 1
  {
  }

  lemma ReadsMono(n: int, m: int, size: nat)
    requires n <= m
    ensures n * (size + 1) <= m * (size + 1)
  {
    assert m * (size + 1) == n * (size + 1) + (m - n) * (size + 1);
  }

  // A program step of rank r is one unit of its work.
  lemma SenderRunWork(cfg: Config, me: Rank, left: Link, right: Link, key: nat)
    requires cfg.Valid() && SenderInv(cfg, me) && CanRun(me, left, right)
    ensures Statements(cfg, 0, RunRank(cfg, 0, me, left, right, key).me) == Statements(cfg, 0, me) + 1
  {
    hide Holds, WellLaid, Flatten, Used, Slice, Write;
    if me.pc == Announce && !cfg.IsLast(me.k) {
      FlattenTake(cfg.buckets, me.k);
    }
  }

  // All that the count needs to know of a receiver.
  predicate Countable(me: Rank) {
    match me.pc
    case First => me.rd.Idle?
    case FirstRead => me.k == 0
    case Next => me.rd.Idle? && !me.isLast
    case AwaitRead => !me.isLast
    case Relay => true
    case Yield => true
    case AwaitAck => true
    case Done => true
    case _ => false
  }

  lemma ReceiverCountable(cfg: Config, me: Rank)
    requires ReceiverInv(cfg, me)
    ensures Countable(me)
  {
    hide Holding, Receiving;
    if me.pc == AwaitRead || me.pc == Next {
      assert !me.isLast;
    }
  }

  lemma ReceiverRunWork(cfg: Config, r: nat, me: Rank, left: Link, right: Link, key: nat)
    requires 0 < r <= cfg.last && Countable(me) && CanRun(me, left, right)
    ensures Statements(cfg, r, RunRank(cfg, r, me, left, right, key).me) == Statements(cfg, r, me) + 1
  {
    hide Slice, RunRank, Statements, CanRun;
    if me.pc in {Relay, Yield, AwaitAck} {
      ForwardingWork(cfg, r, me, left, right, key);
    } else {
      ReceivingWork(cfg, r, me, left, right, key);
    }
  }

  lemma ForwardingWork(cfg: Config, r: nat, me: Rank, left: Link, right: Link, key: nat)
    requires 0 < r <= cfg.last && Countable(me) && CanRun(me, left, right) && me.pc in {Relay, Yield, AwaitAck}
    ensures Statements(cfg, r, RunRank(cfg, r, me, left, right, key).me) == Statements(cfg, r, me) + 1
  {
    hide Slice, TakeUp, Begin, RunFill, RunAnnounce;
  }

  lemma ReceivingWork(cfg: Config, r: nat, me: Rank, left: Link, right: Link, key: nat)
    requires 0 < r <= cfg.last && Countable(me) && CanRun(me, left, right) && me.pc !in {Relay, Yield, AwaitAck}
    ensures Statements(cfg, r, RunRank(cfg, r, me, left, right, key).me) == Statements(cfg, r, me) + 1
  {
    hide Slice, RunYield, RunRelay, RunFill, RunAnnounce;
  }

  lemma ReceiverRunMoves(cfg: Config, r: nat, me: Rank, left: Link, right: Link, key: nat)
    requires 0 < r <= cfg.last && Countable(me) && CanRun(me, left, right)
    ensures Moved(cfg, RunRank(cfg, r, me, left, right, key).me) == Moved(cfg, me)
  {
    hide Slice;
    assert Reads(RunRank(cfg, r, me, left, right, key).me) == Reads(me);
  }

  lemma TransferWork(cfg: Config, r: nat, me: Rank, me': Rank)
    requires 0 < r <= cfg.last && me.rd.Reading?
    requires me'.pc == me.pc && me'.k == me.k && me'.out == me.out && me'.isLast == me.isLast
    requires (me'.rd.Reading? && me'.rd.pos == me.rd.pos + 1) || (me'.rd.Landed? && me.rd.pos == cfg.bucketSize)
    ensures Work(cfg, r, me') == Work(cfg, r, me) + 1
  {
    ReadsStep(Reads(me), cfg.bucketSize);
  }

  lemma SenderBounded(cfg: Config, me: Rank)
    requires cfg.Valid() && SenderInv(cfg, me) && me.j <= |cfg.buckets[me.k]|
    ensures 0 <= Work(cfg, 0, me) <= Limit(cfg)
  {
    hide Holds, WellLaid, Flatten, Used;
    FlattenPrefix(cfg.buckets, me.k, me.j);
    assert |Flatten(cfg.buckets[..me.k]) + cfg.buckets[me.k][..me.j]| <= |Flatten(cfg.buckets)|;
    ReadsMono(0, |cfg.buckets|, cfg.bucketSize);
  }

  lemma ReceiverBounded(cfg: Config, r: nat, me: Rank)
    requires cfg.Valid() && 0 < r <= cfg.last && ReceiverInv(cfg, me)
    requires me.rd.Reading? ==> me.rd.pos <= cfg.bucketSize
    ensures 0 <= Work(cfg, r, me) <= Limit(cfg)
  {
    hide Holds, WellLaid, Flatten, Used;
    if me.pc !in {First, FirstRead} {
      FlattenPrefix(cfg.buckets, me.k, me.j);
    }
    assert |me.out| <= |Flatten(cfg.buckets)|;
    var n := if me.rd.Reading? then Reads(me) + 1 else Reads(me);
    assert 0 <= Reads(me) && n <= |cfg.buckets|;
    hide ReceiverInv, Reads;
    ReadsMono(0, Reads(me), cfg.bucketSize);
    ReadsMono(n, |cfg.buckets|, cfg.bucketSize);
    ReadsStep(Reads(me), cfg.bucketSize);
  }

  // ------------------------------------------------------------- total work

  function Works(cfg: Config, ranks: seq<Rank>): (ws: seq<int>)
    ensures |ws| == |ranks| && forall r :: 0 <= r < |ranks| ==> ws[r] == Work(cfg, r, ranks[r])
  {
    seq(|ranks|, r requires 0 <= r < |ranks| => Work(cfg, r, ranks[r]))
  }

  function Total(cfg: Config, ranks: seq<Rank>): int {
    Sum(Works(cfg, ranks))
  }

  lemma TotalUpdate(cfg: Config, ranks: seq<Rank>, r: nat, me: Rank)
    requires r < |ranks|
    ensures Total(cfg, ranks[r := me]) == Total(cfg, ranks) - Work(cfg, r, ranks[r]) + Work(cfg, r, me)
  {
    hide Work;
    SumUpdate(Works(cfg, ranks), r, Work(cfg, r, me));
    assert Works(cfg, ranks[r := me]) == Works(cfg, ranks)[r := Work(cfg, r, me)];
  }

  lemma WorkSplit(cfg: Config, r: nat, me: Rank, me': Rank)
    requires Statements(cfg, r, me') == Statements(cfg, r, me) + 1
    requires r > 0 ==> Moved(cfg, me') == Moved(cfg, me)
    ensures Work(cfg, r, me') == Work(cfg, r, me) + 1
  {
  }

  lemma RunWork(cfg: Config, r: nat, me: Rank, left: Link, right: Link, key: nat)
    requires cfg.Valid() && r <= cfg.last && RankInv(cfg, r, me) && CanRun(me, left, right)
    ensures Work(cfg, r, RunRank(cfg, r, me, left, right, key).me) == Work(cfg, r, me) + 1
  {
    hide Work, SenderInv, ReceiverInv, RunRank, Statements, Moved, CanRun, Countable;
    if r == 0 {
      SenderRunWork(cfg, me, left, right, key);
    } else {
      ReceiverCountable(cfg, me);
      ReceiverRunWork(cfg, r, me, left, right, key);
      ReceiverRunMoves(cfg, r, me, left, right, key);
    }
    WorkSplit(cfg, r, me, RunRank(cfg, r, me, left, right, key).me);
  }

  lemma CopyWork(cfg: Config, r: nat, prev: Rank, me: Rank)
    requires 0 < r <= cfg.last && me.rd.Reading?
    ensures Work(cfg, r, CopyByte(prev, me)) == Work(cfg, r, me) + 1
  {
    hide Put, Work;
    TransferWork(cfg, r, me, CopyByte(prev, me));
  }

  lemma LandWork(cfg: Config, r: nat, me: Rank)
    requires 0 < r <= cfg.last && me.rd.Reading? && me.rd.pos == cfg.bucketSize
    ensures Work(cfg, r, me.(rd := Landed)) == Work(cfg, r, me) + 1
  {
    hide Work;
    TransferWork(cfg, r, me, me.(rd := Landed));
  }

  lemma StepWork(cfg: Config, s: State, a: Action)
    requires cfg.Valid() && Inv(cfg, s) && Enabled(cfg, s, a)
    ensures Total(cfg, Apply(cfg, s, a).ranks) == Total(cfg, s.ranks) + 1
  {
    hide Work, Total, RankInv, LinkInv, CanRun, RunRank, CopyByte;
    var r, me := a.r, s.ranks[a.r];
    match a
    case Run(_, key) =>
      assert RankInv(cfg, r, me);
      RunWork(cfg, r, me, s.links[r], s.links[r + 1], key);
      TotalUpdate(cfg, s.ranks, r, RunRank(cfg, r, me, s.links[r], s.links[r + 1], key).me);
    case Copy(_) =>
      CopyWork(cfg, r, s.ranks[r - 1], me);
      TotalUpdate(cfg, s.ranks, r, CopyByte(s.ranks[r - 1], me));
    case Land(_) =>
      LandWork(cfg, r, me);
      TotalUpdate(cfg, s.ranks, r, me.(rd := Landed));
  }

  lemma ReadingBounded(cfg: Config, s: State, r: nat)
    requires Inv(cfg, s) && 0 < r <= cfg.last
    ensures s.ranks[r].rd.Reading? ==> s.ranks[r].rd.pos <= cfg.bucketSize
  {
    hide RankInv;
    assert LinkInv(cfg, s.ranks[r - 1], s.ranks[r], s.links[r]);
  }

  lemma SenderFills(cfg: Config, me: Rank)
    requires SenderInv(cfg, me)
    ensures me.j <= |cfg.buckets[me.k]|
  {
  }

  lemma InvBounded(cfg: Config, s: State)
    requires cfg.Valid() && Inv(cfg, s)
    ensures 0 <= Total(cfg, s.ranks) <= (cfg.last + 1) * Limit(cfg)
  {
    hide Work, Limit, LinkInv, SenderInv, ReceiverInv;
    forall r | 0 <= r <= cfg.last ensures 0 <= Work(cfg, r, s.ranks[r]) <= Limit(cfg) {
      assert RankInv(cfg, r, s.ranks[r]);
      if r == 0 {
        SenderFills(cfg, s.ranks[0]);
        SenderBounded(cfg, s.ranks[0]);
      } else {
        ReadingBounded(cfg, s, r);
        ReceiverBounded(cfg, r, s.ranks[r]);
      }
    }
    SumBounded(Works(cfg, s.ranks), Limit(cfg));
  }

  lemma {:induction false} RunWorks(cfg: Config, run: seq<State>, i: nat)
    requires cfg.Valid() && IsRun(cfg, run) && i < |run|
    ensures Sized(cfg, run[i]) && Total(cfg, run[i].ranks) == Total(cfg, run[0].ranks) + i
  {
    hide Inv, Total, Apply;
    if i > 0 {
      RunWorks(cfg, run, i - 1);
      RunInv(cfg, run, i - 1);
      assert Follows(cfg, run[i - 1], run[i - 1 + 1]);
      var a :| Enabled(cfg, run[i - 1], a) && run[i - 1 + 1] == Apply(cfg, run[i - 1], a);
      StepWork(cfg, run[i - 1], a);
    }
    RunInv(cfg, run, i);
    assert Sized(cfg, run[i]) by { OneSized(cfg, run[i]); }
  }

  lemma OneSized(cfg: Config, s: State)
    requires Inv(cfg, s)
    ensures Sized(cfg, s)
  {
  }

  /** No run is longer than the ranks' work limits together: there is no livelock. */
  lemma RunsAreBounded(cfg: Config, run: seq<State>)
    requires cfg.Valid() && IsRun(cfg, run)
    ensures |run| - 1 <= (cfg.last + 1) * Limit(cfg)
  {
    hide Inv, Total, Limit, Apply, Enabled;
    RunWorks(cfg, run, |run| - 1);
    RunInv(cfg, run, 0);
    RunInv(cfg, run, |run| - 1);
    InvBounded(cfg, run[0]);
    InvBounded(cfg, run[|run| - 1]);
  }

  // ------------------------------------------------------------ runs that raise

  // The sender has got this far without repeating a name; a receiver that raised stays where it is.
  ghost predicate Clean(cfg: Config, r: nat, me: Rank) {
    if r == 0 then FilledApart(cfg.buckets, me.k, me.j) else ReceiverRaises(me.out, cfg.bucketSize) ==> me.pc == Yield
  }

  lemma SenderClean(cfg: Config, me: Rank, left: Link, right: Link, key: nat)
    requires SenderInv(cfg, me) && CanRun(me, left, right) && !Raised(cfg, 0, me) && Clean(cfg, 0, me)
    ensures Clean(cfg, 0, RunRank(cfg, 0, me, left, right, key).me)
  {
    hide Holds, Flatten, Metas, Slice, Write, FilledApart, SenderRaises;
    if me.pc == Fill && me.j < |cfg.buckets[me.k]| {
      FillApart(cfg.buckets, me.k, me.j);
    } else if me.pc == Announce {
      NextApart(cfg.buckets, me.k);
    }
  }

  lemma ReceiverClean(cfg: Config, r: nat, me: Rank, left: Link, right: Link, key: nat)
    requires 0 < r && CanRun(me, left, right) && me.pc !in {Fill, Announce} && !Raised(cfg, r, me)
    ensures Clean(cfg, r, RunRank(cfg, r, me, left, right, key).me)
  {
    hide Slice, ReceiverRaises, RunFill, RunAnnounce;
  }

  lemma RunClean(cfg: Config, r: nat, me: Rank, left: Link, right: Link, key: nat)
    requires RankInv(cfg, r, me) && CanRun(me, left, right) && !Raised(cfg, r, me) && Clean(cfg, r, me)
    ensures Clean(cfg, r, RunRank(cfg, r, me, left, right, key).me)
  {
    hide RunRank, CanRun, Raised, Clean, Holding, Receiving;
    if r == 0 {
      SenderClean(cfg, me, left, right, key);
    } else {
      ReceiverClean(cfg, r, me, left, right, key);
    }
  }

  ghost predicate AllClean(cfg: Config, s: State)
    requires Sized(cfg, s)
  {
    forall r :: 0 <= r <= cfg.last ==> Clean(cfg, r, s.ranks[r])
  }

  lemma StepClean(cfg: Config, s: State, a: Action)
    requires cfg.Valid() && Inv(cfg, s) && Enabled(cfg, s, a) && AllClean(cfg, s)
    ensures Sized(cfg, Apply(cfg, s, a)) && AllClean(cfg, Apply(cfg, s, a))
  {
    hide RunRank, CopyByte, LinkInv, RankInv, CanRun, Raised, Clean;
    var r, me := a.r, s.ranks[a.r];
    assert RankInv(cfg, r, me) && Clean(cfg, r, me);
    match a
    case Run(_, key) => RunClean(cfg, r, me, s.links[r], s.links[r + 1], key);
    case Copy(_) =>
      CopyFields(s.ranks[r - 1], me);
      TransferClean(cfg, r, me, CopyByte(s.ranks[r - 1], me));
    case Land(_) => TransferClean(cfg, r, me, me.(rd := Landed));
  }

  lemma CopyFields(prev: Rank, me: Rank)
    requires me.rd.Reading?
    ensures CopyByte(prev, me).out == me.out && CopyByte(prev, me).pc == me.pc
  {
  }

  lemma TransferClean(cfg: Config, r: nat, me: Rank, me': Rank)
    requires 0 < r && Clean(cfg, r, me) && me'.out == me.out && me'.pc == me.pc
    ensures Clean(cfg, r, me')
  {
  }

  lemma {:induction false} RunsAreClean(cfg: Config, run: seq<State>, i: nat)
    requires cfg.Valid() && IsRun(cfg, run) && i < |run|
    ensures Sized(cfg, run[i]) && AllClean(cfg, run[i])
  {
    hide Apply, Inv;
    if i == 0 {
      forall r | 0 < r <= cfg.last ensures !ReceiverRaises(run[0].ranks[r].out, cfg.bucketSize) {
      }
    } else {
      RunsAreClean(cfg, run, i - 1);
      RunInv(cfg, run, i - 1);
      assert Follows(cfg, run[i - 1], run[i - 1 + 1]);
      var a :| Enabled(cfg, run[i - 1], a) && run[i - 1 + 1] == Apply(cfg, run[i - 1], a);
      StepClean(cfg, run[i - 1], a);
    }
  }

  // Every receiver's merge of the chunks it has yielded is `end`.
  ghost predicate AllReceived(cfg: Config, s: State, end: MergeState)
    requires Sized(cfg, s)
  {
    forall r :: 0 < r <= cfg.last ==> Merge(s.ranks[r].out, cfg.bucketSize) == end
  }

  // No receiver has yielded anything but a prefix of the sender's tensors.
  ghost predicate NothingWrong(cfg: Config, s: State, ws: seq<Tensor>)
    requires Sized(cfg, s)
  {
    forall r :: 0 < r <= cfg.last ==> IsPrefix(Merge(s.ranks[r].out, cfg.bucketSize).out, NonEmpty(ws))
  }

  // With distinct names and viewable offsets nobody ever raises.
  lemma NobodyRaises(cfg: Config, ws: seq<Tensor>, run: seq<State>, i: nat)
    requires cfg.Valid() && cfg.bucketSize > 0 && AllValid(ws) && cfg.buckets == SentBuckets(ws, cfg.bucketSize)
    requires IsRun(cfg, run) && i < |run|
    requires AllNamesDistinct(cfg.buckets) && AllViewable(Flatten(cfg.buckets), cfg.bucketSize)
    ensures Sized(cfg, run[i]) && !SomeRaised(cfg, run[i])
  {
    hide IsRun, AllNamesDistinct, AllViewable, SenderRaises, ReceiverRaises, SentBuckets, Flatten;
    RunsAreClean(cfg, run, i);
    forall r: nat | r <= cfg.last ensures !Raised(cfg, r, run[i].ranks[r]) {
      if r == 0 {
        SenderSafe(cfg.buckets, run[i].ranks[0].k, run[i].ranks[0].j);
      } else {
        StreamIsPrefix(cfg, run, i, r);
        ReceiverSafe(ws, cfg.bucketSize, run[i].ranks[r].out);
      }
    }
  }

  // A finished chain met neither failure.
  lemma FinishedIsFaultless(cfg: Config, ws: seq<Tensor>, run: seq<State>, i: nat)
    requires cfg.Valid() && cfg.bucketSize > 0 && AllValid(ws) && cfg.buckets == SentBuckets(ws, cfg.bucketSize)
    requires IsRun(cfg, run) && i < |run| && Sized(cfg, run[i]) && AllDone(cfg, run[i])
    ensures AllNamesDistinct(cfg.buckets) && AllViewable(Flatten(cfg.buckets), cfg.bucketSize)
    ensures AllReceived(cfg, run[i], MergeState(NonEmpty(ws), None, true))
  {
    hide IsRun, SentBuckets, Flatten, Merge, Holds, AllNamesDistinct, AllViewable, FilledApart;
    RunInv(cfg, run, i);
    RunsAreClean(cfg, run, i);
    assert RankInv(cfg, 0, run[i].ranks[0]) && Clean(cfg, 0, run[i].ranks[0]);
    NextApart(cfg.buckets, run[i].ranks[0].k);
    forall r | 0 < r <= cfg.last
      ensures AllViewable(Flatten(cfg.buckets), cfg.bucketSize)
      ensures Merge(run[i].ranks[r].out, cfg.bucketSize) == MergeState(NonEmpty(ws), None, true)
    {
      StreamIsPrefix(cfg, run, i, r);
      assert Clean(cfg, r, run[i].ranks[r]);
      WholeStreamMerged(ws, cfg.bucketSize, run[i].ranks[r].out);
    }
    assert 0 < cfg.last <= cfg.last;
    StreamIsPrefix(cfg, run, i, cfg.last);
    assert Clean(cfg, cfg.last, run[i].ranks[cfg.last]);
    WholeStreamMerged(ws, cfg.bucketSize, run[i].ranks[cfg.last].out);
  }

  /** The relay end to end.  Send any tensors through any chain in any interleaving: a run that
      cannot go on has every rank finished if and only if no bucket repeats a name and every
      tensor that travels whole can be viewed where it was packed.  Then every receiver holds
      exactly the sender's non-empty tensors; otherwise some rank has raised.  Either way no
      receiver has yielded anything but the sender's tensors in order. */
  lemma EveryRunDelivers(cfg: Config, ws: seq<Tensor>, run: seq<State>)
    requires cfg.Valid() && cfg.bucketSize > 0 && AllValid(ws) && cfg.buckets == SentBuckets(ws, cfg.bucketSize)
    requires IsRun(cfg, run) && Sized(cfg, run[|run| - 1]) && !CanStep(cfg, run[|run| - 1])
    ensures var end := run[|run| - 1];
      && (AllDone(cfg, end) <==> AllNamesDistinct(cfg.buckets) && AllViewable(Flatten(cfg.buckets), cfg.bucketSize))
      && (AllDone(cfg, end) ==> AllReceived(cfg, end, MergeState(NonEmpty(ws), None, true)))
      && (AllDone(cfg, end) || SomeRaised(cfg, end))
    ensures NothingWrong(cfg, run[|run| - 1], ws)
  {
    hide Merge, SentBuckets, Apply, Enabled, AllNamesDistinct, AllViewable, Flatten;
    var n := |run| - 1;
    NoDeadlock(cfg, run, n);
    if AllDone(cfg, run[n]) {
      FinishedIsFaultless(cfg, ws, run, n);
    } else if AllNamesDistinct(cfg.buckets) && AllViewable(Flatten(cfg.buckets), cfg.bucketSize) {
      NobodyRaises(cfg, ws, run, n);
      assert false;
    }
    forall r | 0 < r <= cfg.last ensures IsPrefix(Merge(run[n].ranks[r].out, cfg.bucketSize).out, NonEmpty(ws)) {
      StreamIsPrefix(cfg, run, n, r);
      NeverWrong(ws, cfg.bucketSize, run[n].ranks[r].out);
    }
  }

  // ------------------------------------------------------------------ runs exist

  // The state in which an update starts, with whatever the buffers hold.
  function Start(cfg: Config, contents: seq<(seq<Byte>, seq<Byte>)>): State
    requires |contents| == cfg.last + 1
  {
    State(
      seq(cfg.last + 1, r requires 0 <= r <= cfg.last =>
        Rank(if r == 0 then Fill else First, 0, 0, contents[r].0, contents[r].1, false, None, Idle, [], false, [],
          false, [])),
      seq(cfg.last + 2, r => Link([], [])),
      false)
  }

  lemma StartIsInitial(cfg: Config, contents: seq<(seq<Byte>, seq<Byte>)>)
    requires |contents| == cfg.last + 1
    requires forall r :: 0 <= r <= cfg.last ==> |contents[r].0| == |contents[r].1| == cfg.bucketSize
    ensures Initial(cfg, Start(cfg, contents)) && IsRun(cfg, [Start(cfg, contents)])
  {
  }

  lemma RunExtends(cfg: Config, run: seq<State>, a: Action)
    requires IsRun(cfg, run) && Sized(cfg, run[|run| - 1]) && Enabled(cfg, run[|run| - 1], a)
    ensures IsRun(cfg, run + [Apply(cfg, run[|run| - 1], a)])
  {
    var longer := run + [Apply(cfg, run[|run| - 1], a)];
    assert Follows(cfg, run[|run| - 1], longer[|run|]);
    hide Initial, Enabled, Apply, Follows;
    forall i | 0 <= i < |longer| - 1 ensures Follows(cfg, longer[i], longer[i + 1]) {
      assert longer[i] == run[i] && (i < |run| - 1 ==> longer[i + 1] == run[i + 1]);
    }
  }

  function Longest(cfg: Config): nat {
    (cfg.last + 1) * Limit(cfg) + 1
  }

  // The run so far goes on within the bound, or is over.
  lemma StepOrEnd(cfg: Config, run: seq<State>) returns (next: seq<State>)
    requires cfg.Valid() && IsRun(cfg, run)
    ensures IsRun(cfg, next) && run <= next && |run| <= Longest(cfg)
    ensures |next| == |run| ==> Sized(cfg, run[|run| - 1]) && !CanStep(cfg, run[|run| - 1])
  {
    RunsAreBounded(cfg, run);
    RunInv(cfg, run, |run| - 1);
    assert Sized(cfg, run[|run| - 1]);
    assert |run| <= Longest(cfg);
    hide *;
    next := run;
    if CanStep(cfg, run[|run| - 1]) {
      next := TakeStep(cfg, run);
    }
  }

  lemma TakeStep(cfg: Config, run: seq<State>) returns (next: seq<State>)
    requires IsRun(cfg, run) && |run| > 0 && Sized(cfg, run[|run| - 1]) && CanStep(cfg, run[|run| - 1])
    ensures IsRun(cfg, next) && run <= next && |next| == |run| + 1
  {
    var a :| Enabled(cfg, run[|run| - 1], a);
    hide *;
    RunExtends(cfg, run, a);
    next := run + [Apply(cfg, run[|run| - 1], a)];
  }

  /** Every run can be continued until nothing can step. */
  lemma {:induction false} EveryRunEnds(cfg: Config, run: seq<State>) returns (longer: seq<State>)
    requires cfg.Valid() && IsRun(cfg, run)
    ensures IsRun(cfg, longer) && run <= longer
    ensures Sized(cfg, longer[|longer| - 1]) && !CanStep(cfg, longer[|longer| - 1])
    decreases Longest(cfg) - |run|
  {
    longer := StepOrEnd(cfg, run);
    hide *;
    if |longer| > |run| {
      var next := longer;
      var on := StepOrEnd(cfg, next);
      longer := EveryRunEnds(cfg, next);
    } else {
      assert longer == run;
    }
  }

  /** Delivery happens: from any buffer contents there is a run to the end, and if no bucket repeats
      a name and every whole-bucket tensor is viewable, it leaves every receiver with the tensors. */
  lemma DeliveryHappens(cfg: Config, ws: seq<Tensor>, contents: seq<(seq<Byte>, seq<Byte>)>) returns (run: seq<State>)
    requires cfg.Valid() && cfg.bucketSize > 0 && AllValid(ws) && cfg.buckets == SentBuckets(ws, cfg.bucketSize)
    requires |contents| == cfg.last + 1
    requires forall r :: 0 <= r <= cfg.last ==> |contents[r].0| == |contents[r].1| == cfg.bucketSize
    ensures IsRun(cfg, run) && run[0] == Start(cfg, contents) && Sized(cfg, run[|run| - 1])
    ensures !CanStep(cfg, run[|run| - 1])
    ensures AllNamesDistinct(cfg.buckets) && AllViewable(Flatten(cfg.buckets), cfg.bucketSize) ==>
      AllDone(cfg, run[|run| - 1]) && AllReceived(cfg, run[|run| - 1], MergeState(NonEmpty(ws), None, true))
  {
    StartIsInitial(cfg, contents);
    hide Start, Initial, IsRun, AllNamesDistinct, AllViewable, AllDone, AllReceived, SentBuckets, Flatten;
    run := EveryRunEnds(cfg, [Start(cfg, contents)]);
    assert run[0] == [Start(cfg, contents)][0];
    EveryRunDelivers(cfg, ws, run);
  }
}
