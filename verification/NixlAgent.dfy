/** Demultiplexing of messages and notifications, and the wiring of the chain
    (nixl_checkpoint_engine.py: NixlAgent, build_topology). */
module NixlAgent {
  import opened Chunks

  function Get<M>(stash: map<string, seq<M>>, name: string): seq<M> {
    if name in stash then stash[name] else []
  }

  // The messages of one agent among the arrivals, in order.
  function From<M>(arrivals: seq<(string, M)>, name: string): seq<M> {
    if arrivals == [] then []
    else (if arrivals[0].0 == name then [arrivals[0].1] else []) + From(arrivals[1..], name)
  }

  // One poll of the transfer library: new notifications by sender, in dictionary order.
  type Batch<N> = seq<(string, seq<N>)>

  function Extend<N>(stash: map<string, seq<N>>, batch: Batch<N>): map<string, seq<N>>
    decreases |batch|
  {
    if batch == [] then stash
    else Extend(stash[batch[0].0 := Get(stash, batch[0].0) + batch[0].1], batch[1..])
  }

  // The loop variable of the polling loop takes over the name that is waited for.
  function Rebound<N>(name: string, batch: Batch<N>): string {
    if batch == [] then name else batch[|batch| - 1].0
  }

  datatype Popped<N> = Blocked | Popped(name: string, note: N, stash: map<string, seq<N>>, polls: seq<Batch<N>>)

  // What get_notification pops, from whose queue, and what is left behind.
  function Pops<N>(stash: map<string, seq<N>>, polls: seq<Batch<N>>, name: string): Popped<N>
    decreases |polls|
  {
    if Get(stash, name) != [] then
      Popped(name, Get(stash, name)[0], stash[name := Get(stash, name)[1..]], polls)
    else if polls == [] then Blocked
    else Pops(Extend(stash, polls[0]), polls[1..], Rebound(name, polls[0]))
  }

  class Agent<M, N> {
    var messages: map<string, seq<M>>
    var socket: seq<(string, M)>             // messages still to arrive, in order
    var notifications: map<string, seq<N>>
    var polls: seq<Batch<N>>                 // results of the polls still to be made

    // Everything from `name` not yet handed out: stashed first, then still on its way.
    ghost function Pending(name: string): seq<M>
      reads this
    {
      Get(messages, name) + From(socket, name)
    }

    /** Hands out the oldest message of `name` and loses or reorders none of
        anyone's; blocks only when `name` has nothing pending. */
    method ReadMessage(name: string) returns (r: Option<M>)
      modifies this
      ensures unchanged(`notifications) && unchanged(`polls)
      ensures r == if old(Pending(name)) == [] then None else Some(old(Pending(name))[0])
      ensures old(Pending(name)) != [] ==> Pending(name) == old(Pending(name))[1..]
      ensures forall n :: n != name || r.None? ==> Pending(n) == old(Pending(n))
    {
      while Get(messages, name) == [] && socket != []
        invariant unchanged(`notifications) && unchanged(`polls)
        invariant forall n :: Pending(n) == old(Pending(n))
        decreases |socket|
      {
        var (sender, message) := socket[0];
        label step:
        messages := messages[sender := Get(messages, sender) + [message]];
        socket := socket[1..];
        forall n ensures Pending(n) == old@step(Pending(n)) {
          if n == sender {
            assert old@step(From(socket, n)) == [message] + From(socket, n);
          }
        }
      }
      if Get(messages, name) == [] {
        return None;
      }
      var queue := Get(messages, name);
      messages := messages[name := queue[1..]];
      r := Some(queue[0]);
    }

    method GetNotification(name: string) returns (r: Option<N>)
      modifies this
      ensures unchanged(`messages) && unchanged(`socket)
      ensures var popped := Pops(old(notifications), old(polls), name);
              if popped.Blocked? then r == None
              else r == Some(popped.note) && notifications == popped.stash && polls == popped.polls
    {
      var remoteName := name;
      while Get(notifications, remoteName) == [] && polls != []
        invariant unchanged(`messages) && unchanged(`socket)
        invariant Pops(notifications, polls, remoteName) == Pops(old(notifications), old(polls), name)
        decreases |polls|
      {
        var batch := polls[0];
        polls := polls[1..];
        ghost var rest, stash, waiting := polls, notifications, remoteName;
        for i := 0 to |batch|
          invariant unchanged(`messages) && unchanged(`socket) && polls == rest
          invariant Extend(notifications, batch[i..]) == Extend(stash, batch)
          invariant Rebound(remoteName, batch[i..]) == Rebound(waiting, batch)
        {
          assert batch[i..][1..] == batch[i + 1..];
          remoteName := batch[i].0;
          notifications := notifications[remoteName := Get(notifications, remoteName) + batch[i].1];
        }
      }
      if Get(notifications, remoteName) == [] {
        return None;
      }
      var queue := Get(notifications, remoteName);
      notifications := notifications[remoteName := queue[1..]];
      r := Some(queue[0]);
    }
  }

  // -------------------------------------------- whose notification is popped

  // Every entry of a poll carries at least one notification.
  predicate NoEmptyEntry<N>(polls: seq<Batch<N>>) {
    forall p, i :: 0 <= p < |polls| && 0 <= i < |polls[p]| ==> polls[p][i].1 != []
  }

  // The sender listed last in the first poll that returns anything.
  function LastOfFirst<N>(polls: seq<Batch<N>>): Option<string> {
    if polls == [] then None
    else if polls[0] != [] then Some(polls[0][|polls[0]| - 1].0)
    else LastOfFirst(polls[1..])
  }

  lemma {:induction false} ExtendKeeps<N>(stash: map<string, seq<N>>, batch: Batch<N>, name: string)
    ensures Get(stash, name) <= Get(Extend(stash, batch), name)
    ensures batch != [] && batch[|batch| - 1].0 == name && batch[|batch| - 1].1 != [] ==>
        Get(Extend(stash, batch), name) != []
    decreases |batch|
  {
    if batch != [] {
      var stash' := stash[batch[0].0 := Get(stash, batch[0].0) + batch[0].1];
      ExtendKeeps(stash', batch[1..], name);
      assert Get(stash, name) <= Get(stash', name);
    }
  }

  /** The notification handed out is the awaited agent's if and only if one of its
      was stashed already, or it is listed last in the first poll that returns any.
      (It blocks only when nothing was stashed for it and no poll returns any.) */
  lemma {:induction false} PopsFromAwaited<N>(stash: map<string, seq<N>>, polls: seq<Batch<N>>, name: string)
    requires NoEmptyEntry(polls)
    ensures Pops(stash, polls, name).Blocked? <==> Get(stash, name) == [] && LastOfFirst(polls).None?
    ensures Pops(stash, polls, name).Popped? ==>
      (Pops(stash, polls, name).name == name <==> Get(stash, name) != [] || LastOfFirst(polls) == Some(name))
    decreases |polls|
  {
    if Get(stash, name) == [] && polls != [] {
      var batch := polls[0];
      forall p, i | 0 <= p < |polls[1..]| && 0 <= i < |polls[1..][p]| ensures polls[1..][p][i].1 != [] {
        assert polls[1..][p] == polls[p + 1];
      }
      if batch == [] {
        PopsFromAwaited(stash, polls[1..], name);
      } else {
        ExtendKeeps(stash, batch, Rebound(name, batch));
      }
    }
  }

  // With two peers, waiting for one can hand out the other's notification.
  lemma PopsSomeoneElse()
    ensures var polls: seq<Batch<int>> := [[("next", [1]), ("other", [2])]];
            Pops(map[], polls, "next").Popped? && Pops(map[], polls, "next").name == "other"
  {
    var batch: Batch<int> := [("next", [1]), ("other", [2])];
    var polls: seq<Batch<int>> := [batch];
    var empty: map<string, seq<int>> := map[];
    assert LastOfFirst(polls) == Some("other");
    assert NoEmptyEntry(polls);
    assert "other"[0] != "next"[0];
    ExtendKeeps(empty, batch, "other");
    var m := Extend(empty, batch);
    assert Pops(empty, polls, "next") == Pops(m, polls[1..], "other");
  }

  // Notifications of the polls, in arrival order, when one agent alone notifies.
  function Arrivals<N>(polls: seq<Batch<N>>): seq<N> {
    if polls == [] then [] else Notes(polls[0]) + Arrivals(polls[1..])
  }

  function Notes<N>(batch: Batch<N>): seq<N> {
    if batch == [] then [] else batch[0].1 + Notes(batch[1..])
  }

  predicate OnlyFrom<N>(polls: seq<Batch<N>>, name: string) {
    forall p, i :: 0 <= p < |polls| && 0 <= i < |polls[p]| ==> polls[p][i].0 == name
  }

  lemma {:induction false} ExtendByOne<N>(stash: map<string, seq<N>>, batch: Batch<N>, name: string)
    requires forall i :: 0 <= i < |batch| ==> batch[i].0 == name
    ensures Get(Extend(stash, batch), name) == Get(stash, name) + Notes(batch)
    decreases |batch|
  {
    if batch != [] {
      var stash' := stash[name := Get(stash, name) + batch[0].1];
      ExtendByOne(stash', batch[1..], name);
      assert (Get(stash, name) + batch[0].1) + Notes(batch[1..]) == Get(stash, name) + Notes(batch);
    }
  }

  /** In the chain only the successor notifies a rank: notifications then come out
      in the order they were sent, none lost, none repeated. */
  lemma {:induction false} PopsInOrder<N>(stash: map<string, seq<N>>, polls: seq<Batch<N>>, name: string)
    requires OnlyFrom(polls, name)
    ensures var sent := Get(stash, name) + Arrivals(polls);
            var r := Pops(stash, polls, name);
            if sent == [] then r.Blocked?
            else r.Popped? && r.name == name && r.note == sent[0] && Get(r.stash, name) + Arrivals(r.polls) == sent[1..]
    decreases |polls|
  {
    if Get(stash, name) == [] && polls != [] {
      var batch, rest := polls[0], polls[1..];
      ExtendByOne(stash, batch, name);
      assert Rebound(name, batch) == name;
      assert OnlyFrom(rest, name) by { OnlyFromTail(polls, name); }
      assert Get(Extend(stash, batch), name) + Arrivals(rest) == Get(stash, name) + Arrivals(polls);
      assert Pops(stash, polls, name) == Pops(Extend(stash, batch), rest, name);
      hide Extend, Notes, Arrivals, Pops, OnlyFrom, Get;
      PopsInOrder(Extend(stash, batch), rest, name);
    } else if Get(stash, name) != [] {
      var queue := Get(stash, name);
      assert queue[1..] + Arrivals(polls) == (queue + Arrivals(polls))[1..];
    }
  }

  lemma OnlyFromTail<N>(polls: seq<Batch<N>>, name: string)
    requires OnlyFrom(polls, name) && polls != []
    ensures OnlyFrom(polls[1..], name)
  {
    forall p, i | 0 <= p < |polls[1..]| && 0 <= i < |polls[1..][p]| ensures polls[1..][p][i].0 == name {
      assert polls[1..][p] == polls[p + 1];
    }
  }

  // ------------------------------------------------------------------- wiring

  // Python's s[-n:], which is all of s when n is 0
  function Tail<T>(s: seq<T>, n: nat): seq<T> {
    if n == 0 || n > |s| then s else s[|s| - n..]
  }

  function DropLast<T>(s: seq<T>): seq<T> {
    if s == [] then [] else s[..|s| - 1]
  }

  function Nones<T>(n: nat): (r: seq<Option<T>>)
    ensures |r| == n && forall i :: 0 <= i < n ==> r[i] == None
  {
    seq(n, i => None)
  }

  function Somes<T>(s: seq<T>): (r: seq<Option<T>>)
    ensures |r| == |s| && forall i :: 0 <= i < |s| ==> r[i] == Some(s[i])
  {
    seq(|s|, i requires 0 <= i < |s| => Some(s[i]))
  }

  datatype Wiring<T> = Wiring(rank: seq<int>, prev: seq<Option<T>>, next: seq<Option<T>>)

  // Arguments for the actor workers and for the rollout workers; metadata lists the actors first.
  function BuildTopology<T>(actors: nat, rollouts: nat, metadata: seq<T>): (Wiring<T>, Wiring<T>)
    requires actors >= 1 && rollouts >= 1 && |metadata| == actors + rollouts
  {
    var actor := Wiring([0] + seq(actors - 1, i => -1), Nones(actors),
        [Some(metadata[|metadata| - rollouts])] + Nones(actors - 1));
    var rollout := Wiring(
      seq(rollouts, i => i + 1),
      [Some(metadata[0])] + Somes(DropLast(Tail(metadata, rollouts))),
      Somes(Tail(metadata, rollouts - 1)) + [None]);
    (actor, rollout)
  }

  // The manager asserts one entry per worker.
  predicate WellSized<T>(w: Wiring<T>, workers: nat) {
    |w.rank| == workers && |w.prev| == workers && |w.next| == workers
  }

  // Worker of rank r in the chain: actor 0, then the rollout workers.
  function WorkerOf<T>(actors: nat, metadata: seq<T>, r: nat): T
    requires 1 <= actors && actors + r - 1 < |metadata|
  {
    if r == 0 then metadata[0] else metadata[actors + r - 1]
  }

  /** The argument lists have one entry per worker exactly when there are at least
      two rollout workers, and then they wire one chain: rank 0 to rank 1, every
      rollout rank to its two neighbours, and the other actors to nobody. */
  lemma TopologyIsAChain<T>(actors: nat, rollouts: nat, metadata: seq<T>)
    requires actors >= 1 && rollouts >= 1 && |metadata| == actors + rollouts
    ensures var (actor, rollout) := BuildTopology(actors, rollouts, metadata);
      && WellSized(actor, actors)
      && (WellSized(rollout, rollouts) <==> rollouts >= 2)
      && (rollouts >= 2 ==>
            && actor.rank[0] == 0 && actor.prev[0] == None && actor.next[0] == Some(WorkerOf(actors, metadata, 1))
            && (forall i :: 1 <= i < actors ==> actor.rank[i] == -1 && actor.prev[i] == None && actor.next[i] == None)
            && (forall i :: 0 <= i < rollouts ==>
                  && rollout.rank[i] == i + 1
                  && rollout.prev[i] == Some(WorkerOf(actors, metadata, i))
                  && rollout.next[i] == (if i == rollouts - 1 then None else Some(WorkerOf(actors, metadata, i + 2)))))
  {
  }
}
