/** Target-excluded evidence selection within one rollout batch
    (risk_aware_opsd/rollout_evidence.py). */
module Evidence {
  import opened Arithmetic
  import opened Finite
  import opened RolloutOrder

  datatype Batch = Batch(groups: seq<string>, ids: seq<string>, correct: seq<bool>, valid: seq<bool>,
      responses: seq<string>) {
    predicate Aligned() {
      |ids| == |correct| == |valid| == |responses| == |groups|
    }
    predicate NamedApart() {
      "" !in ids && forall i, j :: 0 <= i < j < |ids| ==> ids[i] != ids[j]
    }
  }

  datatype Selection = Selection(positive: seq<int>, negative: seq<seq<int>>, reason: seq<nat>)

  datatype Error = Misaligned | BadIds | BadCount
  datatype Result = Ok(selection: Selection) | Failed(error: Error)

  // response.strip(), from the left and then from the right.
  function StripLeft(text: Text, s: string): string {
    if s != [] && s[0] in text.spaces then StripLeft(text, s[1..]) else s
  }

  function StripRight(text: Text, s: string): string {
    if s != [] && s[|s| - 1] in text.spaces then StripRight(text, s[..|s| - 1]) else s
  }

  predicate Blank(text: Text, response: string) {
    StripRight(text, StripLeft(text, response)) == ""
  }

  predicate HasText(text: Text, response: string) {
    exists i :: 0 <= i < |response| && response[i] !in text.spaces
  }

  lemma {:induction false} StripLeftKeepsText(text: Text, s: string)
    ensures HasText(text, s) <==> HasText(text, StripLeft(text, s))
    decreases |s|
  {
    if s != [] && s[0] in text.spaces {
      StripLeftKeepsText(text, s[1..]);
      if i :| 0 <= i < |s| && s[i] !in text.spaces {
        assert s[1..][i - 1] == s[i];
      }
    }
  }

  lemma {:induction false} StripRightEmpties(text: Text, s: string)
    ensures HasText(text, s) <==> StripRight(text, s) != ""
    decreases |s|
  {
    if s != [] && s[|s| - 1] in text.spaces {
      StripRightEmpties(text, s[..|s| - 1]);
      if i :| 0 <= i < |s| && s[i] !in text.spaces {
        assert s[..|s| - 1][i] == s[i];
      }
    }
  }

  /** A response is blank if and only if every character of it is a space. */
  lemma BlankIff(text: Text, response: string)
    ensures Blank(text, response) <==> forall i :: 0 <= i < |response| ==> response[i] in text.spaces
  {
    StripLeftKeepsText(text, response);
    StripRightEmpties(text, StripLeft(text, response));
  }

  // Whether i may serve as evidence for the target.
  predicate Sibling(text: Text, b: Batch, target: nat, i: nat)
    requires b.Aligned() && target < |b.ids| && i < |b.ids|
  {
    b.groups[i] == b.groups[target] && i != target && b.valid[i] && !Blank(text, b.responses[i])
  }

  predicate Before(text: Text, b: Batch, i: nat, j: nat)
    requires i < |b.ids| && j < |b.ids|
  {
    Earlier(text, b.ids[i], b.ids[j])
  }

  predicate Within(s: seq<nat>, n: nat) {
    forall i :: 0 <= i < |s| ==> s[i] < n
  }

  predicate InOrder(text: Text, b: Batch, s: seq<nat>)
    requires Within(s, |b.ids|)
  {
    forall i, j :: 0 <= i < j < |s| ==> Before(text, b, s[i], s[j])
  }

  // ---------------------------------------------------------------- sorting

  function Insert(text: Text, b: Batch, s: seq<nat>, x: nat): (r: seq<nat>)
    requires Within(s, |b.ids|) && x < |b.ids|
    ensures Within(r, |b.ids|) && forall i :: i in r <==> i == x || i in s
  {
    if s == [] then [x]
    else if Before(text, b, x, s[0]) then [x] + s
    else [s[0]] + Insert(text, b, s[1..], x)
  }

  function Sort(text: Text, b: Batch, s: seq<nat>): (r: seq<nat>)
    requires Within(s, |b.ids|)
    ensures Within(r, |b.ids|) && forall i :: i in r <==> i in s
  {
    if s == [] then [] else Insert(text, b, Sort(text, b, s[1..]), s[0])
  }

  lemma {:induction false} InsertInOrder(text: Text, b: Batch, s: seq<nat>, x: nat)
    requires b.NamedApart() && Within(s, |b.ids|) && x < |b.ids| && x !in s && InOrder(text, b, s)
    ensures InOrder(text, b, Insert(text, b, s, x))
    decreases |s|
  {
    hide Earlier;
    if s != [] {
      var r := Insert(text, b, s, x);
      EarlierIsStrictTotal(text, b.ids[x], b.ids[s[0]], b.ids[s[0]]);
      if Before(text, b, x, s[0]) {
        forall j | 0 <= j < |s| ensures Before(text, b, x, s[j]) {
          EarlierIsStrictTotal(text, b.ids[x], b.ids[s[0]], b.ids[s[j]]);
        }
      } else {
        InsertInOrder(text, b, s[1..], x);
        var rest := Insert(text, b, s[1..], x);
        forall j | 0 <= j < |rest| ensures Before(text, b, s[0], rest[j]) {
          assert rest[j] in rest;
          if rest[j] != x {
            var k :| 0 <= k < |s[1..]| && s[1..][k] == rest[j];
            assert s[k + 1] == rest[j];
          }
        }
      }
    }
  }

  predicate Distinct(s: seq<nat>) {
    forall i, j :: 0 <= i < j < |s| ==> s[i] != s[j]
  }

  lemma {:induction false} SortInOrder(text: Text, b: Batch, s: seq<nat>)
    requires b.NamedApart() && Within(s, |b.ids|) && Distinct(s)
    ensures InOrder(text, b, Sort(text, b, s))
    decreases |s|
  {
    if s != [] {
      SortInOrder(text, b, s[1..]);
      InsertInOrder(text, b, Sort(text, b, s[1..]), s[0]);
    }
  }

  // Two ordered sequences with the same members are the same sequence.
  lemma {:induction false} OrderedIsUnique(text: Text, b: Batch, s: seq<nat>, t: seq<nat>)
    requires Within(s, |b.ids|) && Within(t, |b.ids|) && InOrder(text, b, s) && InOrder(text, b, t)
    requires forall i :: i in s <==> i in t
    ensures s == t
    decreases |s|
  {
    hide Earlier;
    var x := if t != [] then t[0] else 0;
    assert x in s <==> x in t;
    if s != [] {
      var y := s[0];
      assert y in t;
      EarlierIsStrictTotal(text, b.ids[x], b.ids[y], b.ids[x]);
      TailMembers(text, b, s, t);
      OrderedIsUnique(text, b, s[1..], t[1..]);
      assert s == [s[0]] + s[1..] && t == [t[0]] + t[1..];
    }
  }

  lemma TailMembers(text: Text, b: Batch, s: seq<nat>, t: seq<nat>)
    requires Within(s, |b.ids|) && Within(t, |b.ids|) && InOrder(text, b, s) && InOrder(text, b, t)
    requires s != [] && t != [] && s[0] == t[0] && forall i :: i in s <==> i in t
    ensures forall i :: i in s[1..] <==> i in t[1..]
  {
    hide Earlier;
    HeadIsNotInTail(text, b, s);
    HeadIsNotInTail(text, b, t);
    assert forall i :: i in s <==> i == s[0] || i in s[1..];
    assert forall i :: i in t <==> i == t[0] || i in t[1..];
  }

  lemma HeadIsNotInTail(text: Text, b: Batch, s: seq<nat>)
    requires Within(s, |b.ids|) && InOrder(text, b, s) && s != []
    ensures s[0] !in s[1..]
  {
    hide Earlier;
    EarlierIsStrictTotal(text, b.ids[s[0]], b.ids[s[0]], b.ids[s[0]]);
    forall k | 0 <= k < |s[1..]| ensures s[1..][k] != s[0] {
      assert Before(text, b, s[0], s[k + 1]);
    }
  }

  // -------------------------------------------------------------- selection

  // Batch positions of one group, in batch order: a value of the source's dictionary.
  function GroupMembers(groups: seq<string>, g: string): (r: seq<nat>)
    ensures forall i :: i in r <==> 0 <= i < |groups| && groups[i] == g
    ensures Within(r, |groups|) && Distinct(r)
  {
    if groups == [] then []
    else
      var n := |groups| - 1;
      var rest := GroupMembers(groups[..n], g);
      if groups[n] == g then rest + [n] else rest
  }

  function Keep(text: Text, b: Batch, target: nat, s: seq<nat>): (r: seq<nat>)
    requires b.Aligned() && target < |b.ids| && Within(s, |b.ids|)
    ensures forall i :: i in r <==> i in s && i != target && b.valid[i] && !Blank(text, b.responses[i])
    ensures Within(r, |b.ids|)
  {
    if s == [] then []
    else
      var rest := Keep(text, b, target, s[1..]);
      if s[0] != target && b.valid[s[0]] && !Blank(text, b.responses[s[0]]) then [s[0]] + rest else rest
  }

  lemma {:induction false} KeepDistinct(text: Text, b: Batch, target: nat, s: seq<nat>)
    requires b.Aligned() && target < |b.ids| && Within(s, |b.ids|) && Distinct(s)
    ensures Distinct(Keep(text, b, target, s))
    decreases |s|
  {
    if s != [] {
      KeepDistinct(text, b, target, s[1..]);
      var rest := Keep(text, b, target, s[1..]);
      assert forall i :: 0 <= i < |rest| ==> rest[i] in rest;
      assert s[0] !in s[1..];
    }
  }

  function Eligible(text: Text, b: Batch, target: nat): (r: seq<nat>)
    requires b.Aligned() && target < |b.ids|
    ensures Within(r, |b.ids|)
  {
    Sort(text, b, Keep(text, b, target, GroupMembers(b.groups, b.groups[target])))
  }

  function Those(b: Batch, s: seq<nat>, correct: bool): (r: seq<nat>)
    requires b.Aligned() && Within(s, |b.ids|)
    ensures Within(r, |b.ids|) && forall i :: i in r <==> i in s && b.correct[i] == correct
  {
    if s == [] then []
    else if b.correct[s[0]] == correct then [s[0]] + Those(b, s[1..], correct)
    else Those(b, s[1..], correct)
  }

  function First(s: seq<nat>): int {
    if s == [] then -1 else s[0]
  }

  function Cycle(s: seq<nat>, count: nat): (r: seq<int>)
    ensures |r| == count && forall k :: 0 <= k < count ==> r[k] == Slot(s, k)
  {
    seq(count, k requires 0 <= k < count => Slot(s, k))
  }

  function Slot(s: seq<nat>, k: nat): int {
    if s == [] then -1 else s[k % |s|]
  }

  function PositiveOf(text: Text, b: Batch, target: nat): int
    requires b.Aligned() && target < |b.ids|
  {
    First(Those(b, Eligible(text, b, target), true))
  }

  function NegativesOf(text: Text, b: Batch, target: nat): seq<nat>
    requires b.Aligned() && target < |b.ids|
  {
    Those(b, Eligible(text, b, target), false)
  }

  function ReasonOf(text: Text, b: Batch, target: nat, requireNegative: bool): nat
    requires b.Aligned() && target < |b.ids|
  {
    if PositiveOf(text, b, target) < 0 then 1
    else if requireNegative && NegativesOf(text, b, target) == [] then 2
    else 0
  }

  function Select(text: Text, b: Batch, requireNegative: bool, count: int): Result {
    if !b.Aligned() then Failed(Misaligned)
    else if !b.NamedApart() then Failed(BadIds)
    else if count < 1 then Failed(BadCount)
    else Ok(Selection(
      seq(|b.ids|, t requires 0 <= t < |b.ids| => PositiveOf(text, b, t)),
      seq(|b.ids|, t requires 0 <= t < |b.ids| => Cycle(NegativesOf(text, b, t), count)),
      seq(|b.ids|, t requires 0 <= t < |b.ids| => ReasonOf(text, b, t, requireNegative))))
  }

  // ------------------------------------------------------------- the method

  lemma {:induction false} DistinctIffNoneLost(ids: seq<string>)
    ensures |IdSet(ids)| <= |ids|
    ensures |IdSet(ids)| == |ids| <==> forall i, j :: 0 <= i < j < |ids| ==> ids[i] != ids[j]
    decreases |ids|
  {
    if ids != [] {
      var n := |ids| - 1;
      var rest := ids[..n];
      DistinctIffNoneLost(rest);
      assert IdSet(ids) == IdSet(rest) + {ids[n]} by {
        assert ids == rest + [ids[n]];
      }
      if ids[n] in rest {
        var k :| 0 <= k < n && rest[k] == ids[n];
        assert ids[k] == ids[n];
        assert IdSet(ids) == IdSet(rest);
      }
    }
  }

  function IdSet(ids: seq<string>): set<string> {
    set x | x in ids
  }

  // groups.setdefault(group, []).append(index)
  method GroupRows(groups: seq<string>) returns (byGroup: map<string, seq<nat>>)
    ensures forall g :: g in byGroup <==> g in groups
    ensures forall g :: g in byGroup ==> byGroup[g] == GroupMembers(groups, g)
  {
    hide GroupMembers;
    byGroup := map[];
    for n := 0 to |groups|
      invariant forall g :: g in byGroup <==> g in groups[..n]
      invariant forall g :: g in byGroup ==> byGroup[g] == GroupMembers(groups[..n], g)
    {
      var g := groups[n];
      forall h ensures h in groups[..n + 1] <==> h in groups[..n] || h == g
        ensures GroupMembers(groups[..n + 1], h) == GroupMembers(groups[..n], h) + (if h == g then [n] else [])
      {
        NextRow(groups, n, h);
      }
      if g !in byGroup {
        NoMembers(groups[..n], g);
      }
      byGroup := byGroup[g := (if g in byGroup then byGroup[g] else []) + [n]];
    }
    assert groups[..|groups|] == groups;
  }

  lemma NextRow(groups: seq<string>, n: nat, h: string)
    requires n < |groups|
    ensures h in groups[..n + 1] <==> h in groups[..n] || h == groups[n]
    ensures GroupMembers(groups[..n + 1], h) == GroupMembers(groups[..n], h) + (if h == groups[n] then [n] else [])
  {
    assert groups[..n + 1] == groups[..n] + [groups[n]];
    assert groups[..n + 1][..n] == groups[..n];
  }

  lemma NoMembers(groups: seq<string>, g: string)
    requires g !in groups
    ensures GroupMembers(groups, g) == []
  {
    var r := GroupMembers(groups, g);
    var x := if r != [] then r[0] else 0;
    assert x in r <==> 0 <= x < |groups| && groups[x] == g;
  }

  // ------------------------------------------------- what is selected, and for whom

  lemma EligibleIsExact(text: Text, b: Batch, target: nat)
    requires b.Aligned() && b.NamedApart() && target < |b.ids|
    ensures InOrder(text, b, Eligible(text, b, target))
    ensures forall i: nat :: i in Eligible(text, b, target) <==> i < |b.ids| && Sibling(text, b, target, i)
  {
    hide Before, Blank, InOrder;
    var members := GroupMembers(b.groups, b.groups[target]);
    KeepDistinct(text, b, target, members);
    SortInOrder(text, b, Keep(text, b, target, members));
  }

  lemma {:induction false} ThoseInOrder(text: Text, b: Batch, s: seq<nat>, correct: bool)
    requires b.Aligned() && Within(s, |b.ids|) && InOrder(text, b, s)
    ensures InOrder(text, b, Those(b, s, correct))
    decreases |s|
  {
    hide Before;
    if s != [] {
      ThoseInOrder(text, b, s[1..], correct);
      var rest := Those(b, s[1..], correct);
      forall j | 0 <= j < |rest| ensures Before(text, b, s[0], rest[j]) {
        assert rest[j] in s[1..];
        var k :| 0 <= k < |s[1..]| && s[1..][k] == rest[j];
        assert s[k + 1] == rest[j];
      }
    }
  }

  ghost predicate Candidate(text: Text, b: Batch, target: nat, i: nat, correct: bool)
    requires b.Aligned() && target < |b.ids|
  {
    i < |b.ids| && Sibling(text, b, target, i) && b.correct[i] == correct
  }

  // Candidates of one class, in order and complete.
  lemma ThoseAreCandidates(text: Text, b: Batch, target: nat, correct: bool)
    requires b.Aligned() && b.NamedApart() && target < |b.ids|
    ensures InOrder(text, b, Those(b, Eligible(text, b, target), correct))
    ensures forall i: nat :: i in Those(b, Eligible(text, b, target), correct) <==>
        Candidate(text, b, target, i, correct)
  {
    hide InOrder, Sibling, Eligible;
    EligibleIsExact(text, b, target);
    ThoseInOrder(text, b, Eligible(text, b, target), correct);
  }

  /** The positive is the earliest correct sibling: never the target itself, never another
      group's, always format-valid and non-blank; it is absent only if there is none. */
  lemma PositiveIsEarliest(text: Text, b: Batch, target: nat)
    requires b.Aligned() && b.NamedApart() && target < |b.ids|
    ensures var pos := PositiveOf(text, b, target);
      && -1 <= pos < |b.ids|
      && (pos < 0 <==> forall i: nat :: !Candidate(text, b, target, i, true))
      && (pos >= 0 ==> Candidate(text, b, target, pos, true))
      && (pos >= 0 ==> forall i: nat :: Candidate(text, b, target, i, true) && i != pos ==> Before(text, b, pos, i))
  {
    hide Before, Sibling, Eligible;
    ThoseAreCandidates(text, b, target, true);
    var s := Those(b, Eligible(text, b, target), true);
    if s != [] {
      assert s[0] in s;
      forall i: nat | Candidate(text, b, target, i, true) && i != s[0] ensures Before(text, b, s[0], i) {
        assert i in s;
        var k :| 0 <= k < |s| && s[k] == i;
      }
    }
  }

  /** Every negative slot holds a wrong sibling, slots repeat only after all wrong siblings
      have been used in order, and slots are -1 only if there is no wrong sibling at all. */
  lemma NegativesCycleThroughWrongSiblings(text: Text, b: Batch, target: nat, count: nat)
    requires b.Aligned() && b.NamedApart() && target < |b.ids|
    ensures var slots, n := Cycle(NegativesOf(text, b, target), count), |NegativesOf(text, b, target)|;
      && (forall k :: 0 <= k < count ==>
            slots[k] == -1 || (0 <= slots[k] && Candidate(text, b, target, slots[k], false)))
      && (forall j, k :: 0 <= j < k < count && k < n ==>
            0 <= slots[j] < |b.ids| && 0 <= slots[k] < |b.ids| && Before(text, b, slots[j], slots[k]))
      && (n <= count ==> forall i: nat :: Candidate(text, b, target, i, false) ==> i in slots)
      && (forall k :: 0 <= k < count ==> (slots[k] == -1 <==> n == 0))
      && (n == 0 <==> forall i: nat :: !Candidate(text, b, target, i, false))
  {
    ThoseAreCandidates(text, b, target, false);
    var s := NegativesOf(text, b, target);
    hide Before, Candidate, Those, NegativesOf, Cycle, Eligible, Batch.NamedApart;
    CycleVisits(s, count);
    if s != [] {
      assert s[0] in s;
    }
  }

  // The slots are members of s, in the order of s, and miss none if there are enough of them.
  lemma CycleVisits(s: seq<nat>, count: nat)
    ensures var slots := Cycle(s, count);
      && (forall k :: 0 <= k < count ==> if s == [] then slots[k] == -1 else slots[k] in s)
      && (forall k :: 0 <= k < count && k < |s| ==> slots[k] == s[k])
      && (|s| <= count ==> forall i :: i in s ==> i in slots)
  {
    var slots := Cycle(s, count);
    forall k | 0 <= k < count && s != [] ensures slots[k] in s {
      assert 0 <= k % |s| < |s|;
    }
    forall k | 0 <= k < count && k < |s| ensures slots[k] == s[k] {
      SmallMod(k, |s|);
    }
    if |s| <= count {
      forall i | i in s ensures i in slots {
        var k :| 0 <= k < |s| && s[k] == i;
        assert slots[k] == i;
      }
    }
  }

  /** After the last wrong sibling the slots start again from the first. */
  lemma NegativesRepeat(text: Text, b: Batch, target: nat, count: nat, k: nat)
    requires b.Aligned() && target < |b.ids| && 0 < |NegativesOf(text, b, target)| <= k < count
    ensures var slots := Cycle(NegativesOf(text, b, target), count);
      slots[k] == slots[k - |NegativesOf(text, b, target)|]
  {
    hide NegativesOf;
    OneRoundBack(k, |NegativesOf(text, b, target)|);
  }

  lemma OneRoundBack(k: nat, n: nat)
    requires 0 < n <= k
    ensures k % n == (k - n) % n
  {
    DivisionIdentity(k, n);
    var q := k / n;
    Room(q, n);
    hide Product;
    ModIs(n, q - 1, Mod(k, n));
  }

  lemma SmallMod(k: nat, n: nat)
    requires k < n
    ensures k % n == k
  {
  }

  // ------------------------------------------------------ the selection in plain terms

  // i may serve as evidence for the target: another row of its group, format-valid, with a
  // response that has a character other than white space.
  ghost predicate Usable(text: Text, b: Batch, target: nat, i: nat, correct: bool)
    requires b.Aligned() && target < |b.ids|
  {
    && i < |b.ids| && i != target && b.groups[i] == b.groups[target]
    && b.valid[i] && b.correct[i] == correct && HasText(text, b.responses[i])
  }

  lemma CandidateIsUsable(text: Text, b: Batch, target: nat, i: nat, correct: bool)
    requires b.Aligned() && target < |b.ids|
    ensures Candidate(text, b, target, i, correct) <==> Usable(text, b, target, i, correct)
  {
    if i < |b.ids| {
      BlankIff(text, b.responses[i]);
    }
    hide Blank;
  }

  // All usable wrong siblings, earliest first.
  ghost predicate Ranked(text: Text, b: Batch, target: nat, wrong: seq<nat>)
    requires b.Aligned() && target < |b.ids|
  {
    && Within(wrong, |b.ids|) && InOrder(text, b, wrong)
    && forall i: nat :: i in wrong <==> Usable(text, b, target, i, false)
  }

  // What row t of a selection says.
  ghost predicate Chosen(text: Text, b: Batch, r: Selection, t: nat, requireNegative: bool, count: nat)
    requires b.Aligned() && t < |b.ids| == |r.positive| == |r.negative| == |r.reason|
  {
    var pos, slots := r.positive[t], r.negative[t];
    && -1 <= pos < |b.ids|
    && (pos < 0 <==> forall i: nat :: !Usable(text, b, t, i, true))
    && (pos >= 0 ==>
          && Usable(text, b, t, pos, true)
          && forall i: nat :: Usable(text, b, t, i, true) && i != pos ==> Before(text, b, pos, i))
    && |slots| == count
    && (exists wrong: seq<nat> :: Ranked(text, b, t, wrong)
          && forall k :: 0 <= k < count ==> slots[k] == if wrong == [] then -1 else wrong[k % |wrong|])
    && (r.reason[t] == 1 <==> forall i: nat :: !Usable(text, b, t, i, true))
    && (r.reason[t] == 2 <==>
          && requireNegative && (exists i: nat :: Usable(text, b, t, i, true))
          && forall i: nat :: !Usable(text, b, t, i, false))
    && r.reason[t] <= 2
  }

  // The three refusals, in the order they are raised, and otherwise every row's choice.
  ghost predicate SelectsExactly(text: Text, b: Batch, requireNegative: bool, count: int, r: Result) {
    var aligned := |b.ids| == |b.groups| && |b.correct| == |b.groups| && |b.valid| == |b.groups| &&
        |b.responses| == |b.groups|;
    var apart := "" !in b.ids && forall i, j :: 0 <= i < j < |b.ids| ==> b.ids[i] != b.ids[j];
    && (r == Failed(Misaligned) <==> !aligned)
    && (r == Failed(BadIds) <==> aligned && !apart)
    && (r == Failed(BadCount) <==> aligned && apart && count < 1)
    && (r.Ok? ==>
          && b.Aligned() && 1 <= count
          && |r.selection.positive| == |r.selection.negative| == |r.selection.reason| == |b.ids|
          && forall t :: 0 <= t < |b.ids| ==> Chosen(text, b, r.selection, t, requireNegative, count))
  }

  lemma UsableAreCandidates(text: Text, b: Batch, t: nat)
    requires b.Aligned() && t < |b.ids|
    ensures forall i: nat, c :: Candidate(text, b, t, i, c) <==> Usable(text, b, t, i, c)
  {
    forall i: nat, c ensures Candidate(text, b, t, i, c) <==> Usable(text, b, t, i, c) {
      CandidateIsUsable(text, b, t, i, c);
    }
  }

  lemma NegativesAreRanked(text: Text, b: Batch, t: nat)
    requires b.Aligned() && b.NamedApart() && t < |b.ids|
    ensures Ranked(text, b, t, NegativesOf(text, b, t))
    ensures NegativesOf(text, b, t) == [] <==> forall i: nat :: !Usable(text, b, t, i, false)
  {
    ThoseAreCandidates(text, b, t, false);
    UsableAreCandidates(text, b, t);
    hide Candidate, Usable, Before, Those, Eligible, InOrder, Batch.NamedApart;
    var wrong := NegativesOf(text, b, t);
    if wrong != [] {
      assert wrong[0] in wrong;
    }
  }

  lemma RowIsExact(text: Text, b: Batch, t: nat, requireNegative: bool, count: int)
    requires b.Aligned() && b.NamedApart() && 1 <= count && t < |b.ids|
    ensures Chosen(text, b, Select(text, b, requireNegative, count).selection, t, requireNegative, count)
  {
    PositiveIsEarliest(text, b, t);
    NegativesAreRanked(text, b, t);
    UsableAreCandidates(text, b, t);
    hide Candidate, Usable, Before, PositiveOf, NegativesOf, Ranked, Batch.NamedApart, Within;
  }

  /** The whole selection: which batches are refused and why, and of every row the earliest usable
      correct sibling, the usable wrong ones in turn, and the reason code. */
  lemma SelectionIsExact(text: Text, b: Batch, requireNegative: bool, count: int)
    ensures SelectsExactly(text, b, requireNegative, count, Select(text, b, requireNegative, count))
  {
    hide Chosen, PositiveOf, NegativesOf, ReasonOf, Cycle;
    if b.Aligned() && b.NamedApart() && 1 <= count {
      forall t | 0 <= t < |b.ids|
        ensures Chosen(text, b, Select(text, b, requireNegative, count).selection, t, requireNegative, count)
      {
        RowIsExact(text, b, t, requireNegative, count);
      }
    }
  }

  lemma PositiveWhereThereIsOne(text: Text, b: Batch, requireNegative: bool, count: int, r: Result)
    requires SelectsExactly(text, b, requireNegative, count, r) && r.Ok?
    ensures
      forall t, i, x :: 0 <= t < |b.ids| && 0 <= i < |b.ids| && i != t && b.groups[i] == b.groups[t]
        && b.correct[i] && b.valid[i] && 0 <= x < |b.responses[i]| && b.responses[i][x] !in text.spaces
        ==> r.selection.positive[t] >= 0
  {
    forall t, i, x | 0 <= t < |b.ids| && 0 <= i < |b.ids| && i != t && b.groups[i] == b.groups[t]
        && b.correct[i] && b.valid[i] && 0 <= x < |b.responses[i]| && b.responses[i][x] !in text.spaces
      ensures r.selection.positive[t] >= 0
    {
      assert Chosen(text, b, r.selection, t, requireNegative, count);
      assert Usable(text, b, t, i, true);
    }
  }

  method SelectRows(text: Text, b: Batch, requireNegative: bool, count: int) returns (r: Selection)
    requires b.Aligned() && b.NamedApart() && 1 <= count
    ensures Ok(r) == Select(text, b, requireNegative, count)
  {
    hide Sort, Keep, Those, Cycle, GroupMembers;
    var byGroup := GroupRows(b.groups);
    var positive, negative, reason := [], [], [];
    for target := 0 to |b.ids|
      invariant |positive| == |negative| == |reason| == target
      invariant forall t :: 0 <= t < target ==> positive[t] == PositiveOf(text, b, t)
      invariant forall t :: 0 <= t < target ==> negative[t] == Cycle(NegativesOf(text, b, t), count)
      invariant forall t :: 0 <= t < target ==> reason[t] == ReasonOf(text, b, t, requireNegative)
    {
      var eligible := Sort(text, b, Keep(text, b, target, byGroup[b.groups[target]]));
      var pos := First(Those(b, eligible, true));
      var neg := Those(b, eligible, false);
      positive := positive + [pos];
      negative := negative + [Cycle(neg, count)];
      reason := reason + [if pos < 0 then 1 else if requireNegative && neg == [] then 2 else 0];
    }
    r := Selection(positive, negative, reason);
  }

  /** The selector: its refusals in order, and otherwise every row's choice.  In particular a row
      with a usable correct sibling always gets one. */
  method SelectRolloutEvidence(text: Text, b: Batch, requireNegative: bool, count: int) returns (r: Result)
    ensures r == Select(text, b, requireNegative, count)
    ensures SelectsExactly(text, b, requireNegative, count, r)
    ensures r.Ok? ==>
      forall t, i, x :: 0 <= t < |b.ids| && 0 <= i < |b.ids| && i != t && b.groups[i] == b.groups[t]
        && b.correct[i] && b.valid[i] && 0 <= x < |b.responses[i]| && b.responses[i][x] !in text.spaces
        ==> r.selection.positive[t] >= 0
  {
    SelectionIsExact(text, b, requireNegative, count);
    DistinctIffNoneLost(b.ids);
    hide PositiveOf, NegativesOf, ReasonOf, Cycle, Chosen;
    if !b.Aligned() {
      return Failed(Misaligned);
    }
    if |IdSet(b.ids)| != |b.ids| || "" in b.ids {
      return Failed(BadIds);
    }
    if count < 1 {
      return Failed(BadCount);
    }
    var selection := SelectRows(text, b, requireNegative, count);
    r := Ok(selection);
    PositiveWhereThereIsOne(text, b, requireNegative, count, r);
  }

  // ----------------------------------------------------- permutation equivariance

  ghost predicate Permutation(p: seq<nat>, n: nat) {
    |p| == n && Within(p, n) && Distinct(p)
  }

  ghost function Permuted(b: Batch, p: seq<nat>): (r: Batch)
    requires b.Aligned() && Within(p, |b.ids|)
    ensures r.Aligned() && |r.ids| == |p|
  {
    Batch(seq(|p|, i requires 0 <= i < |p| => b.groups[p[i]]), seq(|p|, i requires 0 <= i < |p| => b.ids[p[i]]),
          seq(|p|, i requires 0 <= i < |p| => b.correct[p[i]]), seq(|p|, i requires 0 <= i < |p| => b.valid[p[i]]),
          seq(|p|, i requires 0 <= i < |p| => b.responses[p[i]]))
  }

  // Where a new position came from; -1 stays -1.
  ghost function Origin(p: seq<nat>, i: int): int
    requires i < |p|
  {
    if i < 0 then -1 else p[i]
  }

  ghost function Origins(p: seq<nat>, s: seq<nat>): (r: seq<nat>)
    requires Within(s, |p|)
    ensures |r| == |s| && forall i :: 0 <= i < |s| ==> r[i] == p[s[i]]
  {
    seq(|s|, i requires 0 <= i < |s| => p[s[i]])
  }

  // A permutation reaches every position.
  lemma Reached(p: seq<nat>, n: nat, v: nat)
    requires Permutation(p, n) && v < n
    ensures v in p
  {
    AllIndices(p, n, v);
  }

  lemma NamesSurvive(b: Batch, p: seq<nat>)
    requires b.Aligned() && Permutation(p, |b.ids|)
    ensures Permuted(b, p).NamedApart() <==> b.NamedApart()
  {
    var c := Permuted(b, p);
    if b.NamedApart() {
      forall i, j | 0 <= i < j < |c.ids| ensures c.ids[i] != c.ids[j] {
        assert p[i] != p[j];
      }
      assert forall i :: 0 <= i < |c.ids| ==> c.ids[i] == b.ids[p[i]];
    }
    if c.NamedApart() {
      forall i | 0 <= i < |b.ids| ensures b.ids[i] != "" && forall j :: i < j < |b.ids| ==> b.ids[i] != b.ids[j] {
        Reached(p, |p|, i);
        var k :| 0 <= k < |p| && p[k] == i;
        assert c.ids[k] == b.ids[i];
        forall j | i < j < |b.ids| ensures b.ids[i] != b.ids[j] {
          Reached(p, |p|, j);
          var m :| 0 <= m < |p| && p[m] == j;
          assert c.ids[m] == b.ids[j];
        }
      }
    }
  }

  lemma CandidatesMove(text: Text, b: Batch, p: seq<nat>, target: nat, i: nat, correct: bool)
    requires b.Aligned() && Permutation(p, |b.ids|) && target < |p| && i < |p|
    ensures Candidate(text, Permuted(b, p), target, i, correct) <==> Candidate(text, b, p[target], p[i], correct)
  {
    assert i != target <==> p[i] != p[target];
  }

  lemma OriginsInOrder(text: Text, b: Batch, p: seq<nat>, s: seq<nat>)
    requires b.Aligned() && Permutation(p, |b.ids|) && Within(s, |p|) && InOrder(text, Permuted(b, p), s)
    ensures Within(Origins(p, s), |b.ids|) && InOrder(text, b, Origins(p, s))
  {
    hide Earlier;
    var c, o := Permuted(b, p), Origins(p, s);
    forall i, j | 0 <= i < j < |o| ensures Before(text, b, o[i], o[j]) {
      assert Before(text, c, s[i], s[j]);
    }
  }

  // The ordered candidates of the permuted batch are the ordered candidates of the batch.
  lemma ThoseMove(text: Text, b: Batch, p: seq<nat>, target: nat, correct: bool)
    requires b.Aligned() && b.NamedApart() && Permutation(p, |b.ids|) && target < |p|
    ensures var s := Those(Permuted(b, p), Eligible(text, Permuted(b, p), target), correct);
            Within(s, |p|) && Origins(p, s) == Those(b, Eligible(text, b, p[target]), correct)
  {
    var c := Permuted(b, p);
    NamesSurvive(b, p);
    ThoseAreCandidates(text, c, target, correct);
    ThoseAreCandidates(text, b, p[target], correct);
    var s, t := Those(c, Eligible(text, c, target), correct), Those(b, Eligible(text, b, p[target]), correct);
    hide Those, Eligible, Candidate, Before, Permuted;
    OriginsInOrder(text, b, p, s);
    var o := Origins(p, s);
    forall v: nat ensures v in o <==> v in t {
      if v in o {
        var k :| 0 <= k < |o| && o[k] == v;
        assert s[k] in s;
        CandidatesMove(text, b, p, target, s[k], correct);
      }
      if v in t {
        var k :| 0 <= k < |t| && t[k] == v;
        Reached(p, |p|, v);
        var i :| 0 <= i < |p| && p[i] == v;
        CandidatesMove(text, b, p, target, i, correct);
        assert i in s;
        var m :| 0 <= m < |s| && s[m] == i;
        assert o[m] == v;
      }
    }
    OrderedIsUnique(text, b, o, t);
  }

  lemma TargetMoves(text: Text, b: Batch, p: seq<nat>, t: nat, requireNegative: bool, count: nat)
    requires b.Aligned() && b.NamedApart() && Permutation(p, |b.ids|) && t < |p|
    ensures var c := Permuted(b, p);
      && PositiveOf(text, c, t) < |p| && Origin(p, PositiveOf(text, c, t)) == PositiveOf(text, b, p[t])
      && Within(NegativesOf(text, c, t), |p|)
      && (forall k :: 0 <= k < count ==> Cycle(NegativesOf(text, c, t), count)[k] < |p|)
      && (forall k :: 0 <= k < count ==>
            Origin(p, Cycle(NegativesOf(text, c, t), count)[k]) == Cycle(NegativesOf(text, b, p[t]), count)[k])
      && ReasonOf(text, c, t, requireNegative) == ReasonOf(text, b, p[t], requireNegative)
  {
    ThoseMove(text, b, p, t, true);
    ThoseMove(text, b, p, t, false);
    var c := Permuted(b, p);
    var pos, neg := Those(c, Eligible(text, c, t), true), Those(c, Eligible(text, c, t), false);
    FirstMoves(p, pos);
    CycleMoves(p, neg, count);
    hide Those, Eligible, Permuted, Cycle, Origins, First;
  }

  lemma FirstMoves(p: seq<nat>, s: seq<nat>)
    requires Within(s, |p|)
    ensures First(s) < |p| && Origin(p, First(s)) == First(Origins(p, s))
    ensures First(s) < 0 <==> First(Origins(p, s)) < 0
  {
  }

  lemma CycleMoves(p: seq<nat>, s: seq<nat>, count: nat)
    requires Within(s, |p|)
    ensures forall k :: 0 <= k < count ==>
              Cycle(s, count)[k] < |p| && Origin(p, Cycle(s, count)[k]) == Cycle(Origins(p, s), count)[k]
  {
    forall k | 0 <= k < count && s != [] ensures 0 <= k % |s| < |s| {
    }
  }

  // What the selection of the permuted batch says of its row t, against the original's row p[t].
  ghost predicate RowCarried(p: seq<nat>, q: Selection, r: Selection, t: nat, count: nat)
    requires t < |p| && p[t] < |r.positive|
    requires t < |q.positive| == |q.negative| == |q.reason| && |r.positive| == |r.negative| == |r.reason|
  {
    && q.positive[t] < |p| && Origin(p, q.positive[t]) == r.positive[p[t]]
    && |q.negative[t]| == count == |r.negative[p[t]]|
    && (forall k :: 0 <= k < count ==> q.negative[t][k] < |p|)
    && (forall k :: 0 <= k < count ==> Origin(p, q.negative[t][k]) == r.negative[p[t]][k])
    && q.reason[t] == r.reason[p[t]]
  }

  lemma RowIsCarried(text: Text, b: Batch, p: seq<nat>, requireNegative: bool, count: int, t: nat)
    requires b.Aligned() && Permutation(p, |b.ids|) && t < |p|
    requires b.NamedApart() && Permuted(b, p).NamedApart() && 1 <= count
    ensures RowCarried(p, Select(text, Permuted(b, p), requireNegative, count).selection,
                       Select(text, b, requireNegative, count).selection, t, count)
  {
    hide Permuted, PositiveOf, NegativesOf, ReasonOf, Batch.NamedApart, Cycle, Origin, Distinct;
    TargetMoves(text, b, p, t, requireNegative, count);
  }

  /** Permuting the batch permutes the selection: whatever position a rollout arrives in, it
      gets the same siblings as evidence and the same reason, and the same batches are refused. */
  lemma SelectionIsEquivariant(text: Text, b: Batch, p: seq<nat>, requireNegative: bool, count: int)
    requires b.Aligned() && Permutation(p, |b.ids|)
    ensures var r, q := Select(text, b, requireNegative, count), Select(text, Permuted(b, p), requireNegative, count);
      && (r.Failed? || q.Failed? ==> r == q)
      && (r.Ok? ==> forall t :: 0 <= t < |p| ==> RowCarried(p, q.selection, r.selection, t, count))
  {
    NamesSurvive(b, p);
    hide Permuted, PositiveOf, NegativesOf, ReasonOf, Batch.NamedApart, Cycle, RowCarried;
    if b.NamedApart() && 1 <= count {
      forall t | 0 <= t < |p|
        ensures RowCarried(p, Select(text, Permuted(b, p), requireNegative, count).selection,
            Select(text, b, requireNegative, count).selection, t, count)
      {
        RowIsCarried(text, b, p, requireNegative, count, t);
      }
    }
  }
}
