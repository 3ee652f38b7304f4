/** Counting the members of finite sets and sequences. */
module Finite {
  ghost function Members(s: seq<nat>): set<nat> {
    set i | 0 <= i < |s| :: s[i]
  }

  ghost function Below(n: nat): (s: set<nat>)
    ensures |s| == n && forall i: nat :: i in s <==> i < n
  {
    if n == 0 then {} else Below(n - 1) + {n - 1}
  }

  lemma {:induction false} MembersSize(ids: seq<nat>)
    requires forall i, j :: 0 <= i < j < |ids| ==> ids[i] != ids[j]
    ensures |Members(ids)| == |ids|
    decreases |ids|
  {
    if ids != [] {
      var rest := ids[..|ids| - 1];
      MembersSize(rest);
      assert Members(ids) == Members(rest) + {ids[|ids| - 1]};
    }
  }

  lemma {:induction false} SubsetSize(s: set<nat>, t: set<nat>)
    requires s <= t
    ensures |s| <= |t|
    decreases |s|
  {
    if s != {} {
      var x :| x in s;
      SubsetSize(s - {x}, t - {x});
    }
  }

  // n distinct numbers below n are all of them.
  lemma AllIndices(ids: seq<nat>, n: nat, v: nat)
    requires |ids| == n && v < n
    requires forall i :: 0 <= i < n ==> ids[i] < n
    requires forall i, j :: 0 <= i < j < n ==> ids[i] != ids[j]
    ensures v in ids
  {
    MembersSize(ids);
    if v !in ids {
      assert Members(ids) <= Below(n) - {v};
      SubsetSize(Members(ids), Below(n) - {v});
    }
  }
}
