/** The closed-form count of rows with evidence on both sides (risk_aware_opsd/zpd_dataset.py),
    against the selector it mirrors. */
module AvailableCount {
  import opened RolloutOrder
  import opened Evidence

  function TargetExcludedAvailableCount(correct: int, validWrong: int, invalid: int): int {
    (if correct >= 2 && validWrong >= 1 then correct else 0)
    + (if correct >= 1 && validWrong >= 2 then validWrong else 0)
    + (if correct >= 1 && validWrong >= 1 then invalid else 0)
  }

  datatype Class = Correct | ValidWrong | Invalid

  function ClassOf(b: Batch, i: nat): Class
    requires b.Aligned() && i < |b.ids|
  {
    if b.valid[i] then (if b.correct[i] then Correct else ValidWrong) else Invalid
  }

  function CountClass(b: Batch, c: Class, n: nat): nat
    requires b.Aligned() && n <= |b.ids|
  {
    if n == 0 then 0 else CountClass(b, c, n - 1) + (if ClassOf(b, n - 1) == c then 1 else 0)
  }

  function CountTrue(s: seq<bool>): nat {
    if s == [] then 0 else CountTrue(s[..|s| - 1]) + (if s[|s| - 1] then 1 else 0)
  }

  // The profile's count: correct and valid rows are tallied apart, and the rest follow by
  // subtraction; None where the source raises on a negative remainder.
  datatype Profile = Profile(available: int) | Raises

  function ProfileOf(b: Batch): Profile
    requires b.Aligned()
  {
    var correct, valid := CountTrue(b.correct), CountTrue(b.valid);
    if valid < correct then Raises
    else Profile(TargetExcludedAvailableCount(correct, valid - correct, |b.ids| - valid))
  }

  // Rows the selector marks available.
  function CountAvailable(text: Text, b: Batch, n: nat): nat
    requires b.Aligned() && n <= |b.ids|
  {
    if n == 0 then 0 else CountAvailable(text, b, n - 1) + (if ReasonOf(text, b, n - 1, true) == 0 then 1 else 0)
  }

  // One prompt's rollouts: a single group of non-blank responses.
  predicate OnePrompt(text: Text, b: Batch)
    requires b.Aligned()
  {
    && (forall i :: 0 <= i < |b.ids| ==> b.groups[i] == b.groups[0])
    && (forall i :: 0 <= i < |b.ids| ==> !Blank(text, b.responses[i]))
  }

  predicate CorrectIsValid(b: Batch)
    requires b.Aligned()
  {
    forall i :: 0 <= i < |b.ids| ==> b.correct[i] ==> b.valid[i]
  }

  ghost predicate OtherOf(b: Batch, c: Class, target: nat, i: nat)
    requires b.Aligned()
  {
    i < |b.ids| && i != target && ClassOf(b, i) == c
  }

  // Some row below n other than the target is of class c exactly when the class count,
  // less the target's own, is positive.
  lemma {:induction false} OtherExists(b: Batch, c: Class, target: nat, n: nat)
    requires b.Aligned() && target < |b.ids| && n <= |b.ids|
    ensures CountClass(b, c, n) >= 1 + (if target < n && ClassOf(b, target) == c then 1 else 0)
            <==> exists i: nat :: i < n && OtherOf(b, c, target, i)
    ensures CountClass(b, c, n) >= (if target < n && ClassOf(b, target) == c then 1 else 0)
  {
    if n > 0 {
      OtherExists(b, c, target, n - 1);
      var here := n - 1;
      if OtherOf(b, c, target, here) {
        assert exists i: nat :: i < n && OtherOf(b, c, target, i);
      } else {
        assert (exists i: nat :: i < n && OtherOf(b, c, target, i)) <==>
            (exists i: nat :: i < n - 1 && OtherOf(b, c, target, i));
      }
    }
  }

  // A row is available exactly when, without it, both valid classes are still populated.
  lemma AvailableByCounts(text: Text, b: Batch, target: nat)
    requires b.Aligned() && b.NamedApart() && target < |b.ids| && OnePrompt(text, b)
    ensures ReasonOf(text, b, target, true) == 0 <==>
      && CountClass(b, Correct, |b.ids|) >= 1 + (if ClassOf(b, target) == Correct then 1 else 0)
      && CountClass(b, ValidWrong, |b.ids|) >= 1 + (if ClassOf(b, target) == ValidWrong then 1 else 0)
  {
    PositiveIsEarliest(text, b, target);
    NegativesCycleThroughWrongSiblings(text, b, target, 1);
    OtherExists(b, Correct, target, |b.ids|);
    OtherExists(b, ValidWrong, target, |b.ids|);
    hide PositiveOf, NegativesOf, Blank, CountClass, Before;
    forall i: nat ensures Candidate(text, b, target, i, true) <==> OtherOf(b, Correct, target, i)
      ensures Candidate(text, b, target, i, false) <==> OtherOf(b, ValidWrong, target, i)
    {
      if i < |b.ids| {
        assert b.groups[i] == b.groups[0];
      }
    }
    assert PositiveOf(text, b, target) < 0 <==> !exists i: nat :: i < |b.ids| && OtherOf(b, Correct, target, i);
    assert NegativesOf(text, b, target) == [] <==> !exists i: nat :: i < |b.ids| && OtherOf(b, ValidWrong, target, i);
  }

  lemma {:induction false} CountByClass(text: Text, b: Batch, n: nat)
    requires b.Aligned() && b.NamedApart() && n <= |b.ids| && OnePrompt(text, b)
    ensures var c, w := CountClass(b, Correct, |b.ids|), CountClass(b, ValidWrong, |b.ids|);
      CountAvailable(text, b, n)
      == (if c >= 2 && w >= 1 then CountClass(b, Correct, n) else 0)
         + (if c >= 1 && w >= 2 then CountClass(b, ValidWrong, n) else 0)
         + (if c >= 1 && w >= 1 then CountClass(b, Invalid, n) else 0)
  {
    hide ReasonOf, OnePrompt;
    if n > 0 {
      CountByClass(text, b, n - 1);
      AvailableByCounts(text, b, n - 1);
      hide CountClass;
    }
  }

  // Rows that are correct though their format is invalid: the totals count them as valid ones.
  function CountMislabelled(b: Batch, n: nat): nat
    requires b.Aligned() && n <= |b.ids|
  {
    if n == 0 then 0 else CountMislabelled(b, n - 1) + (if b.correct[n - 1] && !b.valid[n - 1] then 1 else 0)
  }

  lemma {:induction false} TalliesAreClasses(b: Batch, n: nat)
    requires b.Aligned() && n <= |b.ids|
    ensures CountTrue(b.correct[..n]) == CountClass(b, Correct, n) + CountMislabelled(b, n)
    ensures CountTrue(b.valid[..n]) == CountClass(b, Correct, n) + CountClass(b, ValidWrong, n)
    ensures n == CountClass(b, Correct, n) + CountClass(b, ValidWrong, n) + CountClass(b, Invalid, n)
    ensures CountMislabelled(b, n) <= CountClass(b, Invalid, n)
  {
    if n > 0 {
      TalliesAreClasses(b, n - 1);
      assert b.correct[..n][..n - 1] == b.correct[..n - 1] && b.valid[..n][..n - 1] == b.valid[..n - 1];
    }
  }

  // The totals hide the mislabelled rows: there are none, or as many valid wrong rows make up for
  // them, and taking those out does not change which side has siblings to spare.
  predicate TotalsSuffice(correct: nat, validWrong: nat, mislabelled: nat) {
    || mislabelled == 0
    || (mislabelled <= validWrong
        && ((correct == 0 && validWrong == mislabelled)
            || (correct == 1 && validWrong == mislabelled + 1)
            || (correct >= 2 && validWrong >= mislabelled + 2)))
  }

  /** For one prompt's non-blank rollouts, whatever their labels, the profile is built without an
      error and with the number of rows the selector marks available if and only if the totals
      suffice. */
  lemma CountAgreesIff(text: Text, b: Batch)
    requires b.Aligned() && b.NamedApart() && OnePrompt(text, b)
    ensures ProfileOf(b) == Profile(CountAvailable(text, b, |b.ids|)) <==>
      TotalsSuffice(CountClass(b, Correct, |b.ids|), CountClass(b, ValidWrong, |b.ids|), CountMislabelled(b, |b.ids|))
  {
    hide OnePrompt, CountAvailable, CountClass, CountMislabelled, CountTrue;
    CountByClass(text, b, |b.ids|);
    TalliesAreClasses(b, |b.ids|);
    assert b.correct[..|b.ids|] == b.correct && b.valid[..|b.ids|] == b.valid;
  }

  lemma {:induction false} NoneMislabelled(b: Batch, n: nat)
    requires b.Aligned() && CorrectIsValid(b) && n <= |b.ids|
    ensures CountMislabelled(b, n) == 0
  {
    if n > 0 {
      NoneMislabelled(b, n - 1);
    }
  }

  /** In particular they agree when every correct answer is format-valid. */
  lemma CountAgreesWithSelector(text: Text, b: Batch)
    requires b.Aligned() && b.NamedApart() && OnePrompt(text, b) && CorrectIsValid(b)
    ensures ProfileOf(b) == Profile(CountAvailable(text, b, |b.ids|))
  {
    hide OnePrompt, CorrectIsValid, CountAvailable, ProfileOf;
    CountAgreesIff(text, b);
    NoneMislabelled(b, |b.ids|);
  }

  function OneMislabelled(): Batch {
    Batch(["g", "g", "g"], ["a", "b", "c"], [true, false, false], [false, true, true], ["x", "x", "x"])
  }

  lemma OneMislabelledCounts()
    ensures OneMislabelled().Aligned() && OneMislabelled().NamedApart()
    ensures var b := OneMislabelled();
      CountClass(b, Correct, 3) == 0 && CountClass(b, ValidWrong, 3) == 2 && CountMislabelled(b, 3) == 1
    ensures ProfileOf(OneMislabelled()) == Profile(1)
  {
    var b := OneMislabelled();
    TalliesAreClasses(b, 3);
    assert b.correct[..3] == b.correct && b.valid[..3] == b.valid;
  }

  /** The profile's own guard looks only at totals, so it does not replace the row-wise rule: of a
      mislabelled and two valid wrong rollouts it raises no error and gets the count wrong. */
  lemma TotalsDoNotReplaceTheRowRule(text: Text)
    requires 'x' !in text.spaces
    ensures var b := OneMislabelled();
      && b.Aligned() && b.NamedApart() && OnePrompt(text, b)
      && ProfileOf(b) == Profile(1) && CountAvailable(text, b, 3) == 0
  {
    var b := OneMislabelled();
    assert OnePrompt(text, b) by {
      assert "x"[0] !in text.spaces;
    }
    OneMislabelledCounts();
    hide CountAvailable, OnePrompt, ProfileOf, CountClass;
    CountByClass(text, b, 3);
  }
}
