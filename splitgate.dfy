/**
  The decomposition choice of `_split_two_qubit_gate` in
  tensorcircuit/simplify.py.

  A two-qubit gate node with legs (out0, out1, in0, in1) can be split by SVD
  in two ways: "unswapped" groups legs {0, 2} against {1, 3}, "swapped" groups
  {0, 3} against {1, 2}. The SVDs themselves are not modelled; `s1` and `s2`
  are the bond dimensions the unswapped and the swapped split produce.
 */
module SplitGate {
  import opened Shapes

  /** Which of the two splits is returned. */
  datatype Choice = Unswapped | Swapped {
    /** The boolean the function returns beside the two new nodes. */
    function Flag(): bool {
      this == Swapped
    }

    /** The bond dimension of this split. */
    function Bond(s1: nat, s2: nat): nat {
      if this == Unswapped then s1 else s2
    }
  }

  /** `fixed_choice` after its default: asking for truncation by a number of
      singular values without a fixed choice selects the unswapped split. */
  function EffectiveChoice(maxSingularValues: Option<nat>, fixedChoice: Option<int>): (r: Option<int>)
    ensures fixedChoice.Some? ==> r == fixedChoice
    ensures fixedChoice.None? ==> (r.Some? <==> maxSingularValues.Some?)
    ensures r.Some? ==> r.value == 1 || r == fixedChoice
  {
    if maxSingularValues.Some? && fixedChoice.None? then Some(1) else fixedChoice
  }

  /** The split `_split_two_qubit_gate` returns, or `None` when it gives up. */
  function ChooseSplit(maxSingularValues: Option<nat>, fixedChoice: Option<int>, s1: nat, s2: nat): (r: Option<Choice>)
    // Fixed choices, and the truncation default, do not look at the bond dimensions.
    ensures fixedChoice == Some(1) ==> r == Some(Unswapped)
    ensures fixedChoice == Some(2) ==> r == Some(Swapped)
    ensures maxSingularValues.Some? && fixedChoice.None? ==> r == Some(Unswapped)
    // Otherwise the choice is automatic: it gives up exactly when both bonds are
    // at least 4, and otherwise picks a split of smallest bond, ties going to
    // the unswapped one.
    ensures EffectiveChoice(maxSingularValues, fixedChoice) !in {Some(1), Some(2)} ==>
              && (r.None? <==> s1 >= 4 && s2 >= 4)
              && (r.Some? ==> r.value.Bond(s1, s2) == Min(s1, s2) < 4)
              && (r == Some(Swapped) <==> s2 < s1 && s2 < 4)
  {
    var choice := EffectiveChoice(maxSingularValues, fixedChoice);
    if choice == Some(1) then Some(Unswapped)
    else if choice == Some(2) then Some(Swapped)
    else if s1 >= 4 && s2 >= 4 then None
    else if s1 <= s2 then Some(Unswapped)
    else Some(Swapped)
  }

  /** In automatic mode no other split has a smaller bond than the chosen one. */
  lemma AutomaticChoiceIsOptimal(s1: nat, s2: nat, c: Choice)
    requires ChooseSplit(None, None, s1, s2).Some?
    ensures ChooseSplit(None, None, s1, s2).value.Bond(s1, s2) <= c.Bond(s1, s2)
  {
  }

  /** A fixed choice other than 1 or 2 falls through to the automatic rule,
      even when truncation is asked for. */
  lemma OtherFixedChoiceIsAutomatic(m: Option<nat>, c: int, s1: nat, s2: nat)
    requires c != 1 && c != 2
    ensures ChooseSplit(m, Some(c), s1, s2) == ChooseSplit(None, None, s1, s2)
  {
  }
}
