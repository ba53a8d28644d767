/** Minterms and implicants: pins with delay pairs, the merge-eligibility rule and the merge. */
module Implicants {
  import opened Delays
  import opened Names

  function Abs(x: int): nat {
    if x < 0 then -x else x
  }

  function Min(x: int, y: int): int {
    if x <= y then x else y
  }

  function Max(x: int, y: int): int {
    if x >= y then x else y
  }

  /** Sum of the excitatory delays of all pins. */
  function SumExc(pins: seq<Input>): int {
    if pins == [] then 0 else SumExc(pins[..|pins| - 1]) + pins[|pins| - 1].de
  }

  /** Sum of the inhibitory delays of all pins. */
  function SumInh(pins: seq<Input>): int {
    if pins == [] then 0 else SumInh(pins[..|pins| - 1]) + pins[|pins| - 1].di
  }

  /** At position `k` both delays of `a` exceed those of `b` by the same +1 or -1. */
  predicate UnitShiftAt(a: seq<Input>, b: seq<Input>, k: int)
    requires 0 <= k < |a| && k < |b|
  {
    var exDiff := a[k].de - b[k].de;
    exDiff == a[k].di - b[k].di && Abs(exDiff) == 1
  }

  /**
   * The eligibility rule of a merge, stated without the loop: the pin lists have the same length,
   * one position is a unit shift and every other position is identical.
   */
  ghost predicate MergeableSpec(a: seq<Input>, b: seq<Input>) {
    && |a| == |b|
    && exists k :: 0 <= k < |a| && UnitShiftAt(a, b, k) && forall j :: 0 <= j < |a| && j != k ==> a[j] == b[j]
  }

  /** Pins of a merge: the smaller excitatory and the larger inhibitory delay at every position. */
  function MergePins(a: seq<Input>, b: seq<Input>): seq<Input>
    requires |a| == |b|
  {
    seq(|a|, i requires 0 <= i < |a| => Input(Min(a[i].de, b[i].de), Max(a[i].di, b[i].di)))
  }

  /** A minterm (one name) or an implicant built by merging. Only the "used in next step" flag changes. */
  class Implicant {
    const inputs: seq<Input>
    const names: seq<string>
    const excSum: int
    const inhSum: int
    var used: bool

    /** The cached sums agree with the pins; the names are sorted and free of duplicates. */
    ghost predicate Valid() {
      && excSum == SumExc(inputs)
      && inhSum == SumInh(inputs)
      && StrictlySorted(names)
    }

    constructor (pairs: seq<Input>, mintermNames: seq<string>)
      ensures Valid() && !used
      ensures inputs == pairs
      ensures names == SortedNames(mintermNames)
    {
      names := SortedNames(mintermNames);
      used := false;
      var pins: seq<Input> := [];
      var exc, inh := 0, 0;
      var k := 0;
      while k < |pairs|
        invariant 0 <= k <= |pairs|
        invariant pins == pairs[..k]
        invariant exc == SumExc(pins) && inh == SumInh(pins)
      {
        assert pairs[..k + 1] == pins + [pairs[k]];
        pins := pins + [pairs[k]];
        exc := exc + pairs[k].de;
        inh := inh + pairs[k].di;
        k := k + 1;
      }
      assert pins == pairs;
      inputs := pins;
      excSum := exc;
      inhSum := inh;
    }

    method UseInNextStep()
      modifies this
      ensures used
    {
      used := true;
    }

    /** Display name: the sorted minterm names written one after the other. */
    function Name(): string {
      JoinNames(names)
    }

    /** Group label: the excitatory sum alone when both sums agree, otherwise "exc..inh". */
    function Group(): string {
      if excSum != inhSum then IntToString(excSum) + ".." + IntToString(inhSum) else IntToString(excSum)
    }

    /** The pin-by-pin eligibility loop, with its early exit at the first position that rules a merge out. */
    method CheckIfMergeable(other: Implicant) returns (r: bool)
      requires |inputs| == |other.inputs|
      ensures r <==> MergeableSpec(inputs, other.inputs)
    {
      var a, b := inputs, other.inputs;
      var foundOneDiff := false;
      ghost var at := 0;
      var i := 0;
      while i < |a|
        invariant 0 <= i <= |a|
        invariant foundOneDiff ==> 0 <= at < i && UnitShiftAt(a, b, at)
        invariant forall j :: 0 <= j < i && (!foundOneDiff || j != at) ==> a[j] == b[j]
      {
        var exDiff := a[i].de - b[i].de;
        var inhDiff := a[i].di - b[i].di;
        if exDiff == 0 && inhDiff == 0 {
          assert a[i] == b[i];
        } else if Abs(exDiff) == 1 && Abs(inhDiff) == 1 && exDiff == inhDiff && !foundOneDiff {
          foundOneDiff := true;
          at := i;
        } else {
          assert a[i] != b[i];
          if foundOneDiff {
            assert a[at] != b[at];
          } else {
            assert !UnitShiftAt(a, b, i);
          }
          return false;
        }
        i := i + 1;
      }
      if !foundOneDiff {
        assert forall k :: 0 <= k < |a| ==> a[k] == b[k];
      }
      return foundOneDiff;
    }

    /**
     * Returns null (the source's False) when the pair is not eligible and changes no flag;
     * otherwise marks both operands as used and returns the merged implicant.
     */
    method MergeWith(other: Implicant) returns (r: Implicant?)
      requires |inputs| == |other.inputs|
      modifies this, other
      ensures r == null <==> !MergeableSpec(inputs, other.inputs)
      ensures r == null ==> used == old(used) && other.used == old(other.used)
      ensures r != null ==> fresh(r) && used && other.used
      ensures r != null ==> r.Valid() && !r.used
      ensures r != null ==> r.inputs == MergePins(inputs, other.inputs)
      ensures r != null ==> r.names == SortedNames(names + other.names)
    {
      var ok := CheckIfMergeable(other);
      if !ok {
        return null;
      }
      var mintermNames := names + other.names;
      var pairs: seq<Input> := [];
      UseInNextStep();
      other.UseInNextStep();
      var i := 0;
      while i < |inputs|
        invariant 0 <= i <= |inputs|
        invariant pairs == MergePins(inputs, other.inputs)[..i]
      {
        var pair := Input(Min(inputs[i].de, other.inputs[i].de), Max(inputs[i].di, other.inputs[i].di));
        pairs := pairs + [pair];
        i := i + 1;
      }
      r := new Implicant(pairs, mintermNames);
    }
  }

  /** Eligibility does not depend on the order of the operands. */
  lemma MergeableSymmetric(a: seq<Input>, b: seq<Input>)
    ensures MergeableSpec(a, b) <==> MergeableSpec(b, a)
  {
    if MergeableSpec(a, b) {
      var k :| 0 <= k < |a| && UnitShiftAt(a, b, k) && forall j :: 0 <= j < |a| && j != k ==> a[j] == b[j];
      assert UnitShiftAt(b, a, k);
    }
    if MergeableSpec(b, a) {
      var k :| 0 <= k < |b| && UnitShiftAt(b, a, k) && forall j :: 0 <= j < |b| && j != k ==> b[j] == a[j];
      assert UnitShiftAt(a, b, k);
    }
  }

  /** An implicant is never eligible to merge with itself or with a copy of its pins. */
  lemma MergeableIrreflexive(a: seq<Input>)
    ensures !MergeableSpec(a, a)
  {
  }

  /** Merging is commutative: same pins and same names whichever operand comes first. */
  lemma MergeCommutes(a: Implicant, b: Implicant)
    requires |a.inputs| == |b.inputs|
    ensures MergePins(a.inputs, b.inputs) == MergePins(b.inputs, a.inputs)
    ensures SortedNames(a.names + b.names) == SortedNames(b.names + a.names)
  {
    SortedNamesOfSameNames(a.names + b.names, b.names + a.names);
  }

  /** When two pin lists agree everywhere but at `k`, their sums differ by the difference at `k`. */
  lemma {:induction false} SumsAgreeExcept(s: seq<Input>, t: seq<Input>, k: int)
    requires |s| == |t| && 0 <= k < |s|
    requires forall j :: 0 <= j < |s| && j != k ==> s[j] == t[j]
    ensures SumExc(t) - SumExc(s) == t[k].de - s[k].de
    ensures SumInh(t) - SumInh(s) == t[k].di - s[k].di
  {
    var n := |s|;
    if k == n - 1 {
      assert s[..n - 1] == t[..n - 1];
    } else {
      SumsAgreeExcept(s[..n - 1], t[..n - 1], k);
    }
  }

  /**
   * Group shift: eligible operands lie in groups whose sums differ by the same +1 or -1, and merging
   * an implicant of group (e, i) with one of group (e + 1, i + 1) gives an implicant of group (e, i + 1).
   */
  lemma MergeShiftsGroup(a: seq<Input>, b: seq<Input>)
    requires MergeableSpec(a, b)
    ensures SumExc(b) - SumExc(a) == SumInh(b) - SumInh(a)
    ensures Abs(SumExc(b) - SumExc(a)) == 1
    ensures SumExc(b) == SumExc(a) + 1 ==>
              SumExc(MergePins(a, b)) == SumExc(a) && SumInh(MergePins(a, b)) == SumInh(b)
  {
    var k :| 0 <= k < |a| && UnitShiftAt(a, b, k) && forall j :: 0 <= j < |a| && j != k ==> a[j] == b[j];
    SumsAgreeExcept(a, b, k);
    var m := MergePins(a, b);
    SumsAgreeExcept(a, m, k);
    SumsAgreeExcept(b, m, k);
  }

  /** The group label, read back as a delay cell, is the pair of the two sums. */
  lemma GroupLabelParses(imp: Implicant)
    ensures ParseCell(imp.Group()) == Some(Input(imp.excSum, imp.inhSum))
  {
    ParseCellForms(imp.excSum, imp.inhSum);
  }
}
