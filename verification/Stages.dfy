/** Cutting a selection into stages and putting it together again (internal/app/stage_processor.go). */
module Stages {
  import opened Results
  import opened Integers
  import opened Sequences
  import opened Sorting
  import opened SelectorSyntax
  import opened SelectorParser
  import opened SelectorRoundTrip
  import opened SelectorEval

  /** Input and output IDs of a stage are the same slice; Rejected and Reason are always empty. */
  datatype StageResult = StageResult(stage: int, stageSize: int, outputIDs: seq<int>)

  const DEFAULT_STAGE_SIZE := 64

  function EffectiveSize(stageSize: int): (size: nat)
    ensures size > 0 && (IsInt(stageSize) ==> IsInt(size))
  {
    if stageSize <= 0 then DEFAULT_STAGE_SIZE else stageSize
  }

  /** (n + size - 1) / size on Go's int, where the sum can wrap. */
  function Ceiling(size: nat, n: nat): int
    requires 0 < size <= MAX_INT && n <= MAX_INT
  {
    Quotient(Wrap(Wrap(n + size) - 1), size)
  }

  function StageCount(stageSize: int, total: int): int
    requires IsInt(stageSize) && IsInt(total)
  {
    if total <= 0 then 1 else Ceiling(EffectiveSize(stageSize), total)
  }

  ghost function Flatten(stages: seq<StageResult>): seq<int>
  {
    if stages == [] then [] else stages[0].outputIDs + Flatten(stages[1..])
  }

  lemma {:induction false} FlattenAppend(stages: seq<StageResult>, last: StageResult)
    ensures Flatten(stages + [last]) == Flatten(stages) + last.outputIDs
  {
    if stages == [] {
      assert stages + [last] == [last];
      assert Flatten([last][1..]) == [];
    } else {
      assert (stages + [last])[1..] == stages[1..] + [last];
      FlattenAppend(stages[1..], last);
    }
  }

  // ---------- how many stages ----------

  /** The smallest positive number of stages that holds n IDs. */
  predicate IsSmallest(count: int, size: nat, n: nat)
  {
    count >= 1 && n <= count * size && (count == 1 || (count - 1) * size < n)
  }

  /** The sum wraps so far below zero that the quotient is negative. */
  predicate NoStage(size: nat, n: nat)
  {
    MAX_INT - size + 1 < n <= 2 * (MAX_INT - size) + 3
  }

  /** The sum does not wrap, or it wraps, the quotient is zero and one stage is enough. */
  predicate Holds(size: nat, n: nat)
  {
    n <= MAX_INT - size + 1 || 2 * (MAX_INT - size) + 3 < n <= size
  }

  lemma CeilingBounds(x: nat, size: nat)
    requires x >= size > 0
    ensures x / size >= 1 && (x / size - 1) * size <= x - size && x - size + 1 <= (x / size) * size <= x
  {
    var q := x / size;
    assert x == q * size + x % size;
    assert (q - 1) * size == q * size - size;
  }

  lemma CeilingIs(size: nat, n: nat)
    requires 0 < size <= MAX_INT && n <= MAX_INT
    ensures n + size - 1 <= MAX_INT && n > 0 ==> IsSmallest(Ceiling(size, n), size, n)
    ensures n == 0 ==> Ceiling(size, n) == 0
    ensures Ceiling(size, n) < 0 <==> NoStage(size, n)
    ensures n + size - 1 > MAX_INT ==> Ceiling(size, n) <= 0
  {
    if n + size - 1 > MAX_INT {
      CeilingWraps(size, n);
    } else {
      CeilingFits(size, n);
    }
  }

  lemma CeilingFits(size: nat, n: nat)
    requires 0 < size <= MAX_INT && n + size - 1 <= MAX_INT
    ensures if n == 0 then Ceiling(size, n) == 0 else IsSmallest(Ceiling(size, n), size, n)
  {
    SumIs(size, n);
    if n > 0 {
      CeilingBounds(n + size - 1, size);
    } else {
      QuotientPositive(size - 1, size);
    }
  }

  lemma CeilingWraps(size: nat, n: nat)
    requires 0 < size <= MAX_INT && n <= MAX_INT < n + size - 1
    ensures Ceiling(size, n) <= 0 && (Ceiling(size, n) < 0 <==> NoStage(size, n))
  {
    SumIs(size, n);
    var below := TWO_TO_THE_64 - (n + size - 1);
    QuotientPositive(below, size);
    assert Ceiling(size, n) == -(below / size);
  }

  lemma SumIs(size: nat, n: nat)
    requires 0 < size <= MAX_INT && n <= MAX_INT
    ensures var x := n + size - 1;
            Wrap(Wrap(n + size) - 1) == if x <= MAX_INT then x else x - TWO_TO_THE_64
  {
  }

  lemma QuotientPositive(x: nat, size: nat)
    requires size > 0
    ensures x / size >= 1 <==> x >= size
  {
    if x >= size { CeilingBounds(x, size); }
  }

  /**
   The stage count is the smallest positive number of stages that holds the total if and only if the
   sum does not wrap; when it does, the count is negative or zero.
   */
  lemma StageCountBounds(stageSize: int, total: nat)
    requires IsInt(stageSize) && IsInt(total)
    ensures var size, count := EffectiveSize(stageSize), StageCount(stageSize, total);
            && (IsSmallest(count, size, total) <==> total <= MAX_INT - size + 1)
            && (count < 0 <==> NoStage(size, total))
  {
    CeilingIs(EffectiveSize(stageSize), total);
  }

  // ---------- cutting and merging ----------

  lemma StageStart(i: nat, size: nat, count: nat, total: nat)
    requires i < count && (count - 1) * size <= total
    ensures i * size <= total && (i + 1) * size == i * size + size <= count * size
    ensures i < count - 1 ==> i * size + size <= total
  {
    MultiplyMonotone(i, count - 1, size);
    MultiplyMonotone(i + 1, count, size);
    if i < count - 1 { MultiplyMonotone(i + 1, count - 1, size); }
  }

  /** The slices of at most size IDs, in order: none for a negative count. No sum in the loop wraps. */
  method Cut(matched: seq<int>, size: nat, stageCount: int) returns (stages: seq<StageResult>)
    requires size > 0 && stageCount * size <= MAX_INT && (stageCount - 1) * size <= |matched|
    ensures |stages| == if stageCount < 0 then 0 else stageCount
    ensures stageCount >= 0 ==> Flatten(stages) == matched[..Min(stageCount * size, |matched|)]
    ensures forall i :: 0 <= i < |stages| ==> stages[i].stage == i + 1 && |stages[i].outputIDs| <= size
    ensures forall i :: 0 <= i < |stages| - 1 ==> |stages[i].outputIDs| == size
  {
    stages := [];
    ghost var done := 0;
    var i := 0;
    while i < stageCount
      invariant |stages| == i && if stageCount < 0 then i == 0 else i <= stageCount
      invariant done == Min(i * size, |matched|)
      invariant Flatten(stages) == matched[..done]
      invariant forall j :: 0 <= j < i ==> stages[j].stage == j + 1 && |stages[j].outputIDs| <= size
      invariant forall j :: 0 <= j < i && j < stageCount - 1 ==> |stages[j].outputIDs| == size
    {
      StageStart(i, size, stageCount, |matched|);
      var start := i * size;
      var end := start + size;
      assert IsInt(end);
      if end > |matched| {
        end := |matched|;
      }
      var ids := matched[start..end];
      FlattenAppend(stages, StageResult(i + 1, size, ids));
      assert matched[..start] + ids == matched[..end];
      stages := stages + [StageResult(i + 1, size, ids)];
      done := end;
      i := i + 1;
    }
  }

  /** The IDs the expression selects. */
  ghost function Selection(root: Option<SelectNode>, available: set<int>): set<int>
  {
    match root
    case None => {}
    case Some(node) => Denote(node) * available
  }

  /**
   Stages numbered from 1, all but the last full, together a prefix of the selection: all of it if
   and only if Holds, and nothing at all in the window of NoStage.
   */
  method Process(stageSize: int, available: set<int>, root: Option<SelectNode>)
    returns (stages: seq<StageResult>, ghost selected: seq<int>)
    requires IsInt(stageSize) && |available| <= MAX_INT
    requires root.Some? ==> Expandable(root.value)
    ensures IsSortedListOf(selected, Selection(root, available)) && |selected| <= MAX_INT
    ensures Flatten(stages) <= selected
    ensures Flatten(stages) == selected <==> Holds(EffectiveSize(stageSize), |selected|)
    ensures stages == [] <==> NoStage(EffectiveSize(stageSize), |selected|)
    ensures Holds(EffectiveSize(stageSize), |selected|) ==> IsSmallest(|stages|, EffectiveSize(stageSize), |selected|)
    ensures forall i :: 0 <= i < |stages| ==> stages[i].stage == i + 1 && |stages[i].outputIDs| <= EffectiveSize(stageSize)
    ensures forall i :: 0 <= i < |stages| - 1 ==> |stages[i].outputIDs| == EffectiveSize(stageSize)
  {
    var evaluated, missing := Eval(available, root);
    selected := evaluated;
    ListSize(selected, Selection(root, available));
    SubsetSize(Selection(root, available), available);
    var matched := SortInts(evaluated);
    IncreasingUnique(matched, evaluated);
    var size := EffectiveSize(stageSize);
    CeilingIs(size, |matched|);
    var stageCount := Ceiling(size, |matched|);
    if stageCount == 0 {
      stageCount := 1;
    }
    CountFits(size, |matched|, stageCount);
    stages := Cut(matched, size, stageCount);
    assert matched[..|matched|] == matched;
  }

  /** The count the loop runs to: what it covers, and that its products stay in range. */
  lemma CountFits(size: nat, n: nat, count: int)
    requires 0 < size <= MAX_INT && n <= MAX_INT
    requires count == if Ceiling(size, n) == 0 then 1 else Ceiling(size, n)
    ensures count * size <= MAX_INT && (count - 1) * size <= n
    ensures count < 0 <==> NoStage(size, n)
    ensures Holds(size, n) ==> IsSmallest(count, size, n)
    ensures count > 0 && !Holds(size, n) ==> count * size < n
  {
    CeilingIs(size, n);
    if count < 0 {
      assert count * size <= 0;
    } else if n > 0 && n + size - 1 <= MAX_INT {
      CeilingBounds(n + size - 1, size);
    }
  }

  /** Merging the stages: every ID once, in increasing order. */
  method Recompose(stages: seq<StageResult>) returns (result: seq<int>)
    ensures StrictlyIncreasing(result) && forall id :: id in result <==> id in Flatten(stages)
  {
    var seen: set<int> := {};
    result := [];
    for i := 0 to |stages|
      invariant Distinct(result) && forall id :: id in result <==> id in seen
      invariant forall id :: id in seen <==> id in Flatten(stages[..i])
    {
      var ids := stages[i].outputIDs;
      assert stages[..i + 1] == stages[..i] + [stages[i]];
      FlattenAppend(stages[..i], stages[i]);
      for j := 0 to |ids|
        invariant Distinct(result) && forall id :: id in result <==> id in seen
        invariant forall id :: id in seen <==> id in Flatten(stages[..i]) || id in ids[..j]
      {
        if ids[j] !in seen {
          seen := seen + {ids[j]};
          result := result + [ids[j]];
        }
      }
      assert ids[..|ids|] == ids;
    }
    assert stages[..|stages|] == stages;
    result := SortInts(result);
  }

  /** Recomposing the stages of a selection gives the selection back if and only if the stages hold it. */
  method RecomposeUndoesProcess(stageSize: int, available: set<int>, root: Option<SelectNode>)
    returns (stages: seq<StageResult>, result: seq<int>)
    requires IsInt(stageSize) && |available| <= MAX_INT
    requires root.Some? ==> Expandable(root.value)
    ensures var selection, size := Selection(root, available), EffectiveSize(stageSize);
            && (IsSortedListOf(result, selection) <==> Holds(size, |selection|))
            && (stages == [] <==> NoStage(size, |selection|))
    ensures Flatten(stages) == result
  {
    ghost var selected;
    stages, selected := Process(stageSize, available, root);
    ListSize(selected, Selection(root, available));
    result := Recompose(stages);
    IncreasingUnique(result, Flatten(stages));
    if IsSortedListOf(result, Selection(root, available)) {
      SortedListUnique(result, selected, Selection(root, available));
    }
  }

  const ONE_OR_TWO := Or([IDSet([1]), IDSet([2])])

  lemma OneOrTwo() returns (input: string)
    ensures ParseSpec(input) == Ok(ONE_OR_TWO) && Expandable(ONE_OR_TWO)
    ensures Denote(ONE_OR_TWO) == {1, 2}
  {
    var ones, twos: seq<SelectNode> := [IDSet([1]), IDSet([2])], [IDSet([2])];
    assert ones[1..] == twos && twos[1..] == [];
    assert Parsed(ONE_OR_TWO) && Normal(ONE_OR_TWO) == ONE_OR_TWO by {
      assert AllParsed(twos) && NormalAll(twos) == twos;
    }
    assert DenoteAny(twos) == {2};
    input := NodeString(ONE_OR_TWO);
    PrintedParses(ONE_OR_TWO);
  }

  /** Two selected IDs and the largest stage size: the count is -1, there is no stage, and both IDs are lost. */
  method LostSelection() returns (ghost input: string, stages: seq<StageResult>, result: seq<int>)
    ensures ParseSpec(input) == Ok(ONE_OR_TWO) && Selection(Some(ONE_OR_TWO), {1, 2}) == {1, 2}
    ensures StageCount(MAX_INT, 2) == -1 && stages == [] && result == []
  {
    input := OneOrTwo();
    stages, result := RecomposeUndoesProcess(MAX_INT, {1, 2}, Some(ONE_OR_TWO));
  }
}
