/**
 Evaluating selector expressions (internal/planning/selector_types.go, Expand;
 selector_eval.go, Eval and ToPredicate). Warning texts are left out, the missing IDs are kept.
 */
module SelectorEval {
  import opened Results
  import opened Integers
  import opened Sequences
  import opened Sorting
  import opened SelectorSyntax
  import opened SelectorParser
  import opened SelectorRoundTrip

  // ---------- the range loop in 64-bit arithmetic ----------

  /** id++ on Go's int. */
  function Increment(id: int): (r: int)
    requires IsInt(id)
    ensures IsInt(r)
  {
    Wrap(id + 1)
  }

  function Iterate(id: int, steps: nat): (r: int)
    requires IsInt(id)
    ensures IsInt(r)
  {
    if steps == 0 then id else Increment(Iterate(id, steps - 1))
  }

  lemma {:induction false} IterateBelow(id: int, steps: nat)
    requires IsInt(id) && id + steps <= MAX_INT
    ensures Iterate(id, steps) == id + steps
  {
    if steps > 0 { IterateBelow(id, steps - 1); }
  }

  /** The loop "for id := start; id <= end; id++" reaches its exit. */
  ghost predicate LoopEnds(start: int, end: int)
    requires IsInt(start)
  {
    exists steps :: Iterate(start, steps) > end
  }

  /** Started below or at its end, the loop ends exactly when that is not the largest int; started above it, at once. */
  lemma RangeLoopEnds(start: int, end: int)
    requires IsInt(start) && IsInt(end)
    ensures LoopEnds(start, end) <==> start > end || end < MAX_INT
  {
    if start > end {
      assert Iterate(start, 0) > end;
    } else if end < MAX_INT {
      IterateBelow(start, end + 1 - start);
      assert Iterate(start, end + 1 - start) > end;
    } else {
      assert forall steps :: Iterate(start, steps) <= end;
    }
  }

  /** A text that parses, and whose expansion never ends. */
  lemma EndlessRange() returns (input: string)
    ensures ParseSpec(input) == Ok(Range(0, MAX_INT))
    ensures !LoopEnds(0, MAX_INT)
  {
    input := NodeString(Range(0, MAX_INT));
    PrintedParses(Range(0, MAX_INT));
    RangeLoopEnds(0, MAX_INT);
  }

  /** No range of the expression runs up to the largest int: a check on the expression alone. */
  predicate Expandable(n: SelectNode)
    decreases n, 0
  {
    match n
    case IDSet(_) => true
    case Range(start, end) => IsInt(start) && (start > end || end < MAX_INT)
    case And(children) => AllExpandable(children)
    case Or(children) => AllExpandable(children)
  }

  predicate AllExpandable(children: seq<SelectNode>)
    decreases children
  {
    children == [] || (Expandable(children[0]) && AllExpandable(children[1..]))
  }

  /** The ranges of the expression are Go ints. */
  predicate HasIntRanges(n: SelectNode)
    decreases n, 0
  {
    match n
    case IDSet(_) => true
    case Range(start, end) => IsInt(start) && IsInt(end)
    case And(children) => HaveIntRanges(children)
    case Or(children) => HaveIntRanges(children)
  }

  predicate HaveIntRanges(children: seq<SelectNode>)
    decreases children
  {
    children == [] || (HasIntRanges(children[0]) && HaveIntRanges(children[1..]))
  }

  /** Every loop that expanding the expression runs ends. Both operators expand all their children. */
  ghost predicate EveryLoopEnds(n: SelectNode)
    requires HasIntRanges(n)
    decreases n, 0
  {
    match n
    case IDSet(_) => true
    case Range(start, end) => LoopEnds(start, end)
    case And(children) => EachEnds(children)
    case Or(children) => EachEnds(children)
  }

  ghost predicate EachEnds(children: seq<SelectNode>)
    requires HaveIntRanges(children)
    decreases children
  {
    children == [] || (EveryLoopEnds(children[0]) && EachEnds(children[1..]))
  }

  /** Expanding an expression ends if and only if no range in it runs up to the largest int. */
  lemma {:induction false} ExpandEnds(n: SelectNode)
    requires HasIntRanges(n)
    ensures EveryLoopEnds(n) <==> Expandable(n)
    decreases n, 0
  {
    match n
    case IDSet(_) =>
    case Range(start, end) => RangeLoopEnds(start, end);
    case And(children) => EachExpandEnds(children);
    case Or(children) => EachExpandEnds(children);
  }

  lemma {:induction false} EachExpandEnds(children: seq<SelectNode>)
    requires HaveIntRanges(children)
    ensures EachEnds(children) <==> AllExpandable(children)
    decreases children
  {
    if children != [] {
      ExpandEnds(children[0]);
      EachExpandEnds(children[1..]);
    }
  }

  /** Whatever parses has Go ints in its ranges. */
  lemma {:induction false} ParsedHasIntRanges(n: SelectNode)
    requires Parsed(n)
    ensures HasIntRanges(n)
    decreases n, 0
  {
    match n
    case IDSet(_) =>
    case Range(_, _) =>
    case And(children) => AllParsedHaveIntRanges(children);
    case Or(children) => AllParsedHaveIntRanges(children);
  }

  lemma {:induction false} AllParsedHaveIntRanges(children: seq<SelectNode>)
    requires AllParsed(children)
    ensures HaveIntRanges(children)
    decreases children
  {
    if children != [] {
      ParsedHasIntRanges(children[0]);
      AllParsedHaveIntRanges(children[1..]);
    }
  }

  /** For every text that parses: expanding it ends if and only if no range in it runs up to the largest int. */
  lemma ParsedExpandEnds(input: string)
    requires ParseSpec(input).Ok?
    ensures var e := ParseSpec(input).value;
            HasIntRanges(e) && (EveryLoopEnds(e) <==> Expandable(e))
  {
    var e := ParseSpec(input).value;
    ParseIsGrammar(input, e);
    ParsedHasIntRanges(e);
    ExpandEnds(e);
  }

  lemma {:induction false} ExpandableAt(children: seq<SelectNode>, i: nat)
    requires AllExpandable(children) && i < |children|
    ensures Expandable(children[i])
  {
    if i > 0 { ExpandableAt(children[1..], i - 1); }
  }

  // ---------- Expand ----------

  /** A map[int]struct{} passed by reference. */
  class IdSet {
    var ids: set<int>

    constructor ()
      ensures ids == {}
    {
      ids := {};
    }
  }

  lemma {:induction false} DenoteAnyAppend(children: seq<SelectNode>, n: SelectNode)
    ensures DenoteAny(children + [n]) == DenoteAny(children) + Denote(n)
  {
    if children == [] {
      assert children + [n] == [n];
      assert DenoteAny([n][1..]) == {};
    } else {
      assert (children + [n])[1..] == children[1..] + [n];
      DenoteAnyAppend(children[1..], n);
    }
  }

  lemma {:induction false} DenoteAllAppend(children: seq<SelectNode>, n: SelectNode)
    requires children != []
    ensures DenoteAll(children + [n]) == DenoteAll(children) * Denote(n)
  {
    assert (children + [n])[1..] == children[1..] + [n];
    if |children| == 1 {
      assert children[1..] + [n] == [n];
    } else {
      DenoteAllAppend(children[1..], n);
    }
  }

  /** expandInto adds exactly the IDs the node denotes. */
  method ExpandInto(node: SelectNode, acc: IdSet)
    requires Expandable(node)
    modifies acc
    ensures acc.ids == old(acc.ids) + Denote(node)
    decreases node
  {
    match node
    case IDSet(ids) =>
      for i := 0 to |ids|
        invariant acc.ids == old(acc.ids) + set id | id in ids[..i]
      {
        acc.ids := acc.ids + {ids[i]};
      }
      assert ids[..|ids|] == ids;
    case Range(start, end) =>
      var id := start;
      while id <= end
        invariant start <= end ==> start <= id <= end + 1
        invariant start > end ==> id == start
        invariant acc.ids == old(acc.ids) + IdsBetween(start, id - 1)
        decreases end - id
      {
        acc.ids := acc.ids + {id};
        id := Increment(id);
      }
    case And(children) =>
      if |children| == 0 {
        return;
      }
      ExpandableAt(children, 0);
      var first := new IdSet();
      ExpandInto(children[0], first);
      assert children[..1] == [children[0]];
      for i := 1 to |children|
        invariant fresh(first) && acc.ids == old(acc.ids)
        invariant first.ids == DenoteAll(children[..i])
      {
        ExpandableAt(children, i);
        var childSet := new IdSet();
        ExpandInto(children[i], childSet);
        assert childSet.ids == Denote(children[i]);
        DenoteAllAppend(children[..i], children[i]);
        assert children[..i + 1] == children[..i] + [children[i]];
        KeepCommon(first, childSet.ids);
      }
      assert children[..|children|] == children;
      acc.ids := acc.ids + first.ids;
    case Or(children) =>
      for i := 0 to |children|
        invariant acc.ids == old(acc.ids) + DenoteAny(children[..i])
      {
        ExpandableAt(children, i);
        DenoteAnyAppend(children[..i], children[i]);
        assert children[..i + 1] == children[..i] + [children[i]];
        ExpandInto(children[i], acc);
      }
      assert children[..|children|] == children;
  }

  /** Deleting from first what other lacks, key by key. */
  method KeepCommon(first: IdSet, other: set<int>)
    modifies first
    ensures first.ids == old(first.ids) * other
  {
    var rest := first.ids;
    while rest != {}
      invariant rest <= old(first.ids)
      invariant first.ids == rest + (old(first.ids) - rest) * other
      decreases |rest|
    {
      var id := PickOne(rest);
      rest := rest - {id};
      if id !in other {
        first.ids := first.ids - {id};
      }
    }
  }

  // ---------- Evaluator ----------

  /** A nil expression or root is None. */
  method Eval(available: set<int>, root: Option<SelectNode>) returns (selected: seq<int>, missing: set<int>)
    requires root.Some? ==> Expandable(root.value)
    ensures root.None? ==> selected == [] && missing == {}
    ensures root.Some? ==> IsSortedListOf(selected, Denote(root.value) * available) && missing == Denote(root.value) - available
  {
    if root.None? {
      return [], {};
    }
    var referenced := new IdSet();
    ExpandInto(root.value, referenced);
    assert referenced.ids == Denote(root.value);
    var selectedMap: set<int>;
    selectedMap, missing := SplitAvailable(referenced.ids, available);
    selected := SortedKeys(selectedMap);
  }

  method SplitAvailable(ids: set<int>, available: set<int>) returns (present: set<int>, missing: set<int>)
    ensures present == ids * available && missing == ids - available
  {
    present, missing := {}, {};
    var rest := ids;
    while rest != {}
      invariant rest <= ids
      invariant present == (ids - rest) * available
      invariant missing == (ids - rest) - available
      decreases |rest|
    {
      var id := PickOne(rest);
      rest := rest - {id};
      if id in available {
        present := present + {id};
      } else {
        missing := missing + {id};
      }
    }
  }

  /** The predicate a selector stands for agrees with Eval. */
  method ToPredicate(available: set<int>, root: SelectNode) returns (matches: int -> bool)
    requires Expandable(root)
    ensures forall id :: matches(id) <==> id in Denote(root) * available
  {
    var expanded := new IdSet();
    ExpandInto(root, expanded);
    var ids := expanded.ids;
    matches := (id: int) => id in ids && id in available;
  }

  /** EvalString: parse, then evaluate. */
  method EvalString(available: set<int>, input: string) returns (r: Result<seq<int>, ErrorCode>)
    requires ParseSpec(input).Ok? ==> Expandable(ParseSpec(input).value)
    ensures r.Err? <==> ParseSpec(input).Err?
    ensures r.Err? ==> r.error == ParseSpec(input).error
    ensures r.Ok? ==> IsSortedListOf(r.value, Denote(ParseSpec(input).value) * available)
  {
    var expr := ParseInput(input);
    if expr.Err? {
      return Err(expr.error);
    }
    var selected, missing := Eval(available, Some(expr.value));
    return Ok(selected);
  }
}
