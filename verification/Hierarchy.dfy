/**
 The last level of the hierarchical planner (internal/planning/hierarchy.go, applyDependencyOrdering):
 order the candidates by their dependencies, or by priority when those form a cycle, and cut the
 list at the target.
 */
module Hierarchy {
  import opened Sequences
  import opened Sorting
  import opened PullRequests
  import opened Graphs
  import opened TopologicalSort
  import opened DependencyOrder

  /** HierarchicalCandidate without its upper-level ranks and score breakdown. */
  datatype Entry = Entry(pr: PR, priority: real, rank: int, depth: int)

  /** The cycle notice carries number -1 in the source. */
  datatype Rejection = CycleDetected | ExceededTarget(number: int)

  function EntryNumbers(entries: seq<Entry>): (numbers: seq<int>)
    ensures |numbers| == |entries| && forall i :: 0 <= i < |entries| ==> numbers[i] == entries[i].pr.number
  {
    seq(|entries|, i requires 0 <= i < |entries| => entries[i].pr.number)
  }

  ghost predicate DistinctEntries(entries: seq<Entry>)
  {
    Distinct(EntryNumbers(entries))
  }

  // ---------- the candidates' graph ----------

  method KeepSelected(edges: seq<Edge>, selected: set<int>) returns (kept: seq<Edge>)
    ensures forall e :: e in kept <==> e in edges && e.from in selected && e.to in selected
  {
    kept := [];
    for i := 0 to |edges|
      invariant forall e :: e in kept <==> e in edges[..i] && e.from in selected && e.to in selected
    {
      assert edges[..i + 1] == edges[..i] + [edges[i]];
      if edges[i].from in selected && edges[i].to in selected {
        kept := kept + [edges[i]];
      }
    }
    assert edges[..|edges|] == edges;
  }

  /** The candidates' graph: their nodes, and the edges of the whole input between them. */
  method SubGraph(isNoise: string -> bool, entries: seq<Entry>, allPRs: seq<PR>) returns (g: Graph)
    requires DistinctNumbers(allPRs) && DistinctEntries(entries)
    ensures DistinctNodes(g) && Numbers(g.nodes) == EntryNumbers(entries)
    ensures PairsOf(Dependencies(g), EntryNumbers(entries), allPRs)
  {
    var selected := set x | x in EntryNumbers(entries);
    var whole := Build(isNoise, allPRs);
    var edges := KeepSelected(whole.edges, selected);
    g := Graph(NodesOf(seq(|entries|, i requires 0 <= i < |entries| => entries[i].pr)), edges);
    assert Numbers(g.nodes) == EntryNumbers(entries);
    forall i, j | 0 <= i < j < |g.nodes| ensures g.nodes[i].number != g.nodes[j].number {
      assert EntryNumbers(entries)[i] != EntryNumbers(entries)[j];
    }
    NodeSetIs(g);
    DependencyPairsMeaning(NodeSet(g), g.edges);
    forall a: int, b: int
      ensures (a, b) in Dependencies(g) <==> DependsAmong(EntryNumbers(entries), allPRs, a, b)
    {
      DependencyEdges(isNoise, allPRs, a, b);
    }
  }

  // ---------- the ordering itself ----------

  /** fallbackPriorityOrdering's comparison: higher priority first, and by number when they are within the tolerance. */
  predicate PriorityLess(a: Entry, b: Entry)
  {
    var difference := if a.priority < b.priority then b.priority - a.priority else a.priority - b.priority;
    if difference > 0.0001 then a.priority > b.priority else a.pr.number < b.pr.number
  }

  /** order is the candidates, each before all that the comparison puts after it. */
  ghost predicate PriorityOrder(candidates: seq<Entry>, order: seq<Entry>)
  {
    multiset(order) == multiset(candidates) && SortedBy(PriorityLess, order)
  }

  lemma PriorityAsymmetric()
    ensures forall x, y :: PriorityLess(x, y) ==> !PriorityLess(y, x)
  {
  }

  lemma PriorityTotal(candidates: seq<Entry>)
    requires DistinctEntries(candidates)
    ensures Distinct(candidates) && TotalOn(PriorityLess, candidates)
  {
    forall i, j | 0 <= i < j < |candidates|
      ensures candidates[i].pr.number != candidates[j].pr.number
    {
      assert EntryNumbers(candidates)[i] != EntryNumbers(candidates)[j];
    }
    forall x, y | x in candidates && y in candidates && x != y ensures x.pr.number != y.pr.number {
      var i, j :| 0 <= i < |candidates| && 0 <= j < |candidates| && candidates[i] == x && candidates[j] == y;
      assert i < j || j < i;
    }
  }

  /** Sorting gives the priority order when the comparison is transitive on the candidates. */
  lemma SortedByPriority(candidates: seq<Entry>)
    requires DistinctEntries(candidates) && StrictOrderOn(PriorityLess, candidates)
    ensures PriorityOrder(candidates, Sort(PriorityLess, candidates))
  {
    PriorityTotal(candidates);
    SortMembers(PriorityLess, candidates);
    SortSortedOn(PriorityLess, candidates, candidates);
  }

  lemma PriorityOrderMeans(candidates: seq<Entry>, order: seq<Entry>)
    requires PriorityOrder(candidates, order)
    ensures StrictOrderOn(PriorityLess, candidates)
  {
    PriorityAsymmetric();
    SortedMeansOrder(PriorityLess, order);
    SameMembers(order, candidates);
  }

  /** The tolerance can make the comparison circular; the candidates have a priority order if and only if it does not. */
  lemma PriorityOrderIff(candidates: seq<Entry>)
    requires DistinctEntries(candidates)
    ensures (exists order :: PriorityOrder(candidates, order)) <==> StrictOrderOn(PriorityLess, candidates)
  {
    if order :| PriorityOrder(candidates, order) { PriorityOrderMeans(candidates, order); }
    if StrictOrderOn(PriorityLess, candidates) { SortedByPriority(candidates); }
  }

  /** Each of three candidates comes before the next, and the last before the first. */
  lemma NoPriorityOrder(a: Entry, b: Entry, c: Entry)
    requires a.pr.number == 1 && b.pr.number == 2 && c.pr.number == 3
    requires a.priority == 0.5 && b.priority == 0.50006 && c.priority == 0.50012
    ensures PriorityLess(a, b) && PriorityLess(b, c) && PriorityLess(c, a)
    ensures !exists order :: PriorityOrder([a, b, c], order)
  {
    assert PriorityLess(a, b) && PriorityLess(b, c) && PriorityLess(c, a) && !PriorityLess(a, c);
    var all := [a, b, c];
    assert all[0] in all && all[1] in all && all[2] in all;
    forall order | PriorityOrder(all, order) ensures false {
      PriorityOrderMeans(all, order);
    }
  }

  /** The candidates have only one priority order. */
  lemma PriorityOrderUnique(candidates: seq<Entry>, order: seq<Entry>, order': seq<Entry>)
    requires PriorityOrder(candidates, order) && PriorityOrder(candidates, order')
    ensures order == order'
  {
    SameMembers(order, order');
    PriorityAsymmetric();
    SortedUnique(PriorityLess, order, order');
  }

  /** The first target candidates in order of priority. */
  ghost predicate IsPriorityPrefix(candidates: seq<Entry>, target: nat, kept: seq<int>)
  {
    exists order :: PriorityOrder(candidates, order)
      && kept == EntryNumbers(order)[..if |order| < target then |order| else target]
  }

  method IndexEntries(entries: seq<Entry>) returns (byNumber: map<int, Entry>)
    ensures forall x: int :: x in byNumber <==> x in EntryNumbers(entries)
    ensures forall x: int :: x in byNumber ==> byNumber[x] in entries && byNumber[x].pr.number == x
  {
    byNumber := map[];
    for i := 0 to |entries|
      invariant forall x: int :: x in byNumber <==> x in EntryNumbers(entries)[..i]
      invariant forall x: int :: x in byNumber ==> byNumber[x] in entries && byNumber[x].pr.number == x
    {
      byNumber := byNumber[entries[i].pr.number := entries[i]];
    }
    assert EntryNumbers(entries)[..|entries|] == EntryNumbers(entries);
  }

  /** The entry with the two fields this step sets taken out. */
  function Bare(e: Entry): Entry
  {
    e.(rank := 0, depth := 0)
  }

  ghost predicate ComesFrom(entries: seq<Entry>, e: Entry)
  {
    exists c :: c in entries && Bare(c) == Bare(e)
  }

  method MapBack(nodes: seq<Node>, byNumber: map<int, Entry>, ghost entries: seq<Entry>) returns (ordered: seq<Entry>)
    requires forall x: int :: x in byNumber ==> byNumber[x] in entries && byNumber[x].pr.number == x
    requires forall i :: 0 <= i < |nodes| ==> nodes[i].number in byNumber
    ensures EntryNumbers(ordered) == Numbers(nodes)
    ensures forall i :: 0 <= i < |ordered| ==> ComesFrom(entries, ordered[i]) && ordered[i].depth == i
  {
    ordered := [];
    for i := 0 to |nodes|
      invariant |ordered| == i
      invariant forall k :: 0 <= k < i ==>
                  ordered[k].pr.number == nodes[k].number && ComesFrom(entries, ordered[k]) && ordered[k].depth == k
    {
      var c := byNumber[nodes[i].number];
      assert Bare(c) == Bare(c.(depth := |ordered|));
      ordered := ordered + [c.(depth := |ordered|)];
    }
  }

  function RejectedNumbers(rejections: seq<Rejection>): seq<int>
  {
    if rejections == [] then []
    else
      RejectedNumbers(rejections[..|rejections| - 1])
      + match rejections[|rejections| - 1] case CycleDetected => [] case ExceededTarget(n) => [n]
  }

  lemma {:induction false} RejectedAppend(before: seq<Rejection>, excess: seq<Entry>)
    ensures RejectedNumbers(before + Exceeding(excess)) == RejectedNumbers(before) + EntryNumbers(excess)
  {
    if excess != [] {
      var init, last := excess[..|excess| - 1], excess[|excess| - 1];
      RejectedAppend(before, init);
      var whole := before + Exceeding(excess);
      assert whole[..|whole| - 1] == before + Exceeding(init);
      assert EntryNumbers(excess) == EntryNumbers(init) + [last.pr.number];
    } else {
      assert before + Exceeding(excess) == before;
    }
  }

  function Exceeding(excess: seq<Entry>): (r: seq<Rejection>)
    ensures |r| == |excess| && forall i :: 0 <= i < |r| ==> r[i] == ExceededTarget(excess[i].pr.number)
  {
    seq(|excess|, i requires 0 <= i < |excess| => ExceededTarget(excess[i].pr.number))
  }

  function Ranked(entries: seq<Entry>): (r: seq<Entry>)
    ensures |r| == |entries| && forall i :: 0 <= i < |r| ==> r[i] == entries[i].(rank := i + 1)
  {
    seq(|entries|, i requires 0 <= i < |entries| => entries[i].(rank := i + 1))
  }

  /** The two branches: dependency order, or priority order when there is a cycle. */
  method Order(isNoise: string -> bool, candidates: seq<Entry>, allPRs: seq<PR>)
    returns (ordered: seq<Entry>, rejections: seq<Rejection>)
    requires DistinctNumbers(allPRs) && DistinctEntries(candidates)
    ensures multiset(EntryNumbers(ordered)) == multiset(EntryNumbers(candidates))
    ensures forall i :: 0 <= i < |ordered| ==> ComesFrom(candidates, ordered[i])
    ensures rejections == if Circular(EntryNumbers(candidates), allPRs) then [CycleDetected] else []
    ensures !Circular(EntryNumbers(candidates), allPRs) ==>
              (exists pairs :: LeastOrder(EntryNumbers(candidates), allPRs, pairs, EntryNumbers(ordered)))
              && forall i :: 0 <= i < |ordered| ==> ordered[i].depth == i
    ensures Circular(EntryNumbers(candidates), allPRs) && StrictOrderOn(PriorityLess, candidates) ==>
              PriorityOrder(candidates, ordered)
  {
    var byNumber := IndexEntries(candidates);
    var g := SubGraph(isNoise, candidates, allPRs);
    ghost var numbers := EntryNumbers(candidates);
    CircularMeansCycle(Dependencies(g), numbers, allPRs);
    var sorted := TopologicalOrder(g);
    if sorted.Err? {
      ordered := Sort(PriorityLess, candidates);
      SortMembers(PriorityLess, candidates);
      SortNumbers(candidates);
      if StrictOrderOn(PriorityLess, candidates) { SortedByPriority(candidates); }
      forall i | 0 <= i < |ordered| ensures ComesFrom(candidates, ordered[i]) { assert ordered[i] in candidates; }
      return ordered, [CycleDetected];
    }
    NodeSetIs(g);
    SameInts(NodeSet(g), Elements(numbers));
    forall i | 0 <= i < |sorted.value| ensures sorted.value[i].number in byNumber {
      assert Numbers(sorted.value)[i] in Elements(Numbers(sorted.value));
    }
    ordered := MapBack(sorted.value, byNumber, candidates);
    assert LeastOrder(numbers, allPRs, Dependencies(g), EntryNumbers(ordered));
    SameElements(EntryNumbers(ordered), numbers);
    return ordered, [];
  }

  /** Sorting by priority keeps every number. */
  lemma SortNumbers(s: seq<Entry>)
    ensures multiset(EntryNumbers(Sort(PriorityLess, s))) == multiset(EntryNumbers(s))
  {
    var key := (e: Entry) => e.pr.number;
    SortKeys(PriorityLess, key, s);
    assert Keys(key, s) == EntryNumbers(s);
    assert Keys(key, Sort(PriorityLess, s)) == EntryNumbers(Sort(PriorityLess, s));
  }

  /** Cuts the ordered list at the target, rejects the rest and numbers what is left. */
  method Trim(targetTotal: nat, ordered: seq<Entry>, notice: seq<Rejection>)
    returns (kept: seq<Entry>, rejections: seq<Rejection>)
    requires RejectedNumbers(notice) == [] && forall r :: r in notice ==> r == CycleDetected
    ensures |kept| == if |ordered| < targetTotal then |ordered| else targetTotal
    ensures EntryNumbers(kept) == EntryNumbers(ordered)[..|kept|]
    ensures forall i :: 0 <= i < |kept| ==> kept[i] == ordered[i].(rank := i + 1)
    ensures multiset(EntryNumbers(kept)) + multiset(RejectedNumbers(rejections)) == multiset(EntryNumbers(ordered))
    ensures CycleDetected in rejections <==> notice != []
  {
    kept, rejections := ordered, notice;
    FirstIsMember(notice);
    if |ordered| > targetTotal {
      CutNumbers(ordered, targetTotal, notice);
      rejections := rejections + Exceeding(ordered[targetTotal..]);
      kept := ordered[..targetTotal];
    }
    ghost var numbers := EntryNumbers(kept);
    kept := Ranked(kept);
    assert EntryNumbers(kept) == numbers;
  }

  /** The number of candidates kept, which of them, and what becomes of the rest. */
  method ApplyDependencyOrdering(isNoise: string -> bool, targetTotal: nat, candidates: seq<Entry>, allPRs: seq<PR>)
    returns (kept: seq<Entry>, rejections: seq<Rejection>)
    requires DistinctNumbers(allPRs) && DistinctEntries(candidates)
    ensures |kept| == if |candidates| < targetTotal then |candidates| else targetTotal
    ensures multiset(EntryNumbers(kept)) + multiset(RejectedNumbers(rejections)) == multiset(EntryNumbers(candidates))
    ensures forall i :: 0 <= i < |kept| ==> ComesFrom(candidates, kept[i]) && kept[i].rank == i + 1
    ensures CycleDetected in rejections <==> Circular(EntryNumbers(candidates), allPRs)
    ensures !Circular(EntryNumbers(candidates), allPRs) ==>
              IsLeastPrefix(EntryNumbers(candidates), allPRs, targetTotal, EntryNumbers(kept))
              && forall i :: 0 <= i < |kept| ==> kept[i].depth == i
    ensures Circular(EntryNumbers(candidates), allPRs) && StrictOrderOn(PriorityLess, candidates) ==>
              IsPriorityPrefix(candidates, targetTotal, EntryNumbers(kept))
  {
    if |candidates| == 0 {
      NoneNoCircle(allPRs);
      EmptyLeastPrefix(allPRs, targetTotal);
      return [], [];
    }
    var ordered, notice := Order(isNoise, candidates, allPRs);
    SameLengths(ordered, candidates);
    kept, rejections := Trim(targetTotal, ordered, notice);
    forall i | 0 <= i < |kept| ensures ComesFrom(candidates, kept[i]) {
      SameSource(candidates, ordered[i], kept[i]);
    }
    assert !Circular(EntryNumbers(candidates), allPRs) ==>
           IsLeastPrefix(EntryNumbers(candidates), allPRs, targetTotal, EntryNumbers(kept));
  }

  lemma SameSource(candidates: seq<Entry>, e: Entry, f: Entry)
    requires ComesFrom(candidates, e) && Bare(e) == Bare(f)
    ensures ComesFrom(candidates, f)
  {
  }

  lemma SameLengths(a: seq<Entry>, b: seq<Entry>)
    requires multiset(EntryNumbers(a)) == multiset(EntryNumbers(b))
    ensures |a| == |b|
  {
    assert |multiset(EntryNumbers(a))| == |a| && |multiset(EntryNumbers(b))| == |b|;
  }

  lemma CutNumbers(all: seq<Entry>, n: nat, before: seq<Rejection>)
    requires n <= |all| && RejectedNumbers(before) == []
    ensures multiset(EntryNumbers(all[..n])) + multiset(RejectedNumbers(before + Exceeding(all[n..]))) == multiset(EntryNumbers(all))
  {
    RejectedAppend(before, all[n..]);
    assert EntryNumbers(all) == EntryNumbers(all[..n]) + EntryNumbers(all[n..]);
  }
}
