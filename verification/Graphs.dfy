/**
 The pull request graph (internal/graph/graph.go): its nodes and typed edges, the relation the
 edges stand for, and Build, which finds them through branch indices instead of comparing all
 pairs. An edge's Reason text is left out; isNoise stands for types.FilterNoiseFiles.
 */
module Graphs {
  import opened Sequences
  import opened Sorting
  import opened PullRequests

  /** In the order of their names, "conflicts_with" < "depends_on". */
  datatype EdgeType = ConflictsWith | DependsOn

  datatype Edge = Edge(from: int, to: int, kind: EdgeType)

  datatype Node = Node(number: int, title: string, clusterId: string, ciStatus: string)

  datatype Graph = Graph(nodes: seq<Node>, edges: seq<Edge>)

  predicate EdgeLess(a: Edge, b: Edge)
  {
    if a.from != b.from then a.from < b.from
    else if a.to != b.to then a.to < b.to
    else a.kind.ConflictsWith? && b.kind.DependsOn?
  }

  // ---------- what the edges mean ----------

  /** right is stacked on left: its base is left's head, and the two are not parallel. */
  predicate StackedOn(left: PR, right: PR)
  {
    left.headBranch != "" && right.baseBranch == left.headBranch && right.baseBranch != left.baseBranch
  }

  function SharedSignal(isNoise: string -> bool, left: PR, right: PR): set<string>
  {
    set f | f in left.files && f in right.files && !isNoise(f)
  }

  predicate Conflicting(isNoise: string -> bool, left: PR, right: PR)
  {
    && left.baseBranch != "" && left.baseBranch == right.baseBranch
    && (SharedSignal(isNoise, left, right) != {} || (left.mergeable == "conflicting" && right.mergeable == "conflicting"))
  }

  ghost function DependenciesOf(left: PR, prs: seq<PR>): set<Edge>
  {
    set r | r in prs && StackedOn(left, r) :: Edge(left.number, r.number, DependsOn)
  }

  ghost function ConflictsOf(isNoise: string -> bool, left: PR, prs: seq<PR>): set<Edge>
  {
    set r | r in prs && left.number < r.number && Conflicting(isNoise, left, r) ::
      Edge(left.number, r.number, ConflictsWith)
  }

  /** The edges of all pairs, one pull request at a time. */
  ghost function AllPairsEdges(isNoise: string -> bool, prs: seq<PR>): set<Edge>
  {
    set l, e | l in prs && e in DependenciesOf(l, prs) + ConflictsOf(isNoise, l, prs) :: e
  }

  function NodeOf(pr: PR): Node
  {
    Node(pr.number, pr.title, pr.clusterId, pr.ciStatus)
  }

  function NodesOf(prs: seq<PR>): (nodes: seq<Node>)
    ensures |nodes| == |prs| && forall i :: 0 <= i < |prs| ==> nodes[i] == NodeOf(prs[i])
  {
    seq(|prs|, i requires 0 <= i < |prs| => NodeOf(prs[i]))
  }

  ghost predicate SortedEdges(edges: seq<Edge>, s: set<Edge>)
  {
    SortedBy(EdgeLess, edges) && (forall e :: e in edges <==> e in s)
  }

  /** g is the graph of prs: nodes by number, exactly the all-pairs edges, each once, in order. */
  ghost predicate IsGraphOf(isNoise: string -> bool, prs: seq<PR>, g: Graph)
  {
    && g.nodes == NodesOf(SortedByNumber(prs))
    && SortedEdges(g.edges, AllPairsEdges(isNoise, prs))
  }

  lemma PairEdge(isNoise: string -> bool, prs: seq<PR>, l: PR, e: Edge)
    requires l in prs && e in DependenciesOf(l, prs) + ConflictsOf(isNoise, l, prs)
    ensures e in AllPairsEdges(isNoise, prs)
  {
  }

  lemma EdgeOrder()
    ensures StrictOrder(EdgeLess)
    ensures forall s: seq<Edge> :: TotalOn(EdgeLess, s)
  {
  }

  lemma NumbersIdentify(prs: seq<PR>, a: PR, b: PR)
    requires DistinctNumbers(prs) && a in prs && b in prs && a.number == b.number
    ensures a == b
  {
  }

  /** An edge is present exactly when the pair of pull requests it names is related. */
  lemma EdgeMeaning(isNoise: string -> bool, prs: seq<PR>, l: PR, r: PR)
    requires DistinctNumbers(prs) && l in prs && r in prs
    ensures Edge(l.number, r.number, DependsOn) in AllPairsEdges(isNoise, prs) <==> StackedOn(l, r)
    ensures Edge(l.number, r.number, ConflictsWith) in AllPairsEdges(isNoise, prs)
       <==> l.number < r.number && Conflicting(isNoise, l, r)
  {
    forall l', r' | l' in prs && r' in prs && l'.number == l.number && r'.number == r.number
      ensures l' == l && r' == r
    {
      NumbersIdentify(prs, l, l');
      NumbersIdentify(prs, r, r');
    }
    var d, c := Edge(l.number, r.number, DependsOn), Edge(l.number, r.number, ConflictsWith);
    if StackedOn(l, r) {
      PairEdge(isNoise, prs, l, d);
    }
    if l.number < r.number && Conflicting(isNoise, l, r) {
      PairEdge(isNoise, prs, l, c);
    }
    if d in AllPairsEdges(isNoise, prs) {
      var l' :| l' in prs && d in DependenciesOf(l', prs) + ConflictsOf(isNoise, l', prs);
    }
    if c in AllPairsEdges(isNoise, prs) {
      var l' :| l' in prs && c in DependenciesOf(l', prs) + ConflictsOf(isNoise, l', prs);
    }
  }

  /** No edge joins a pull request to itself, and every edge joins two of the given ones. */
  lemma EdgeEndpoints(isNoise: string -> bool, prs: seq<PR>, e: Edge)
    requires DistinctNumbers(prs) && e in AllPairsEdges(isNoise, prs)
    ensures e.from != e.to
    ensures exists l, r :: l in prs && r in prs && l.number == e.from && r.number == e.to
  {
    var l :| l in prs && e in DependenciesOf(l, prs) + ConflictsOf(isNoise, l, prs);
    var r :| r in prs && e.to == r.number
             && (StackedOn(l, r) || (l.number < r.number && Conflicting(isNoise, l, r)));
    if l.number == r.number { NumbersIdentify(prs, l, r); }
  }

  /** The graph of a set of pull requests is unique, whatever order they are given in. */
  lemma GraphUnique(isNoise: string -> bool, a: seq<PR>, b: seq<PR>, g: Graph, h: Graph)
    requires DistinctNumbers(a) && DistinctNumbers(b)
    requires forall x :: x in a <==> x in b
    requires IsGraphOf(isNoise, a, g) && IsGraphOf(isNoise, b, h)
    ensures g == h
  {
    SortedByNumberStable(a, b);
    assert AllPairsEdges(isNoise, a) == AllPairsEdges(isNoise, b) by {
      forall l | l in a
        ensures DependenciesOf(l, a) == DependenciesOf(l, b)
        ensures ConflictsOf(isNoise, l, a) == ConflictsOf(isNoise, l, b)
      {
      }
    }
    EdgeOrder();
    SortedUnique(EdgeLess, g.edges, h.edges);
  }

  // ---------- Build ----------

  /** The edge slice and the seen-set that appendEdge fills through pointers. */
  class EdgeList {
    var edges: seq<Edge>
    var seen: set<Edge>

    ghost predicate Valid()
      reads this
    {
      Distinct(edges) && forall e :: e in seen <==> e in edges
    }

    constructor ()
      ensures Valid() && edges == [] && seen == {}
    {
      edges, seen := [], {};
    }

    method Append(edge: Edge)
      requires Valid()
      modifies this
      ensures Valid()
      ensures seen == old(seen) + {edge}
      ensures edges == if edge in old(seen) then old(edges) else old(edges) + [edge]
    {
      if edge in seen {
        return;
      }
      seen := seen + {edge};
      edges := edges + [edge];
    }
  }

  /** Go sorts and compacts the result; only the set of files matters to the graph. */
  method IntersectFiles(left: seq<string>, right: seq<string>) returns (shared: seq<string>)
    ensures forall f :: f in shared <==> f in left && f in right
  {
    if |left| == 0 || |right| == 0 {
      return [];
    }
    var rightSet := set f | f in right;
    shared := [];
    for i := 0 to |left|
      invariant forall f :: f in shared <==> f in left[..i] && f in right
    {
      if left[i] in rightSet {
        shared := shared + [left[i]];
      }
    }
    assert left[..|left|] == left;
  }

  method FilterNoise(isNoise: string -> bool, files: seq<string>) returns (signal: seq<string>)
    ensures forall f :: f in signal <==> f in files && !isNoise(f)
  {
    signal := [];
    for i := 0 to |files|
      invariant forall f :: f in signal <==> f in files[..i] && !isNoise(f)
    {
      if !isNoise(files[i]) {
        signal := signal + [files[i]];
      }
    }
    assert files[..|files|] == files;
  }

  method ConflictFiles(isNoise: string -> bool, left: PR, right: PR) returns (files: seq<string>)
    ensures files != [] <==> Conflicting(isNoise, left, right)
    ensures (Conflicting(isNoise, left, right) ==>
               if SharedSignal(isNoise, left, right) == {} then files == ["mergeability_signal"]
               else forall f :: f in files <==> f in SharedSignal(isNoise, left, right))
  {
    if left.baseBranch == "" || right.baseBranch == "" || left.baseBranch != right.baseBranch {
      return [];
    }
    var shared := IntersectFiles(left.files, right.files);
    var signal := FilterNoise(isNoise, shared);
    FirstIsMember(signal);
    ghost var common := SharedSignal(isNoise, left, right);
    assert common != {} ==> exists f :: f in common && f in signal;
    assert signal != [] ==> signal[0] in common;
    if left.mergeable == "conflicting" && right.mergeable == "conflicting" && |signal| == 0 {
      return ["mergeability_signal"];
    }
    return signal;
  }

  /** Base branch to the pull requests waiting on it. */
  ghost predicate IsBaseIndex(index: map<string, seq<PR>>, prs: seq<PR>)
  {
    && (forall b, r :: b in index && r in index[b] ==> r in prs && r.baseBranch == b)
    && (forall r :: r in prs && r.baseBranch != "" ==> r.baseBranch in index && r in index[r.baseBranch])
  }

  function Lookup(index: map<string, seq<PR>>, branch: string): seq<PR>
  {
    if branch in index then index[branch] else []
  }

  /** headBranchIndex, which Build fills but never reads, is left out. */
  method IndexByBase(prs: seq<PR>) returns (index: map<string, seq<PR>>)
    ensures IsBaseIndex(index, prs)
  {
    index := map[];
    for i := 0 to |prs|
      invariant IsBaseIndex(index, prs[..i])
    {
      var pr := prs[i];
      assert prs[..i + 1] == prs[..i] + [pr];
      if pr.baseBranch != "" {
        index := index[pr.baseBranch := Lookup(index, pr.baseBranch) + [pr]];
      }
    }
    assert prs[..|prs|] == prs;
  }

  /** Both checks of the dependency loop have this form, once in each direction. */
  method AppendIfStacked(left: PR, right: PR, list: EdgeList)
    requires list.Valid()
    modifies list
    ensures list.Valid()
    ensures list.seen == old(list.seen) + (if StackedOn(left, right) then {Edge(left.number, right.number, DependsOn)} else {})
  {
    if left.headBranch != "" && right.baseBranch == left.headBranch && right.baseBranch != left.baseBranch {
      list.Append(Edge(left.number, right.number, DependsOn));
    }
  }

  method AppendDependencies(isNoise: string -> bool, left: PR, prs: seq<PR>, index: map<string, seq<PR>>, list: EdgeList)
    requires list.Valid() && IsBaseIndex(index, prs) && left in prs
    requires list.seen <= AllPairsEdges(isNoise, prs)
    modifies list
    ensures list.Valid() && list.seen >= old(list.seen) && list.seen >= DependenciesOf(left, prs)
    ensures list.seen <= AllPairsEdges(isNoise, prs)
  {
    if left.headBranch == "" {
      return;
    }
    var candidates := Lookup(index, left.headBranch);
    for i := 0 to |candidates|
      invariant list.Valid() && list.seen >= old(list.seen)
      invariant list.seen <= AllPairsEdges(isNoise, prs)
      invariant list.seen >= DependenciesOf(left, candidates[..i])
    {
      var right := candidates[i];
      StackedInAllPairs(isNoise, prs, left, right);
      StackedInAllPairs(isNoise, prs, right, left);
      DependenciesStep(left, candidates, i);
      AppendIfStacked(left, right, list);
      AppendIfStacked(right, left, list);
    }
    assert candidates[..|candidates|] == candidates;
    assert DependenciesOf(left, prs) <= DependenciesOf(left, candidates);
  }

  lemma StackedInAllPairs(isNoise: string -> bool, prs: seq<PR>, l: PR, r: PR)
    requires l in prs && r in prs
    ensures StackedOn(l, r) ==> Edge(l.number, r.number, DependsOn) in AllPairsEdges(isNoise, prs)
  {
    if StackedOn(l, r) {
      PairEdge(isNoise, prs, l, Edge(l.number, r.number, DependsOn));
    }
  }

  lemma DependenciesStep(left: PR, prs: seq<PR>, i: nat)
    requires i < |prs|
    ensures DependenciesOf(left, prs[..i + 1]) == DependenciesOf(left, prs[..i])
              + (if StackedOn(left, prs[i]) then {Edge(left.number, prs[i].number, DependsOn)} else {})
  {
    assert prs[..i + 1] == prs[..i] + [prs[i]];
  }

  method AppendConflicts(isNoise: string -> bool, left: PR, prs: seq<PR>, index: map<string, seq<PR>>, list: EdgeList)
    requires list.Valid() && IsBaseIndex(index, prs) && left in prs
    requires list.seen <= AllPairsEdges(isNoise, prs)
    modifies list
    ensures list.Valid() && list.seen >= old(list.seen) && list.seen >= ConflictsOf(isNoise, left, prs)
    ensures list.seen <= AllPairsEdges(isNoise, prs)
  {
    if left.baseBranch != "" {
      var candidates := Lookup(index, left.baseBranch);
      for i := 0 to |candidates|
        invariant list.Valid() && list.seen >= old(list.seen)
        invariant list.seen <= AllPairsEdges(isNoise, prs)
        invariant forall j :: 0 <= j < i && left.number < candidates[j].number && Conflicting(isNoise, left, candidates[j]) ==>
                    Edge(left.number, candidates[j].number, ConflictsWith) in list.seen
      {
        var right := candidates[i];
        if right.number <= left.number {
          continue;
        }
        var files := ConflictFiles(isNoise, left, right);
        if |files| > 0 {
          PairEdge(isNoise, prs, left, Edge(left.number, right.number, ConflictsWith));
          list.Append(Edge(left.number, right.number, ConflictsWith));
        }
      }
    }
  }

  /** The final sort.Slice over edges of distinct keys. */
  lemma SortEdges(edges: seq<Edge>, s: set<Edge>)
    requires Distinct(edges) && forall e :: e in edges <==> e in s
    ensures SortedEdges(Sort(EdgeLess, edges), s)
  {
    EdgeOrder();
    SortSorted(EdgeLess, edges);
  }

  method Build(isNoise: string -> bool, prs: seq<PR>) returns (g: Graph)
    requires DistinctNumbers(prs)
    ensures IsGraphOf(isNoise, prs, g)
  {
    var sorted := SortedByNumber(prs);
    SortedByNumberFacts(prs);
    var index := IndexByBase(sorted);
    var list := new EdgeList();
    for i := 0 to |sorted|
      invariant list.Valid()
      invariant list.seen <= AllPairsEdges(isNoise, sorted)
      invariant forall k :: 0 <= k < i ==>
                  list.seen >= DependenciesOf(sorted[k], sorted) + ConflictsOf(isNoise, sorted[k], sorted)
    {
      AppendDependencies(isNoise, sorted[i], sorted, index, list);
      AppendConflicts(isNoise, sorted[i], sorted, index, list);
    }
    assert list.seen == AllPairsEdges(isNoise, sorted);
    AllPairsReordered(isNoise, sorted, prs);
    SortEdges(list.edges, list.seen);
    g := Graph(NodesOf(sorted), Sort(EdgeLess, list.edges));
  }

  lemma AllPairsReordered(isNoise: string -> bool, a: seq<PR>, b: seq<PR>)
    requires forall x :: x in a <==> x in b
    ensures AllPairsEdges(isNoise, a) == AllPairsEdges(isNoise, b)
  {
    forall l | l in a
      ensures DependenciesOf(l, a) == DependenciesOf(l, b)
      ensures ConflictsOf(isNoise, l, a) == ConflictsOf(isNoise, l, b)
    {
    }
  }
}
