/**
 Graph.TopologicalOrder (internal/graph/graph.go): Kahn's algorithm with a min-heap of pull
 request numbers. It succeeds exactly when the dependency edges have no cycle, and then returns
 the lexicographically least topological order.
 */
module TopologicalSort {
  import opened Results
  import opened Sequences
  import opened Sorting
  import opened Graphs
  import opened Topology

  ghost predicate DistinctNodes(g: Graph)
  {
    forall i, j :: 0 <= i < j < |g.nodes| ==> g.nodes[i].number != g.nodes[j].number
  }

  function Numbers(nodes: seq<Node>): (numbers: seq<int>)
    ensures |numbers| == |nodes| && forall i :: 0 <= i < |nodes| ==> numbers[i] == nodes[i].number
  {
    seq(|nodes|, i requires 0 <= i < |nodes| => nodes[i].number)
  }

  lemma NumbersAppend(nodes: seq<Node>, n: Node)
    ensures Numbers(nodes + [n]) == Numbers(nodes) + [n.number]
  {
  }

  function NodeSet(g: Graph): set<int>
  {
    set n | n in g.nodes :: n.number
  }

  predicate IsDependency(nodes: set<int>, e: Edge)
  {
    e.kind == DependsOn && e.from in nodes && e.to in nodes
  }

  function PairOf(nodes: set<int>, e: Edge): Pairs
  {
    if IsDependency(nodes, e) then [(e.from, e.to)] else []
  }

  /** The dependency edges between nodes of the graph, in order, repetitions included. */
  function DependencyPairs(nodes: set<int>, edges: seq<Edge>): Pairs
  {
    if edges == [] then []
    else PairOf(nodes, edges[0]) + DependencyPairs(nodes, edges[1..])
  }

  lemma {:induction false} DependencyPairsAppend(nodes: set<int>, edges: seq<Edge>, e: Edge)
    ensures DependencyPairs(nodes, edges + [e]) == DependencyPairs(nodes, edges) + PairOf(nodes, e)
  {
    if edges == [] {
      assert edges + [e] == [e];
    } else {
      assert (edges + [e])[1..] == edges[1..] + [e];
      DependencyPairsAppend(nodes, edges[1..], e);
      var a, b, c := PairOf(nodes, edges[0]), DependencyPairs(nodes, edges[1..]), PairOf(nodes, e);
      assert a + (b + c) == (a + b) + c;
    }
  }

  /** Which pairs there are, and that they stay among the nodes. */
  lemma {:induction false} DependencyPairsMeaning(nodes: set<int>, edges: seq<Edge>)
    ensures Within(nodes, DependencyPairs(nodes, edges))
    ensures forall a, b :: (a, b) in DependencyPairs(nodes, edges)
                      <==> a in nodes && b in nodes && Edge(a, b, DependsOn) in edges
  {
    if edges != [] {
      DependencyPairsMeaning(nodes, edges[1..]);
      assert edges == [edges[0]] + edges[1..];
    }
  }

  /** The dependency relation of a graph. */
  function Dependencies(g: Graph): Pairs
  {
    DependencyPairs(NodeSet(g), g.edges)
  }

  /** container/heap over minHeap: its sifting is library code, its effect is stated here. */
  class MinHeap {
    var items: seq<int>

    constructor ()
      ensures items == []
    {
      items := [];
    }

    method Push(x: int)
      modifies this
      ensures multiset(items) == multiset(old(items)) + multiset{x}
    {
      items := items + [x];
    }

    method Pop() returns (x: int)
      requires items != []
      modifies this
      ensures x in old(items) && forall y :: y in old(items) ==> x <= y
      ensures multiset(items) == multiset(old(items)) - multiset{x}
    {
      var least := 0;
      for i := 1 to |items|
        invariant 0 <= least < |items|
        invariant forall j :: 0 <= j < i ==> items[least] <= items[j]
      {
        if items[i] < items[least] {
          least := i;
        }
      }
      x := items[least];
      assert items == items[..least] + [x] + items[least + 1..];
      items := items[..least] + items[least + 1..];
    }
  }

  function Children(dependents: map<int, seq<int>>, x: int): seq<int>
  {
    if x in dependents then dependents[x] else []
  }

  /** The in-degrees and dependents that a list of dependency pairs gives. */
  ghost predicate Counted(nodes: set<int>, pairs: Pairs, inDegree: map<int, int>, dependents: map<int, seq<int>>)
  {
    && inDegree.Keys == nodes
    && (forall x :: x in nodes ==> inDegree[x] == Missing(pairs, {}, x))
    && (forall u :: Children(dependents, u) == Targets(pairs, u))
  }

  lemma CountedStep(nodes: set<int>, pairs: Pairs, a: int, b: int, inDegree: map<int, int>, dependents: map<int, seq<int>>)
    requires Counted(nodes, pairs, inDegree, dependents) && b in nodes
    ensures Counted(nodes, pairs + [(a, b)], inDegree[b := inDegree[b] + 1],
                    dependents[a := Children(dependents, a) + [b]])
  {
    forall x ensures Missing(pairs + [(a, b)], {}, x) == Missing(pairs, {}, x) + (if b == x then 1 else 0) {
      MissingAppend(pairs, (a, b), {}, x);
    }
    forall u ensures Targets(pairs + [(a, b)], u) == Targets(pairs, u) + (if a == u then [b] else []) {
      TargetsAppend(pairs, (a, b), u);
    }
  }

  /** One more edge: it is counted if it is a dependency between nodes, and passed over if not. */
  lemma CountedEdge(nodes: set<int>, edges: seq<Edge>, i: nat, inDegree: map<int, int>, dependents: map<int, seq<int>>)
    requires i < |edges| && Counted(nodes, DependencyPairs(nodes, edges[..i]), inDegree, dependents)
    ensures var e, pairs := edges[i], DependencyPairs(nodes, edges[..i + 1]);
            if e.kind != DependsOn || e.from !in nodes || e.to !in nodes then Counted(nodes, pairs, inDegree, dependents)
            else Counted(nodes, pairs, inDegree[e.to := inDegree[e.to] + 1],
                         dependents[e.from := Children(dependents, e.from) + [e.to]])
  {
    var e, before := edges[i], DependencyPairs(nodes, edges[..i]);
    assert edges[..i + 1] == edges[..i] + [e];
    DependencyPairsAppend(nodes, edges[..i], e);
    if e.kind != DependsOn || e.from !in nodes || e.to !in nodes {
      assert before + [] == before;
    } else {
      CountedStep(nodes, before, e.from, e.to, inDegree, dependents);
    }
  }

  method IndexNodes(g: Graph) returns (nodeByPR: map<int, Node>, inDegree: map<int, int>)
    ensures nodeByPR.Keys == NodeSet(g)
    ensures forall x :: x in nodeByPR ==> nodeByPR[x] in g.nodes && nodeByPR[x].number == x
    ensures Counted(NodeSet(g), [], inDegree, map[])
  {
    nodeByPR, inDegree := map[], map[];
    for i := 0 to |g.nodes|
      invariant nodeByPR.Keys == inDegree.Keys == (set n | n in g.nodes[..i] :: n.number)
      invariant forall x :: x in nodeByPR ==> nodeByPR[x] in g.nodes && nodeByPR[x].number == x
      invariant forall x :: x in inDegree ==> inDegree[x] == 0
    {
      var node := g.nodes[i];
      assert g.nodes[..i + 1] == g.nodes[..i] + [node];
      nodeByPR := nodeByPR[node.number := node];
      inDegree := inDegree[node.number := 0];
    }
    assert g.nodes[..|g.nodes|] == g.nodes;
  }

  method CountDegrees(g: Graph) returns (nodeByPR: map<int, Node>, inDegree: map<int, int>, dependents: map<int, seq<int>>)
    ensures nodeByPR.Keys == NodeSet(g)
    ensures forall x :: x in nodeByPR ==> nodeByPR[x] in g.nodes && nodeByPR[x].number == x
    ensures Counted(NodeSet(g), Dependencies(g), inDegree, dependents)
  {
    nodeByPR, inDegree := IndexNodes(g);
    dependents := map[];
    ghost var nodes := NodeSet(g);
    for i := 0 to |g.edges|
      invariant Counted(nodes, DependencyPairs(nodes, g.edges[..i]), inDegree, dependents)
    {
      var edge := g.edges[i];
      CountedEdge(nodes, g.edges, i, inDegree, dependents);
      if edge.kind != DependsOn || edge.from !in nodeByPR || edge.to !in nodeByPR {
        continue;
      }
      dependents := dependents[edge.from := Children(dependents, edge.from) + [edge.to]];
      inDegree := inDegree[edge.to := inDegree[edge.to] + 1];
    }
    assert g.edges[..|g.edges|] == g.edges;
  }

  // ---------- Kahn's loop ----------

  /**
   What holds while the dependents of the last number taken are released, left being those still to
   come: in-degrees count what is missing, the heap holds what is ready. Between rounds left is empty.
   */
  ghost predicate Releasing(nodes: set<int>, pairs: Pairs, done: set<int>, inDegree: map<int, int>,
                            left: multiset<int>, heap: seq<int>)
  {
    && inDegree.Keys == nodes && done <= nodes
    && (forall x :: x in nodes ==> inDegree[x] == Missing(pairs, done, x) + left[x])
    && (forall x :: x in done ==> inDegree[x] == 0)
    && HeapHolds(nodes, done, inDegree, heap)
  }

  ghost predicate HeapHolds(nodes: set<int>, done: set<int>, inDegree: map<int, int>, heap: seq<int>)
    requires inDegree.Keys == nodes
  {
    forall x :: multiset(heap)[x] == if x in nodes && x !in done && inDegree[x] == 0 then 1 else 0
  }

  method FillHeap(nodes: set<int>, inDegree: map<int, int>) returns (ready: MinHeap)
    requires inDegree.Keys == nodes
    ensures fresh(ready) && HeapHolds(nodes, {}, inDegree, ready.items)
  {
    ready := new MinHeap();
    var rest := inDegree.Keys;
    while rest != {}
      invariant rest <= nodes
      invariant forall x :: multiset(ready.items)[x] == if x in nodes && x !in rest && inDegree[x] == 0 then 1 else 0
      decreases |rest|
    {
      var x := PickOne(rest);
      rest := rest - {x};
      if inDegree[x] == 0 {
        ready.Push(x);
      }
    }
  }

  lemma ReleaseStep(nodes: set<int>, pairs: Pairs, done: set<int>, inDegree: map<int, int>, left: multiset<int>,
                    heap: seq<int>, next: int, heap': seq<int>)
    requires Releasing(nodes, pairs, done, inDegree, left, heap) && next in left && next in nodes
    requires multiset(heap') == multiset(heap) + (if inDegree[next] == 1 then multiset{next} else multiset{})
    ensures Releasing(nodes, pairs, done, inDegree[next := inDegree[next] - 1], left - multiset{next}, heap')
  {
    assert inDegree[next] >= 1;
    assert next !in done;
  }

  lemma TakeFirst(children: seq<int>, j: nat)
    requires j < |children|
    ensures children[j] in multiset(children[j..])
    ensures multiset(children[j..]) - multiset{children[j]} == multiset(children[j + 1..])
  {
    assert children[j..] == [children[j]] + children[j + 1..];
  }

  /** Releasing the dependents of a number that has just been taken from the heap. */
  method Release(nodes: set<int>, children: seq<int>, degrees: map<int, int>, ready: MinHeap,
                 ghost pairs: Pairs, ghost done: set<int>)
    returns (inDegree: map<int, int>)
    requires Releasing(nodes, pairs, done, degrees, multiset(children), ready.items)
    requires forall x :: x in children ==> x in nodes
    modifies ready
    ensures Releasing(nodes, pairs, done, inDegree, multiset{}, ready.items)
  {
    inDegree := degrees;
    assert children[0..] == children;
    for j := 0 to |children|
      invariant Releasing(nodes, pairs, done, inDegree, multiset(children[j..]), ready.items)
    {
      var next := children[j];
      TakeFirst(children, j);
      ghost var before, heap := inDegree, ready.items;
      inDegree := inDegree[next := inDegree[next] - 1];
      if inDegree[next] == 0 {
        ready.Push(next);
      }
      ReleaseStep(nodes, pairs, done, before, multiset(children[j..]), heap, next, ready.items);
    }
  }

  lemma {:induction false} TargetsWithin(nodes: set<int>, pairs: Pairs, u: int)
    requires Within(nodes, pairs)
    ensures forall x :: x in Targets(pairs, u) ==> x in nodes
  {
    if pairs != [] {
      assert pairs[0] in pairs;
      TargetsWithin(nodes, pairs[1..], u);
    }
  }

  /** Taking a ready number makes its dependents the ones to release. */
  lemma TakeStep(nodes: set<int>, pairs: Pairs, done: set<int>, inDegree: map<int, int>, heap: seq<int>,
                 current: int, heap': seq<int>)
    requires Releasing(nodes, pairs, done, inDegree, multiset{}, heap) && current in heap
    requires forall y :: y in heap ==> current <= y
    requires multiset(heap') == multiset(heap) - multiset{current}
    ensures forall y :: y in nodes && y !in done && Available(pairs, done, y) ==> current <= y
    ensures current in nodes && current !in done && Available(pairs, done, current)
    ensures Releasing(nodes, pairs, done + {current}, inDegree, multiset(Targets(pairs, current)), heap')
  {
    assert current in multiset(heap);
    MissingNothing(pairs, done, current);
    forall y | y in nodes && y !in done && Available(pairs, done, y) ensures current <= y {
      MissingNothing(pairs, done, y);
      assert y in multiset(heap) && y in heap;
    }
    forall x ensures Missing(pairs, done, x) == Missing(pairs, done + {current}, x) + multiset(Targets(pairs, current))[x] {
      MissingAfter(pairs, done, current, x);
    }
  }

  /** With an empty heap and nodes left over, every node left waits for another one. */
  lemma StuckNodes(nodes: set<int>, pairs: Pairs, done: set<int>, inDegree: map<int, int>)
    requires Releasing(nodes, pairs, done, inDegree, multiset{}, []) && Within(nodes, pairs) && done != nodes
    ensures HasCycle(pairs)
  {
    var rest := nodes - done;
    if rest == {} {
      SubsetSame(done, nodes);
    }
    var start := SomeMember(rest);
    forall x | x in rest ensures Waits(pairs, rest, x) {
      assert multiset([])[x] == 0;
      MissingNothing(pairs, done, x);
    }
    StuckMeansCycle(pairs, rest, start);
  }

  method TopologicalOrder(g: Graph) returns (r: Result<seq<Node>, ()>)
    requires DistinctNodes(g)
    ensures r.Ok? <==> !HasCycle(Dependencies(g))
    ensures r.Ok? ==> LeastTopological(NodeSet(g), Dependencies(g), Numbers(r.value))
    ensures r.Ok? ==> forall n :: n in r.value ==> n in g.nodes
  {
    var nodeByPR, degrees, dependents := CountDegrees(g);
    var nodes := nodeByPR.Keys;
    ghost var pairs := Dependencies(g);
    DependencyPairsMeaning(nodes, g.edges);
    var ready := FillHeap(nodes, degrees);
    var inDegree := degrees;
    var order: seq<Node> := [];
    ghost var taken: seq<int>, done: set<int> := [], {};
    while |ready.items| > 0
      invariant fresh(ready)
      invariant taken == Numbers(order) && done == Elements(taken)
      invariant Progress(nodes, pairs, taken)
      invariant Releasing(nodes, pairs, done, inDegree, multiset{}, ready.items)
      invariant forall n :: n in order ==> n in g.nodes
      decreases nodes - done
    {
      ghost var heap := ready.items;
      var current := ready.Pop();
      TakeStep(nodes, pairs, done, inDegree, heap, current, ready.items);
      ProgressStep(nodes, pairs, taken, current);
      taken, done := taken + [current], done + {current};
      NumbersAppend(order, nodeByPR[current]);
      order := order + [nodeByPR[current]];
      TargetsWithin(nodes, pairs, current);
      var children := Sort(IntLess, Children(dependents, current));
      SortMembers(IntLess, Children(dependents, current));
      inDegree := Release(nodes, children, inDegree, ready, pairs, done);
    }
    NodeCount(g);
    DistinctSize(taken);
    if |order| != |g.nodes| {
      assert ready.items == [];
      StuckNodes(nodes, pairs, done, inDegree);
      return Err(());
    }
    SubsetSame(done, nodes);
    ProgressComplete(nodes, pairs, taken);
    OrderedMeansAcyclic(nodes, pairs, taken);
    return Ok(order);
  }

  lemma NodeCount(g: Graph)
    requires DistinctNodes(g)
    ensures |NodeSet(g)| == |g.nodes|
  {
    DistinctSize(Numbers(g.nodes));
    assert Elements(Numbers(g.nodes)) == NodeSet(g) by {
      forall n | n in g.nodes ensures n.number in Numbers(g.nodes) {
        var i :| 0 <= i < |g.nodes| && g.nodes[i] == n;
        assert Numbers(g.nodes)[i] == n.number;
      }
    }
  }

  /** Runs that visit their maps in different orders return the same nodes. */
  lemma OrderIsDeterministic(g: Graph, a: seq<Node>, b: seq<Node>)
    requires DistinctNodes(g)
    requires forall n :: n in a ==> n in g.nodes
    requires forall n :: n in b ==> n in g.nodes
    requires LeastTopological(NodeSet(g), Dependencies(g), Numbers(a))
    requires LeastTopological(NodeSet(g), Dependencies(g), Numbers(b))
    ensures a == b
  {
    LeastIsUnique(NodeSet(g), Dependencies(g), Numbers(a), Numbers(b));
    forall i | 0 <= i < |a| ensures a[i] == b[i] {
      assert Numbers(a)[i] == Numbers(b)[i];
      assert a[i] in g.nodes && b[i] in g.nodes;
    }
  }
}
