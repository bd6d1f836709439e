/**
 Dependencies among a selection of pull requests, stated on branches: what internal/planner/planner.go
 (orderSelection) and internal/planning/hierarchy.go (applyDependencyOrdering) order by.
 */
module DependencyOrder {
  import opened Sequences
  import opened PullRequests
  import opened Graphs
  import opened Topology
  import opened TopologicalSort

  /** b is stacked on a, and both are candidates. */
  ghost predicate DependsAmong(numbers: seq<int>, allPRs: seq<PR>, a: int, b: int)
  {
    a in numbers && b in numbers
    && exists l, r :: l in allPRs && r in allPRs && l.number == a && r.number == b && StackedOn(l, r)
  }

  /** A circle of candidates each stacked on the one before. */
  ghost predicate DependencyCircle(numbers: seq<int>, allPRs: seq<PR>, p: seq<int>)
  {
    && |p| >= 2 && p[0] == p[|p| - 1]
    && forall i :: 1 <= i < |p| ==> DependsAmong(numbers, allPRs, p[i - 1], p[i])
  }

  ghost predicate Circular(numbers: seq<int>, allPRs: seq<PR>)
  {
    exists p :: DependencyCircle(numbers, allPRs, p)
  }

  ghost predicate PairsOf(pairs: Pairs, numbers: seq<int>, allPRs: seq<PR>)
  {
    forall a: int, b: int :: (a, b) in pairs <==> DependsAmong(numbers, allPRs, a, b)
  }

  lemma CircularMeansCycle(pairs: Pairs, numbers: seq<int>, allPRs: seq<PR>)
    requires PairsOf(pairs, numbers, allPRs)
    ensures HasCycle(pairs) <==> Circular(numbers, allPRs)
  {
    if p :| IsPath(pairs, p) && |p| >= 2 && p[0] == p[|p| - 1] {
      forall i | 1 <= i < |p| ensures DependsAmong(numbers, allPRs, p[i - 1], p[i]) {
        assert Linked(pairs, p, i - 1);
      }
      assert DependencyCircle(numbers, allPRs, p);
    }
    if p :| DependencyCircle(numbers, allPRs, p) {
      forall i | 0 <= i < |p| - 1 ensures Linked(pairs, p, i) {
        assert DependsAmong(numbers, allPRs, p[i + 1 - 1], p[i + 1]);
      }
      assert IsPath(pairs, p);
    }
  }

  /** An edge set of Build holds a dependency exactly for a stacked pair. */
  lemma DependencyEdges(isNoise: string -> bool, allPRs: seq<PR>, a: int, b: int)
    ensures Edge(a, b, DependsOn) in AllPairsEdges(isNoise, allPRs)
       <==> exists l, r :: l in allPRs && r in allPRs && l.number == a && r.number == b && StackedOn(l, r)
  {
    if l, r :| l in allPRs && r in allPRs && l.number == a && r.number == b && StackedOn(l, r) {
      PairEdge(isNoise, allPRs, l, Edge(a, b, DependsOn));
    }
  }

  lemma NodeSetIs(g: Graph)
    ensures forall x: int :: x in NodeSet(g) <==> x in Numbers(g.nodes)
  {
    forall x: int ensures x in NodeSet(g) <==> x in Numbers(g.nodes) {
      if x in Numbers(g.nodes) {
        var i :| 0 <= i < |g.nodes| && Numbers(g.nodes)[i] == x;
        assert g.nodes[i] in g.nodes;
      }
      if n :| n in g.nodes && n.number == x {
        var i :| 0 <= i < |g.nodes| && g.nodes[i] == n;
        assert Numbers(g.nodes)[i] == x;
      }
    }
  }

  // ---------- the least order and its prefixes ----------

  /** order puts the candidates in their least dependency order. */
  ghost predicate LeastOrder(numbers: seq<int>, allPRs: seq<PR>, pairs: Pairs, order: seq<int>)
  {
    PairsOf(pairs, numbers, allPRs) && LeastTopological(Elements(numbers), pairs, order)
  }

  /** The first target candidates of the least dependency order. */
  ghost predicate IsLeastPrefix(numbers: seq<int>, allPRs: seq<PR>, target: nat, kept: seq<int>)
  {
    exists pairs, order :: LeastOrder(numbers, allPRs, pairs, order)
      && kept == order[..if |order| < target then |order| else target]
  }

  /** What is kept when there is no cycle does not depend on the order of the candidates. */
  lemma LeastPrefixUnique(a: seq<int>, b: seq<int>, allPRs: seq<PR>, target: nat, kept: seq<int>, kept': seq<int>)
    requires forall x: int :: x in a <==> x in b
    requires IsLeastPrefix(a, allPRs, target, kept) && IsLeastPrefix(b, allPRs, target, kept')
    ensures kept == kept'
  {
    var pairs, order :| LeastOrder(a, allPRs, pairs, order)
      && kept == order[..if |order| < target then |order| else target];
    var pairs', order' :| LeastOrder(b, allPRs, pairs', order')
      && kept' == order'[..if |order'| < target then |order'| else target];
    assert Elements(a) == Elements(b) by { SameInts(Elements(a), Elements(b)); }
    forall x: int, y: int ensures (x, y) in pairs <==> (x, y) in pairs' {
      assert (x, y) in pairs <==> DependsAmong(a, allPRs, x, y);
      assert (x, y) in pairs' <==> DependsAmong(b, allPRs, x, y);
    }
    LeastSamePairs(Elements(a), pairs, pairs', order, order');
  }

  lemma LeastSamePairs(nodes: set<int>, pairs: Pairs, pairs': Pairs, a: seq<int>, b: seq<int>)
    requires forall x: int, y: int :: (x, y) in pairs <==> (x, y) in pairs'
    requires LeastTopological(nodes, pairs, a) && LeastTopological(nodes, pairs', b)
    ensures a == b
  {
    TopologicalSamePairs(nodes, pairs', pairs, b);
    TopologicalSamePairs(nodes, pairs, pairs', a);
    if a != b { LexLessAsymmetric(a, b); }
  }

  lemma TopologicalSamePairs(nodes: set<int>, pairs: Pairs, pairs': Pairs, order: seq<int>)
    requires forall x: int, y: int :: (x, y) in pairs <==> (x, y) in pairs'
    requires IsTopological(nodes, pairs, order)
    ensures IsTopological(nodes, pairs', order)
  {
    forall i, j | 0 <= i < |order| && 0 <= j < |order| && (order[i], order[j]) in pairs' ensures i < j {
      var x, y := order[i], order[j];
      assert (x, y) in pairs;
    }
  }

  lemma PairsWithin(pairs: Pairs, numbers: seq<int>, allPRs: seq<PR>)
    requires PairsOf(pairs, numbers, allPRs)
    ensures Within(Elements(numbers), pairs)
  {
    forall p: (int, int) | p in pairs ensures p.0 in Elements(numbers) && p.1 in Elements(numbers) {
      assert p == (p.0, p.1);
      assert DependsAmong(numbers, allPRs, p.0, p.1);
    }
  }

  /** A kept candidate's prerequisites among the candidates are kept, and come earlier. */
  lemma PrerequisitesKept(numbers: seq<int>, allPRs: seq<PR>, target: nat, kept: seq<int>, j: nat, a: int)
    returns (i: nat)
    requires IsLeastPrefix(numbers, allPRs, target, kept) && j < |kept|
    requires DependsAmong(numbers, allPRs, a, kept[j])
    ensures i < j && kept[i] == a
  {
    var pairs, order :| LeastOrder(numbers, allPRs, pairs, order)
      && kept == order[..if |order| < target then |order| else target];
    assert (a, order[j]) in pairs;
    PairsWithin(pairs, numbers, allPRs);
    AvailableAtTurn(Elements(numbers), pairs, order, j);
    i :| 0 <= i < j && order[..j][i] == a;
  }

  lemma NoneNoCircle(allPRs: seq<PR>)
    ensures !Circular([], allPRs)
  {
    forall p: seq<int> | |p| >= 2 ensures !DependencyCircle([], allPRs, p) {
      assert !DependsAmong([], allPRs, p[1 - 1], p[1]);
    }
  }

  lemma EmptyLeastPrefix(allPRs: seq<PR>, target: nat)
    ensures LeastOrder([], allPRs, [], []) && IsLeastPrefix([], allPRs, target, [])
  {
    var none: seq<int>, pairs: Pairs := [], [];
    assert LeastTopological(Elements(none), pairs, none) by {
      forall q | IsTopological(Elements(none), pairs, q) ensures q == none {
        SameLength(Elements(none), pairs, none, q);
      }
    }
    assert LeastOrder([], allPRs, pairs, none);
  }

  lemma {:induction false} SameElements(a: seq<int>, b: seq<int>)
    requires Distinct(a) && Distinct(b) && Elements(a) == Elements(b)
    ensures multiset(a) == multiset(b)
  {
    DistinctOnce(a);
    DistinctOnce(b);
    forall x: int ensures multiset(a)[x] == multiset(b)[x] {
      assert x in Elements(a) <==> x in Elements(b);
    }
  }

  lemma {:induction false} DistinctOnce(s: seq<int>)
    requires Distinct(s)
    ensures forall x: int :: multiset(s)[x] == if x in Elements(s) then 1 else 0
  {
    if s != [] {
      var t := s[..|s| - 1];
      assert s == t + [s[|s| - 1]];
      DistinctOnce(t);
      assert s[|s| - 1] !in t;
    }
  }

  lemma {:induction false} OnceMeansDistinct(s: seq<int>)
    requires forall x: int :: multiset(s)[x] <= 1
    ensures Distinct(s)
  {
    if s != [] {
      var t, last := s[..|s| - 1], s[|s| - 1];
      assert s == t + [last];
      forall x: int ensures multiset(t)[x] <= 1 && (x == last ==> multiset(t)[x] == 0) {
        assert multiset(s)[x] == multiset(t)[x] + multiset{last}[x];
      }
      OnceMeansDistinct(t);
      forall i, j | 0 <= i < j < |s| ensures s[i] != s[j] {
        assert t[i] in multiset(t);
        assert j < |s| - 1 ==> s[j] == t[j];
      }
    }
  }
}
