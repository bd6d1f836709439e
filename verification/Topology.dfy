/**
 Dependency orders of a graph: what a topological order and a cycle are, that one exists exactly
 when the other does not, and that an order which always takes the smallest available number is
 the lexicographically least of all topological orders.
 */
module Topology {
  import opened Sequences

  /** (before, after): the dependency edges between two nodes of the graph. */
  type Pairs = seq<(int, int)>

  ghost predicate IsTopological(nodes: set<int>, pairs: Pairs, order: seq<int>)
  {
    && Distinct(order)
    && Elements(order) == nodes
    && (forall i, j :: 0 <= i < |order| && 0 <= j < |order| && (order[i], order[j]) in pairs ==> i < j)
  }

  ghost predicate Linked(pairs: Pairs, p: seq<int>, i: nat)
    requires i + 1 < |p|
  {
    (p[i], p[i + 1]) in pairs
  }

  ghost predicate IsPath(pairs: Pairs, p: seq<int>)
  {
    |p| > 0 && forall i :: 0 <= i < |p| - 1 ==> Linked(pairs, p, i)
  }

  ghost predicate HasCycle(pairs: Pairs)
  {
    exists p :: IsPath(pairs, p) && |p| >= 2 && p[0] == p[|p| - 1]
  }

  ghost predicate Within(nodes: set<int>, pairs: Pairs)
  {
    forall p :: p in pairs ==> p.0 in nodes && p.1 in nodes
  }

  /** Nothing still missing has to come before x. */
  ghost predicate Available(pairs: Pairs, done: set<int>, x: int)
  {
    forall p :: p in pairs && p.1 == x ==> p.0 in done
  }

  /** Each element is the smallest node available at its turn. */
  ghost predicate Greedy(nodes: set<int>, pairs: Pairs, order: seq<int>)
  {
    forall i, y :: 0 <= i < |order| && y in nodes && y !in order[..i] && Available(pairs, Elements(order[..i]), y)
      ==> order[i] <= y
  }

  ghost predicate LeastTopological(nodes: set<int>, pairs: Pairs, order: seq<int>)
  {
    && IsTopological(nodes, pairs, order)
    && (forall q :: IsTopological(nodes, pairs, q) ==> q == order || LexLess(order, q))
  }

  // ---------- cardinalities ----------

  lemma SubsetSame<T>(a: set<T>, b: set<T>)
    requires a <= b && (|a| == |b| || b - a == {})
    ensures a == b
  {
    assert b == a + (b - a);
  }

  // ---------- cycles ----------

  lemma {:induction false} PathGoesForward(nodes: set<int>, pairs: Pairs, order: seq<int>, p: seq<int>, i: nat, j: nat)
    requires IsTopological(nodes, pairs, order) && Within(nodes, pairs)
    requires IsPath(pairs, p) && |p| >= 2
    requires i < |order| && j < |order| && order[i] == p[0] && order[j] == p[|p| - 1]
    ensures i < j
    decreases |p|
  {
    assert Linked(pairs, p, 0);
    if |p| > 2 {
      assert p[1] in Elements(order);
      var k :| 0 <= k < |order| && order[k] == p[1];
      PathTail(pairs, p);
      PathGoesForward(nodes, pairs, order, p[1..], k, j);
    }
  }

  lemma PathTail(pairs: Pairs, p: seq<int>)
    requires IsPath(pairs, p) && |p| >= 2
    ensures IsPath(pairs, p[1..])
  {
    forall i | 0 <= i < |p[1..]| - 1 ensures Linked(pairs, p[1..], i) {
      assert Linked(pairs, p, i + 1);
    }
  }

  lemma OrderedMeansAcyclic(nodes: set<int>, pairs: Pairs, order: seq<int>)
    requires IsTopological(nodes, pairs, order) && Within(nodes, pairs)
    ensures !HasCycle(pairs)
  {
    forall p | IsPath(pairs, p) && |p| >= 2
      ensures p[0] != p[|p| - 1]
    {
      assert Linked(pairs, p, 0) && Linked(pairs, p, |p| - 2);
      assert p[0] in Elements(order) && p[|p| - 1] in Elements(order);
      var i :| 0 <= i < |order| && order[i] == p[0];
      var j :| 0 <= j < |order| && order[j] == p[|p| - 1];
      PathGoesForward(nodes, pairs, order, p, i, j);
    }
  }

  ghost predicate Waits(pairs: Pairs, rest: set<int>, x: int)
  {
    exists p :: p in pairs && p.1 == x && p.0 in rest
  }

  /** Walking backwards inside a set where everything has a predecessor. */
  lemma {:induction false} BackwardWalk(pairs: Pairs, rest: set<int>, start: int, length: nat) returns (p: seq<int>)
    requires start in rest && length > 0
    requires forall x {:trigger Waits(pairs, rest, x)} :: x in rest ==> Waits(pairs, rest, x)
    ensures |p| == length && IsPath(pairs, p) && forall i :: 0 <= i < length ==> p[i] in rest
  {
    if length == 1 {
      p := [start];
    } else {
      var tail := BackwardWalk(pairs, rest, start, length - 1);
      assert Waits(pairs, rest, tail[0]);
      var pair :| pair in pairs && pair.1 == tail[0] && pair.0 in rest;
      p := [pair.0] + tail;
      PathPrepend(pairs, pair.0, tail);
    }
  }

  lemma PathPrepend(pairs: Pairs, a: int, tail: seq<int>)
    requires IsPath(pairs, tail) && exists pair :: pair in pairs && pair.0 == a && pair.1 == tail[0]
    ensures IsPath(pairs, [a] + tail)
  {
    var p := [a] + tail;
    var pair :| pair in pairs && pair.0 == a && pair.1 == tail[0];
    assert pair == (p[0], p[1]);
    forall i | 0 <= i < |p| - 1 ensures Linked(pairs, p, i) {
      if i > 0 { assert Linked(pairs, tail, i - 1); }
    }
  }

  lemma PathSlice(pairs: Pairs, p: seq<int>, i: nat, j: nat)
    requires IsPath(pairs, p) && i <= j < |p|
    ensures IsPath(pairs, p[i..j + 1])
  {
    var c := p[i..j + 1];
    forall m | 0 <= m < |c| - 1 ensures Linked(pairs, c, m) {
      assert Linked(pairs, p, i + m);
    }
  }

  /** A nonempty set in which everything waits for something contains a cycle. */
  lemma StuckMeansCycle(pairs: Pairs, rest: set<int>, start: int)
    requires start in rest
    requires forall x {:trigger Waits(pairs, rest, x)} :: x in rest ==> Waits(pairs, rest, x)
    ensures HasCycle(pairs)
  {
    var p := BackwardWalk(pairs, rest, start, |rest| + 1);
    if Distinct(p) {
      DistinctSize(p);
      SubsetSize(Elements(p), rest);
    }
    var i, j :| 0 <= i < j < |p| && p[i] == p[j];
    PathSlice(pairs, p, i, j);
    var c := p[i..j + 1];
    assert c[0] == c[|c| - 1];
  }

  // ---------- the greedy order is the least one ----------

  lemma SameLength(nodes: set<int>, pairs: Pairs, a: seq<int>, b: seq<int>)
    requires IsTopological(nodes, pairs, a) && IsTopological(nodes, pairs, b)
    ensures |a| == |b| == |nodes|
  {
    DistinctSize(a);
    DistinctSize(b);
  }

  /** In a topological order every node is available at its turn. */
  lemma AvailableAtTurn(nodes: set<int>, pairs: Pairs, q: seq<int>, i: nat)
    requires IsTopological(nodes, pairs, q) && Within(nodes, pairs) && i < |q|
    ensures q[i] !in q[..i] && Available(pairs, Elements(q[..i]), q[i])
  {
    forall p | p in pairs && p.1 == q[i] ensures p.0 in Elements(q[..i]) {
      assert p.0 in Elements(q);
      var k :| 0 <= k < |q| && q[k] == p.0;
      assert (q[k], q[i]) in pairs;
      assert q[..i][k] == p.0;
    }
  }

  lemma {:induction false} GreedyFrom(nodes: set<int>, pairs: Pairs, order: seq<int>, q: seq<int>, i: nat)
    requires IsTopological(nodes, pairs, order) && IsTopological(nodes, pairs, q) && Within(nodes, pairs)
    requires Greedy(nodes, pairs, order)
    requires i <= |order| == |q| && order[..i] == q[..i]
    ensures q == order || LexLess(order, q)
    decreases |order| - i
  {
    if i < |order| {
      AvailableAtTurn(nodes, pairs, q, i);
      assert q[i] in Elements(q);
      assert order[i] <= q[i];
      if order[i] == q[i] {
        assert order[..i + 1] == order[..i] + [order[i]] && q[..i + 1] == q[..i] + [q[i]];
        GreedyFrom(nodes, pairs, order, q, i + 1);
      } else {
        LexLessAt(order, q, i);
      }
    } else {
      assert order == order[..i] && q == q[..i];
    }
  }

  lemma GreedyIsLeast(nodes: set<int>, pairs: Pairs, order: seq<int>)
    requires IsTopological(nodes, pairs, order) && Within(nodes, pairs) && Greedy(nodes, pairs, order)
    ensures LeastTopological(nodes, pairs, order)
  {
    forall q | IsTopological(nodes, pairs, q) ensures q == order || LexLess(order, q) {
      SameLength(nodes, pairs, order, q);
      GreedyFrom(nodes, pairs, order, q, 0);
    }
  }

  /** A greedy order built so far. */
  ghost predicate Progress(nodes: set<int>, pairs: Pairs, order: seq<int>)
  {
    && Distinct(order)
    && Elements(order) <= nodes
    && (forall i :: 0 <= i < |order| ==> Available(pairs, Elements(order[..i]), order[i]))
    && Greedy(nodes, pairs, order)
  }

  lemma ProgressStep(nodes: set<int>, pairs: Pairs, order: seq<int>, current: int)
    requires Progress(nodes, pairs, order) && current in nodes && current !in Elements(order)
    requires Available(pairs, Elements(order), current)
    requires forall y :: y in nodes && y !in Elements(order) && Available(pairs, Elements(order), y) ==> current <= y
    ensures Progress(nodes, pairs, order + [current])
    ensures Elements(order + [current]) == Elements(order) + {current}
  {
    var next := order + [current];
    forall i | 0 <= i < |next| ensures next[..i] == if i < |order| then order[..i] else order {}
    assert order[..|order|] == order;
  }

  lemma ProgressComplete(nodes: set<int>, pairs: Pairs, order: seq<int>)
    requires Within(nodes, pairs) && Progress(nodes, pairs, order) && Elements(order) == nodes
    ensures LeastTopological(nodes, pairs, order)
  {
    forall i, j | 0 <= i < |order| && 0 <= j < |order| && (order[i], order[j]) in pairs ensures i < j {
      assert order[i] in Elements(order[..j]);
      var k :| 0 <= k < j && order[k] == order[i];
    }
    GreedyIsLeast(nodes, pairs, order);
  }

  /** The smallest node that is left and waits for nothing. */
  lemma SmallestAvailable(nodes: set<int>, pairs: Pairs, done: set<int>) returns (x: int)
    requires Within(nodes, pairs) && !HasCycle(pairs) && done <= nodes && done != nodes
    ensures x in nodes && x !in done && Available(pairs, done, x)
    ensures forall y :: y in nodes && y !in done && Available(pairs, done, y) ==> x <= y
  {
    var rest := nodes - done;
    if rest == {} { SubsetSame(done, nodes); }
    var start := SomeMember(rest);
    var ready := set y | y in rest && Available(pairs, done, y);
    if ready == {} {
      forall y | y in rest ensures Waits(pairs, rest, y) {
        assert y !in ready;
      }
      StuckMeansCycle(pairs, rest, start);
    }
    x := Smallest(ready);
    forall y | y in nodes && y !in done && Available(pairs, done, y) ensures x <= y {
      assert y in ready;
    }
  }

  lemma {:induction false} Smallest(s: set<int>) returns (x: int)
    requires s != {}
    ensures x in s && forall y :: y in s ==> x <= y
  {
    x := SomeMember(s);
    var first, rest := x, s - {x};
    if rest != {} {
      var y := Smallest(rest);
      if y < x { x := y; }
    }
    forall y | y in s ensures x <= y {
      assert y == first || y in rest;
    }
  }

  lemma {:induction false} GreedyExtends(nodes: set<int>, pairs: Pairs, before: seq<int>) returns (order: seq<int>)
    requires Within(nodes, pairs) && !HasCycle(pairs) && Progress(nodes, pairs, before)
    ensures Progress(nodes, pairs, order) && Elements(order) == nodes
    decreases nodes - Elements(before)
  {
    if Elements(before) == nodes {
      order := before;
    } else {
      var x := SmallestAvailable(nodes, pairs, Elements(before));
      ProgressStep(nodes, pairs, before, x);
      order := GreedyExtends(nodes, pairs, before + [x]);
    }
  }

  /** A least topological order exists exactly when there is no cycle. */
  lemma LeastExistsIffAcyclic(nodes: set<int>, pairs: Pairs)
    requires Within(nodes, pairs)
    ensures (exists order :: LeastTopological(nodes, pairs, order)) <==> !HasCycle(pairs)
  {
    if !HasCycle(pairs) {
      var order := GreedyExtends(nodes, pairs, []);
      ProgressComplete(nodes, pairs, order);
    }
    if order :| LeastTopological(nodes, pairs, order) {
      OrderedMeansAcyclic(nodes, pairs, order);
    }
  }

  /** The least order is unique, so it cannot depend on the order in which a map is iterated. */
  lemma LeastIsUnique(nodes: set<int>, pairs: Pairs, a: seq<int>, b: seq<int>)
    requires LeastTopological(nodes, pairs, a) && LeastTopological(nodes, pairs, b)
    ensures a == b
  {
    if a != b { LexLessAsymmetric(a, b); }
  }

  // ---------- counting what is still missing ----------

  /** How many dependency pairs ending in x start outside done: the in-degree Kahn's algorithm keeps. */
  ghost function Missing(pairs: Pairs, done: set<int>, x: int): nat
  {
    if pairs == [] then 0
    else (if pairs[0].1 == x && pairs[0].0 !in done then 1 else 0) + Missing(pairs[1..], done, x)
  }

  /** The targets of the pairs that start in u, in order. */
  ghost function Targets(pairs: Pairs, u: int): seq<int>
  {
    if pairs == [] then []
    else (if pairs[0].0 == u then [pairs[0].1] else []) + Targets(pairs[1..], u)
  }

  lemma {:induction false} MissingAppend(pairs: Pairs, p: (int, int), done: set<int>, x: int)
    ensures Missing(pairs + [p], done, x) == Missing(pairs, done, x) + Missing([p], done, x)
  {
    if pairs == [] {
      assert pairs + [p] == [p];
    } else {
      assert (pairs + [p])[1..] == pairs[1..] + [p];
      MissingAppend(pairs[1..], p, done, x);
    }
  }

  lemma {:induction false} TargetsAppend(pairs: Pairs, p: (int, int), u: int)
    ensures Targets(pairs + [p], u) == Targets(pairs, u) + (if p.0 == u then [p.1] else [])
  {
    var tail: seq<int> := if p.0 == u then [p.1] else [];
    if pairs == [] {
      assert pairs + [p] == [p];
      assert [p][1..] == [];
      assert Targets([p], u) == tail + [] == [] + tail;
    } else {
      assert (pairs + [p])[1..] == pairs[1..] + [p];
      TargetsAppend(pairs[1..], p, u);
      var head: seq<int> := if pairs[0].0 == u then [pairs[0].1] else [];
      Associative(head, Targets(pairs[1..], u), tail);
    }
  }

  lemma Associative(a: seq<int>, b: seq<int>, c: seq<int>)
    ensures a + (b + c) == (a + b) + c
  {
  }

  lemma {:induction false} MissingAfter(pairs: Pairs, done: set<int>, u: int, x: int)
    requires u !in done
    ensures Missing(pairs, done, x) == Missing(pairs, done + {u}, x) + multiset(Targets(pairs, u))[x]
  {
    if pairs != [] {
      MissingAfter(pairs[1..], done, u, x);
      var head := if pairs[0].0 == u then [pairs[0].1] else [];
      assert multiset(head + Targets(pairs[1..], u)) == multiset(head) + multiset(Targets(pairs[1..], u));
    }
  }

  lemma {:induction false} MissingNothing(pairs: Pairs, done: set<int>, x: int)
    ensures Missing(pairs, done, x) == 0 <==> Available(pairs, done, x)
  {
    if pairs != [] {
      MissingNothing(pairs[1..], done, x);
      assert pairs == [pairs[0]] + pairs[1..];
      assert forall p :: p in pairs <==> p == pairs[0] || p in pairs[1..];
    }
  }
}
