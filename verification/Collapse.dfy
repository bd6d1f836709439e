/**
 Duplicate collapse (internal/app/service.go, buildCollapsedCorpus): groups of duplicates are
 merged into connected components, and each component keeps its best pull request.
 Scores are reals; NaN, and the fact that bestScore starts at 0, are Go's: the zero default is
 modelled (ScoreOf), NaN is not.
 */
module Collapse {
  import opened Results
  import opened Sequences
  import opened Sorting
  import opened PullRequests
  import opened Rejections

  datatype Candidate = Candidate(number: int, score: real)

  datatype SynthesisPlan = SynthesisPlan(nominated: int, original: int, candidates: seq<Candidate>)

  datatype Corpus = Corpus(
    canonicalToSuperseded: map<int, seq<int>>,
    supersededToCanonical: map<int, int>,
    groupCount: int,
    totalSuperseded: int)

  /** One candidate of one group, with the group's canonical. */
  datatype Link = Link(canonical: int, number: int, score: real)

  function CanonicalOf(plan: SynthesisPlan): int
  {
    if plan.nominated == 0 then plan.original else plan.nominated
  }

  function LinksOf(plan: SynthesisPlan): (links: seq<Link>)
    ensures |links| == |plan.candidates|
  {
    seq(|plan.candidates|, i requires 0 <= i < |plan.candidates| =>
      Link(CanonicalOf(plan), plan.candidates[i].number, plan.candidates[i].score))
  }

  /** All groups as one list of links. */
  function Links(plans: seq<SynthesisPlan>): seq<Link>
  {
    if plans == [] then [] else Links(plans[..|plans| - 1]) + LinksOf(plans[|plans| - 1])
  }

  // ---------- connection ----------

  ghost predicate Joined(links: seq<Link>, a: int, b: int)
  {
    a != b && exists l :: l in links && ((l.canonical == a && l.number == b) || (l.canonical == b && l.number == a))
  }

  /** The pull requests that some group links to another one. */
  ghost function Grouped(links: seq<Link>): set<int>
  {
    (set l | l in links && l.canonical != l.number :: l.canonical)
    + (set l | l in links && l.canonical != l.number :: l.number)
  }

  ghost predicate StepAt(links: seq<Link>, p: seq<int>, i: nat)
    requires i + 1 < |p|
  {
    Joined(links, p[i], p[i + 1])
  }

  ghost predicate IsChain(links: seq<Link>, p: seq<int>, a: int, b: int)
  {
    && |p| > 0 && p[0] == a && p[|p| - 1] == b
    && forall i :: 0 <= i < |p| - 1 ==> StepAt(links, p, i)
  }

  /** A chain of group links leads from a to b. */
  ghost predicate Connected(links: seq<Link>, a: int, b: int)
  {
    exists p :: IsChain(links, p, a, b)
  }

  lemma ConnectedSelf(links: seq<Link>, a: int)
    ensures Connected(links, a, a)
  {
    assert IsChain(links, [a], a, a);
  }

  lemma ConnectedStep(links: seq<Link>, a: int, b: int, c: int)
    requires Connected(links, a, b) && Joined(links, b, c)
    ensures Connected(links, a, c)
  {
    var p :| IsChain(links, p, a, b);
    var q := p + [c];
    forall i | 0 <= i < |q| - 1 ensures StepAt(links, q, i) {
      if i < |p| - 1 { assert StepAt(links, p, i); }
    }
    assert IsChain(links, q, a, c);
  }

  lemma {:induction false} ConnectedTransitive(links: seq<Link>, a: int, b: int, c: int)
    requires Connected(links, a, b) && Connected(links, b, c)
    ensures Connected(links, a, c)
  {
    var p :| IsChain(links, p, a, b);
    var q :| IsChain(links, q, b, c);
    var r := p + q[1..];
    forall i | 0 <= i < |r| - 1 ensures StepAt(links, r, i) {
      if i < |p| - 1 {
        assert StepAt(links, p, i);
      } else {
        assert StepAt(links, q, i - (|p| - 1));
      }
    }
    assert IsChain(links, r, a, c);
  }

  lemma ConnectedSymmetric(links: seq<Link>, a: int, b: int)
    requires Connected(links, a, b)
    ensures Connected(links, b, a)
  {
    var p :| IsChain(links, p, a, b);
    var r := seq(|p|, i requires 0 <= i < |p| => p[|p| - 1 - i]);
    forall i | 0 <= i < |r| - 1 ensures StepAt(links, r, i) {
      assert StepAt(links, p, |p| - 2 - i);
    }
    assert IsChain(links, r, b, a);
  }

  /** Nothing leaves a set that is closed under links. */
  ghost predicate Closed(links: seq<Link>, s: set<int>)
  {
    forall a, b :: a in s && Joined(links, a, b) ==> b in s
  }

  lemma {:induction false} ClosedKeeps(links: seq<Link>, s: set<int>, a: int, b: int)
    requires Closed(links, s) && a in s && Connected(links, a, b)
    ensures b in s
  {
    var p :| IsChain(links, p, a, b);
    for i := 0 to |p| - 1
      invariant p[i] in s
    {
      assert StepAt(links, p, i);
    }
  }

  // ---------- scores ----------

  /** The score kept for a pull request: the best over its groups, never below the zero default. */
  ghost function ScoreOf(links: seq<Link>, x: int): real
  {
    if links == [] then 0.0
    else
      var last := links[|links| - 1];
      var before := ScoreOf(links[..|links| - 1], x);
      if last.number == x && last.score > before then last.score else before
  }

  lemma {:induction false} ScoreIsBest(links: seq<Link>, x: int)
    ensures ScoreOf(links, x) >= 0.0
    ensures forall l :: l in links && l.number == x ==> l.score <= ScoreOf(links, x)
    ensures ScoreOf(links, x) == 0.0 || exists l :: l in links && l.number == x && l.score == ScoreOf(links, x)
  {
    if links != [] {
      var init, last := links[..|links| - 1], links[|links| - 1];
      ScoreIsBest(init, x);
      assert links == init + [last];
      assert last in links;
    }
  }

  /** x is preferred to y: better score, or the same score and a smaller number. */
  ghost predicate Beats(links: seq<Link>, x: int, y: int)
  {
    ScoreOf(links, x) > ScoreOf(links, y) || (ScoreOf(links, x) == ScoreOf(links, y) && x < y)
  }

  // ---------- what a collapsed corpus is ----------

  function Representative(c: Corpus, x: int): int
  {
    if x in c.supersededToCanonical then c.supersededToCanonical[x] else x
  }

  ghost function SupersededBy(s2c: map<int, int>, canonical: int): set<int>
  {
    set x | x in s2c && s2c[x] == canonical
  }

  /** x is represented by the best member of its component. */
  ghost predicate WellRepresented(links: seq<Link>, c: Corpus, x: int)
  {
    var r := Representative(c, x);
    && r in c.canonicalToSuperseded && Connected(links, x, r)
    && (forall y :: Connected(links, x, y) ==> !Beats(links, y, r))
  }

  ghost predicate IsCollapse(links: seq<Link>, c: Corpus)
  {
    && c.canonicalToSuperseded.Keys !! c.supersededToCanonical.Keys
    && c.canonicalToSuperseded.Keys + c.supersededToCanonical.Keys == Grouped(links)
    && (forall x :: x in Grouped(links) ==> WellRepresented(links, c, x))
    && (forall k :: k in c.canonicalToSuperseded ==>
          c.canonicalToSuperseded[k] != [] && IsSortedListOf(c.canonicalToSuperseded[k], SupersededBy(c.supersededToCanonical, k)))
  }

  ghost predicate CountsAgree(c: Corpus)
  {
    c.groupCount == |c.canonicalToSuperseded| && c.totalSuperseded == |c.supersededToCanonical|
  }

  /** Two grouped pull requests have the same canonical exactly when a chain of groups connects them. */
  lemma SameCanonicalIffConnected(links: seq<Link>, c: Corpus, a: int, b: int)
    requires IsCollapse(links, c) && a in Grouped(links) && b in Grouped(links)
    ensures Representative(c, a) == Representative(c, b) <==> Connected(links, a, b)
  {
    assert WellRepresented(links, c, a) && WellRepresented(links, c, b);
    var ra, rb := Representative(c, a), Representative(c, b);
    ConnectedSymmetric(links, b, rb);
    if ra == rb {
      ConnectedTransitive(links, a, ra, b);
    }
    if Connected(links, a, b) {
      ConnectedTransitive(links, a, b, rb);
      ConnectedSymmetric(links, a, b);
      ConnectedTransitive(links, b, a, ra);
      assert !Beats(links, rb, ra) && !Beats(links, ra, rb);
    }
  }

  /** Every grouped pull request is either a canonical or superseded, and the counts add up. */
  lemma CollapseConserves(links: seq<Link>, c: Corpus)
    requires IsCollapse(links, c) && CountsAgree(c)
    ensures c.groupCount + c.totalSuperseded == |Grouped(links)|
  {
    assert |c.canonicalToSuperseded.Keys + c.supersededToCanonical.Keys|
        == |c.canonicalToSuperseded.Keys| + |c.supersededToCanonical.Keys|;
  }

  /** A superseded pull request is represented by another one. */
  lemma SupersededIffOther(links: seq<Link>, c: Corpus, x: int)
    requires IsCollapse(links, c) && x in Grouped(links)
    ensures x in c.supersededToCanonical <==> Representative(c, x) != x
  {
    assert WellRepresented(links, c, x);
  }

  lemma SameRepresentative(links: seq<Link>, c: Corpus, d: Corpus, x: int)
    requires IsCollapse(links, c) && IsCollapse(links, d) && x in Grouped(links)
    ensures Representative(c, x) == Representative(d, x)
    ensures x in c.supersededToCanonical <==> x in d.supersededToCanonical
    ensures x in c.canonicalToSuperseded <==> x in d.canonicalToSuperseded
  {
    assert WellRepresented(links, c, x) && WellRepresented(links, d, x);
    assert !Beats(links, Representative(c, x), Representative(d, x));
    assert !Beats(links, Representative(d, x), Representative(c, x));
    SupersededIffOther(links, c, x);
    SupersededIffOther(links, d, x);
  }

  lemma SameSuperseded(links: seq<Link>, c: Corpus, d: Corpus)
    requires IsCollapse(links, c) && IsCollapse(links, d)
    ensures c.supersededToCanonical == d.supersededToCanonical
    ensures c.canonicalToSuperseded.Keys == d.canonicalToSuperseded.Keys
  {
    forall x | x in Grouped(links)
      ensures Representative(c, x) == Representative(d, x)
      ensures x in c.supersededToCanonical <==> x in d.supersededToCanonical
      ensures x in c.canonicalToSuperseded <==> x in d.canonicalToSuperseded
    {
      SameRepresentative(links, c, d, x);
    }
    SameMaps(c, d, Grouped(links));
  }

  lemma SameMaps(c: Corpus, d: Corpus, g: set<int>)
    requires c.supersededToCanonical.Keys <= g && d.supersededToCanonical.Keys <= g
    requires c.canonicalToSuperseded.Keys <= g && d.canonicalToSuperseded.Keys <= g
    requires forall x :: x in g ==> Representative(c, x) == Representative(d, x)
    requires forall x :: x in g ==> (x in c.supersededToCanonical <==> x in d.supersededToCanonical)
    requires forall x :: x in g ==> (x in c.canonicalToSuperseded <==> x in d.canonicalToSuperseded)
    ensures c.supersededToCanonical == d.supersededToCanonical
    ensures c.canonicalToSuperseded.Keys == d.canonicalToSuperseded.Keys
  {
    var m, n := c.supersededToCanonical, d.supersededToCanonical;
    forall x: int ensures x in m.Keys <==> x in n.Keys {}
    forall x: int ensures x in c.canonicalToSuperseded.Keys <==> x in d.canonicalToSuperseded.Keys {}
    forall x | x in m ensures m[x] == n[x] {
      assert x in g && Representative(c, x) == Representative(d, x);
    }
  }

  /** The corpus is determined by the groups, so no map iteration order can change it. */
  lemma CollapseUnique(links: seq<Link>, c: Corpus, d: Corpus)
    requires IsCollapse(links, c) && IsCollapse(links, d) && CountsAgree(c) && CountsAgree(d)
    ensures c == d
  {
    SameSuperseded(links, c, d);
    forall k | k in c.canonicalToSuperseded
      ensures c.canonicalToSuperseded[k] == d.canonicalToSuperseded[k]
    {
      SortedListUnique(c.canonicalToSuperseded[k], d.canonicalToSuperseded[k], SupersededBy(c.supersededToCanonical, k));
    }
    assert c.canonicalToSuperseded == d.canonicalToSuperseded;
  }

  // ---------- building the graph ----------

  function Neighbours(adj: map<int, set<int>>, a: int): set<int>
  {
    if a in adj then adj[a] else {}
  }

  ghost predicate IsAdjacency(links: seq<Link>, adj: map<int, set<int>>)
  {
    && adj.Keys == Grouped(links)
    && (forall a, b :: b in Neighbours(adj, a) <==> Joined(links, a, b))
  }

  lemma JoinedAppend(links: seq<Link>, l: Link, a: int, b: int)
    ensures Joined(links + [l], a, b)
       <==> Joined(links, a, b) || (a != b && ((l.canonical == a && l.number == b) || (l.canonical == b && l.number == a)))
  {
    var all := links + [l];
    assert l in all;
    if Joined(links, a, b) {
      var k :| k in links && ((k.canonical == a && k.number == b) || (k.canonical == b && k.number == a));
      assert k in all;
    }
  }

  lemma GroupedAppend(links: seq<Link>, l: Link)
    ensures Grouped(links + [l]) == Grouped(links) + (if l.canonical != l.number then {l.canonical, l.number} else {})
  {
    var all := links + [l];
    assert forall k :: k in all <==> k in links || k == l;
    assert l in all;
  }

  lemma GroupedIffJoined(links: seq<Link>, a: int)
    ensures a in Grouped(links) ==> exists b :: Joined(links, a, b)
    ensures forall b :: Joined(links, a, b) ==> a in Grouped(links) && b in Grouped(links)
  {
    if a in Grouped(links) {
      var l :| l in links && l.canonical != l.number && (l.canonical == a || l.number == a);
      if l.canonical == a { assert Joined(links, a, l.number); } else { assert Joined(links, a, l.canonical); }
    }
  }

  method AddEdge(adj: map<int, set<int>>, a: int, b: int) returns (adj': map<int, set<int>>)
    ensures a == b ==> adj' == adj
    ensures a != b ==> adj'.Keys == adj.Keys + {a, b}
    ensures forall x, y :: y in Neighbours(adj', x) <==> y in Neighbours(adj, x) || (a != b && ((x == a && y == b) || (x == b && y == a)))
  {
    adj' := adj;
    if a == b {
      return;
    }
    adj' := adj'[a := Neighbours(adj', a) + {b}];
    adj' := adj'[b := Neighbours(adj', b) + {a}];
  }

  function BestScore(scores: map<int, real>, x: int): real
  {
    if x in scores then scores[x] else 0.0
  }

  ghost predicate IsScores(links: seq<Link>, scores: map<int, real>)
  {
    forall x :: BestScore(scores, x) == ScoreOf(links, x)
  }

  /** One group's candidates. */
  method LinkPlan(plan: SynthesisPlan, adj0: map<int, set<int>>, scores0: map<int, real>, ghost before: seq<Link>)
    returns (adj: map<int, set<int>>, scores: map<int, real>)
    requires IsAdjacency(before, adj0) && IsScores(before, scores0)
    ensures IsAdjacency(before + LinksOf(plan), adj) && IsScores(before + LinksOf(plan), scores)
  {
    adj, scores := adj0, scores0;
    ghost var links, here := before, LinksOf(plan);
    var canonical := CanonicalOf(plan);
    assert before + here[..0] == before;
    for j := 0 to |plan.candidates|
      invariant links == before + here[..j]
      invariant IsAdjacency(links, adj) && IsScores(links, scores)
    {
      var c := plan.candidates[j];
      AdjacencyStep(links, here[j]);
      ScoreStep(links, here[j]);
      adj := AddEdge(adj, canonical, c.number);
      if c.score > BestScore(scores, c.number) {
        scores := scores[c.number := c.score];
      }
      TakeNext(before, here, j);
      links := links + [here[j]];
    }
    assert here[..|here|] == here;
  }

  /** The two nested loops over groups and candidates. */
  method LinkUp(plans: seq<SynthesisPlan>) returns (adj: map<int, set<int>>, scores: map<int, real>)
    ensures IsAdjacency(Links(plans), adj) && IsScores(Links(plans), scores)
  {
    adj, scores := map[], map[];
    for i := 0 to |plans|
      invariant IsAdjacency(Links(plans[..i]), adj) && IsScores(Links(plans[..i]), scores)
    {
      assert plans[..i + 1][..i] == plans[..i];
      adj, scores := LinkPlan(plans[i], adj, scores, Links(plans[..i]));
    }
    assert plans[..|plans|] == plans;
  }

  lemma AdjacencyStep(links: seq<Link>, l: Link)
    ensures Grouped(links + [l]) == Grouped(links) + (if l.canonical != l.number then {l.canonical, l.number} else {})
    ensures forall a, b :: Joined(links + [l], a, b) <==>
              Joined(links, a, b) || (l.canonical != l.number && ((a == l.canonical && b == l.number) || (a == l.number && b == l.canonical)))
  {
    GroupedAppend(links, l);
    forall a, b {
      JoinedAppend(links, l, a, b);
    }
  }

  lemma ScoreStep(links: seq<Link>, l: Link)
    ensures forall x ::
              ScoreOf(links + [l], x) == (if l.number == x && l.score > ScoreOf(links, x) then l.score else ScoreOf(links, x))
  {
    var all := links + [l];
    assert all[..|all| - 1] == links;
  }

  // ---------- connected components ----------

  /** comp lists a whole connected component, each member once. */
  ghost predicate IsComponent(links: seq<Link>, comp: seq<int>)
  {
    && Distinct(comp)
    && comp != []
    && (forall x, y :: x in comp ==> (y in comp <==> Connected(links, x, y)))
  }

  /** The recursive closure dfs, with the variables it captures. */
  class Search {
    const adj: map<int, set<int>>
    var visited: set<int>
    var comp: seq<int>

    constructor (adj: map<int, set<int>>)
      ensures this.adj == adj && visited == {} && comp == []
    {
      this.adj, visited, comp := adj, {}, [];
    }

    /** Visiting node adds it and what is reachable from it; whatever is added is fully explored. */
    method Dfs(node: int, ghost links: seq<Link>)
      requires IsAdjacency(links, adj) && node in adj && node !in visited && visited <= adj.Keys
      requires Distinct(comp) && Elements(comp) <= visited
      modifies this
      ensures old(visited) + {node} <= visited <= adj.Keys
      ensures Distinct(comp) && Elements(comp) == old(Elements(comp)) + (visited - old(visited))
      ensures forall x :: x in visited - old(visited) ==> Connected(links, node, x)
      ensures forall x, y :: x in visited - old(visited) && Joined(links, x, y) ==> y in visited
      decreases adj.Keys - visited
    {
      visited := visited + {node};
      comp := comp + [node];
      ConnectedSelf(links, node);
      var rest := adj[node];
      while rest != {}
        invariant rest <= adj[node]
        invariant old(visited) + {node} <= visited <= adj.Keys
        invariant Distinct(comp) && Elements(comp) == old(Elements(comp)) + (visited - old(visited))
        invariant forall x :: x in visited - old(visited) ==> Connected(links, node, x)
        invariant forall x, y :: x in visited - old(visited) - {node} && Joined(links, x, y) ==> y in visited
        invariant forall y :: y in adj[node] && y !in rest ==> y in visited
        decreases |rest|
      {
        var neighbour := PickOne(rest);
        rest := rest - {neighbour};
        if neighbour !in visited {
          assert neighbour in Neighbours(adj, node);
          GroupedIffJoined(links, node);
          ghost var before := visited;
          Dfs(neighbour, links);
          ReachThrough(links, node, neighbour, visited - before);
        }
      }
      forall y | Joined(links, node, y) ensures y in visited {
        assert y in Neighbours(adj, node);
      }
    }
  }

  lemma ReachThrough(links: seq<Link>, node: int, neighbour: int, added: set<int>)
    requires Joined(links, node, neighbour)
    requires forall x :: x in added ==> Connected(links, neighbour, x)
    ensures forall x :: x in added ==> Connected(links, node, x)
  {
    ConnectedSelf(links, node);
    ConnectedStep(links, node, node, neighbour);
    forall x | x in added ensures Connected(links, node, x) {
      ConnectedTransitive(links, node, neighbour, x);
    }
  }

  /** A search started outside a closed set finds exactly one component. */
  lemma SearchFindsComponent(links: seq<Link>, before: set<int>, node: int, comp: seq<int>)
    requires Closed(links, before) && node !in before && node in comp
    requires Distinct(comp) && Elements(comp) !! before && Closed(links, before + Elements(comp))
    requires forall x :: x in comp ==> Connected(links, node, x)
    ensures IsComponent(links, comp)
  {
    forall x, y | x in comp ensures y in comp <==> Connected(links, x, y) {
      ConnectedSymmetric(links, node, x);
      if y in comp {
        ConnectedTransitive(links, x, node, y);
      }
      if Connected(links, x, y) {
        assert x in before + Elements(comp);
        ClosedKeeps(links, before + Elements(comp), x, y);
        if y in before {
          ConnectedSymmetric(links, x, y);
          ClosedKeeps(links, before, y, x);
          assert x in Elements(comp);
        }
      }
    }
  }

  /** The components found so far cover exactly the visited pull requests, without overlap. */
  ghost predicate AreComponents(links: seq<Link>, components: seq<seq<int>>, visited: set<int>)
  {
    && (forall i :: 0 <= i < |components| ==> IsComponent(links, components[i]))
    && (forall i, x :: 0 <= i < |components| && x in components[i] ==> x in visited)
    && (forall x :: x in visited ==> exists i :: 0 <= i < |components| && x in components[i])
    && (forall i, j, x :: 0 <= i < j < |components| && x in components[i] ==> x !in components[j])
  }

  lemma AddComponent(links: seq<Link>, components: seq<seq<int>>, visited: set<int>, comp: seq<int>, visited': set<int>)
    requires AreComponents(links, components, visited) && IsComponent(links, comp)
    requires visited' == visited + Elements(comp) && visited !! Elements(comp)
    ensures AreComponents(links, components + [comp], visited')
  {
    var all := components + [comp];
    forall x | x in visited' ensures exists i :: 0 <= i < |all| && x in all[i] {
      if x in visited {
        var i :| 0 <= i < |components| && x in components[i];
        assert x in all[i];
      } else {
        assert x in all[|components|];
      }
    }
    forall i, j, x | 0 <= i < j < |all| && x in all[i] ensures x !in all[j] {
      assert x in visited;
      assert x in comp ==> x in Elements(comp);
    }
  }

  /** One top-level call of dfs. */
  method Explore(adj: map<int, set<int>>, visited: set<int>, node: int, ghost links: seq<Link>)
    returns (comp: seq<int>, visited': set<int>)
    requires IsAdjacency(links, adj) && Closed(links, visited) && visited <= adj.Keys
    requires node in adj && node !in visited
    ensures IsComponent(links, comp) && |comp| > 1
    ensures visited' == visited + Elements(comp) && visited !! Elements(comp) && node in visited'
    ensures Closed(links, visited') && visited' <= adj.Keys
  {
    var search := new Search(adj);
    search.visited := visited;
    assert Elements<int>([]) == {};
    search.Dfs(node, links);
    comp, visited' := search.comp, search.visited;
    SearchMembers(visited, visited', comp);
    assert node in Elements(comp);
    SearchFindsComponent(links, visited, node, comp);
    HasCompany(links, comp, node);
  }

  lemma SearchMembers(before: set<int>, after: set<int>, comp: seq<int>)
    requires before <= after && Elements(comp) == {} + (after - before)
    ensures after == before + Elements(comp) && before !! Elements(comp)
  {
  }

  /** All components, whatever order the map is visited in. The test for more than one member never fails. */
  method Components(adj: map<int, set<int>>, ghost links: seq<Link>) returns (components: seq<seq<int>>)
    requires IsAdjacency(links, adj)
    ensures AreComponents(links, components, Grouped(links))
    ensures forall i :: 0 <= i < |components| ==> |components[i]| > 1
  {
    components := [];
    var visited: set<int> := {};
    var rest := adj.Keys;
    while rest != {}
      invariant rest <= adj.Keys && adj.Keys - rest <= visited <= adj.Keys
      invariant Closed(links, visited)
      invariant AreComponents(links, components, visited)
      invariant forall i :: 0 <= i < |components| ==> |components[i]| > 1
      decreases |rest|
    {
      var node := PickOne(rest);
      rest := rest - {node};
      if node !in visited {
        var comp, visited' := Explore(adj, visited, node, links);
        if |comp| > 1 {
          AddComponent(links, components, visited, comp, visited');
          components := components + [comp];
        } else {
          assert false;
        }
        visited := visited';
      }
    }
    SubsetCovers(adj.Keys, visited);
  }

  lemma SubsetCovers<T>(a: set<T>, b: set<T>)
    requires a - {} <= b && b <= a
    ensures a == b
  {
  }

  lemma HasCompany(links: seq<Link>, comp: seq<int>, node: int)
    requires IsComponent(links, comp) && node in comp && node in Grouped(links)
    ensures |comp| > 1
  {
    GroupedIffJoined(links, node);
    var other :| Joined(links, node, other);
    ConnectedSelf(links, node);
    ConnectedStep(links, node, node, other);
    var i :| 0 <= i < |comp| && comp[i] == node;
    var j :| 0 <= j < |comp| && comp[j] == other;
  }

  // ---------- choosing canonicals ----------

  method PickCanonical(comp: seq<int>, scores: map<int, real>, ghost links: seq<Link>) returns (best: int)
    requires comp != [] && IsScores(links, scores)
    ensures best in comp && forall x :: x in comp ==> !Beats(links, x, best)
  {
    best := comp[0];
    var bestScoreVal := BestScore(scores, best);
    for i := 1 to |comp|
      invariant best in comp && bestScoreVal == ScoreOf(links, best)
      invariant forall j :: 0 <= j < i ==> !Beats(links, comp[j], best)
    {
      var prNum := comp[i];
      var score := BestScore(scores, prNum);
      if score > bestScoreVal {
        best := prNum;
        bestScoreVal := score;
      } else if score == bestScoreVal && prNum < best {
        best := prNum;
      }
    }
  }

  /** The maps after some components: each is represented by its best member. */
  ghost predicate Chosen(links: seq<Link>, done: set<int>, c2s: map<int, seq<int>>, s2c: map<int, int>)
  {
    && c2s.Keys !! s2c.Keys && c2s.Keys + s2c.Keys == done
    && (forall x :: x in s2c ==> s2c[x] in c2s && Connected(links, x, s2c[x]))
    && (forall k :: k in c2s ==> forall y :: Connected(links, k, y) ==> !Beats(links, y, k))
    && (forall k :: k in c2s ==> c2s[k] != [] && IsSortedListOf(c2s[k], set x | x in s2c && s2c[x] == k))
  }

  method Supersede(comp: seq<int>, best: int) returns (superseded: seq<int>)
    requires Distinct(comp) && best in comp
    ensures IsSortedListOf(superseded, Elements(comp) - {best})
    ensures |comp| > 1 ==> superseded != []
  {
    var members: seq<int> := [];
    for i := 0 to |comp|
      invariant Distinct(members)
      invariant forall x :: x in members <==> x in comp[..i] && x != best
    {
      assert comp[i] !in comp[..i];
      assert comp[..i + 1] == comp[..i] + [comp[i]];
      if comp[i] != best {
        members := members + [comp[i]];
      }
    }
    assert comp[..|comp|] == comp;
    superseded := SortInts(members);
    if |comp| > 1 {
      var other := if comp[0] == best then comp[1] else comp[0];
      assert other in superseded;
    }
  }

  /** Adding one component's choice. */
  lemma ChooseStep(links: seq<Link>, done: set<int>, c2s: map<int, seq<int>>, s2c: map<int, int>,
                   comp: seq<int>, best: int, superseded: seq<int>, s2c': map<int, int>)
    requires Chosen(links, done, c2s, s2c) && IsComponent(links, comp) && Elements(comp) !! done
    requires best in comp && forall x :: x in comp ==> !Beats(links, x, best)
    requires superseded != [] && IsSortedListOf(superseded, Elements(comp) - {best})
    requires s2c'.Keys == s2c.Keys + (Elements(comp) - {best})
    requires forall x :: x in s2c' ==> s2c'[x] == if x in Elements(comp) then best else s2c[x]
    ensures Chosen(links, done + Elements(comp), c2s[best := superseded], s2c')
  {
    var c2s' := c2s[best := superseded];
    forall x | x in s2c' ensures s2c'[x] in c2s' && Connected(links, x, s2c'[x]) {}
    forall k | k in c2s'
      ensures IsSortedListOf(c2s'[k], set x | x in s2c' && s2c'[x] == k)
    {
      if k == best {
        forall x ensures x in superseded <==> x in s2c' && s2c'[x] == best {
          assert x in s2c ==> s2c[x] in done && x in done;
        }
      } else {
        forall x ensures x in c2s[k] <==> x in s2c' && s2c'[x] == k {
          assert x in (set y | y in s2c && s2c[y] == k) <==> x in c2s[k];
        }
      }
    }
  }

  lemma ChosenRepresents(links: seq<Link>, c: Corpus, x: int)
    requires Chosen(links, Grouped(links), c.canonicalToSuperseded, c.supersededToCanonical) && x in Grouped(links)
    ensures WellRepresented(links, c, x)
  {
    var r := Representative(c, x);
    ConnectedSelf(links, x);
    forall y | Connected(links, x, y) ensures !Beats(links, y, r) {
      ConnectedSymmetric(links, x, r);
      ConnectedTransitive(links, r, x, y);
    }
  }

  ghost function Covered(components: seq<seq<int>>): set<int>
  {
    if components == [] then {}
    else Covered(components[..|components| - 1]) + Elements(components[|components| - 1])
  }

  lemma {:induction false} CoveredMembers(components: seq<seq<int>>)
    ensures forall i, x :: 0 <= i < |components| && x in components[i] ==> x in Covered(components)
    ensures forall x :: x in Covered(components) ==> exists i :: 0 <= i < |components| && x in components[i]
  {
    if components != [] {
      var init := components[..|components| - 1];
      CoveredMembers(init);
      forall i, x | 0 <= i < |components| && x in components[i] ensures x in Covered(components) {
        if i < |init| { assert x in init[i]; }
      }
      forall x | x in Covered(components) ensures exists i :: 0 <= i < |components| && x in components[i] {
        if x in Covered(init) {
          var i :| 0 <= i < |init| && x in init[i];
          assert x in components[i];
        } else {
          assert x in components[|components| - 1];
        }
      }
    }
  }

  lemma NextIsNew(links: seq<Link>, components: seq<seq<int>>, visited: set<int>, i: nat)
    requires AreComponents(links, components, visited) && i < |components|
    ensures Elements(components[i]) !! Covered(components[..i])
    ensures Covered(components[..i + 1]) == Covered(components[..i]) + Elements(components[i])
  {
    CoveredMembers(components[..i]);
    DisjointInts(Covered(components[..i]), Elements(components[i]));
    assert components[..i + 1][..i] == components[..i];
  }

  lemma CoverAll(links: seq<Link>, components: seq<seq<int>>, visited: set<int>)
    requires AreComponents(links, components, visited)
    ensures Covered(components) == visited
  {
    CoveredMembers(components);
    SameInts(Covered(components), visited);
  }

  /** The loop over components. */
  method ChooseCanonicals(components: seq<seq<int>>, scores: map<int, real>, ghost links: seq<Link>)
    returns (c2s: map<int, seq<int>>, s2c: map<int, int>)
    requires AreComponents(links, components, Grouped(links)) && IsScores(links, scores)
    requires forall i :: 0 <= i < |components| ==> |components[i]| > 1
    ensures Chosen(links, Grouped(links), c2s, s2c)
    ensures |c2s| == |components|
  {
    c2s, s2c := map[], map[];
    for i := 0 to |components|
      invariant Chosen(links, Covered(components[..i]), c2s, s2c) && |c2s| == i
    {
      var comp := components[i];
      NextIsNew(links, components, Grouped(links), i);
      c2s, s2c := ChooseOne(comp, scores, c2s, s2c, links, Covered(components[..i]));
    }
    assert components[..|components|] == components;
    CoverAll(links, components, Grouped(links));
  }

  method ChooseOne(comp: seq<int>, scores: map<int, real>, c2s0: map<int, seq<int>>, s2c0: map<int, int>,
                   ghost links: seq<Link>, ghost done: set<int>)
    returns (c2s: map<int, seq<int>>, s2c: map<int, int>)
    requires IsComponent(links, comp) && |comp| > 1 && IsScores(links, scores)
    requires Chosen(links, done, c2s0, s2c0) && Elements(comp) !! done
    ensures Chosen(links, done + Elements(comp), c2s, s2c) && |c2s| == |c2s0| + 1
  {
    var best := PickCanonical(comp, scores, links);
    var superseded := Supersede(comp, best);
    assert best in Elements(comp) && best !in done && best !in c2s0;
    s2c := Redirect(s2c0, superseded, best, Elements(comp));
    ChooseStep(links, done, c2s0, s2c0, comp, best, superseded, s2c);
    c2s := c2s0[best := superseded];
  }

  /** supersededToCanonical[prNum] = bestPR for every superseded member. */
  method Redirect(s2c: map<int, int>, superseded: seq<int>, best: int, ghost members: set<int>) returns (s2c': map<int, int>)
    requires forall x :: x in superseded <==> x in members && x != best
    requires s2c.Keys !! members
    ensures s2c'.Keys == s2c.Keys + (members - {best})
    ensures forall x :: x in s2c' ==> s2c'[x] == if x in members then best else s2c[x]
  {
    s2c' := s2c;
    for i := 0 to |superseded|
      invariant forall x :: x in s2c' <==> x in s2c || x in superseded[..i]
      invariant forall x :: x in s2c' ==> s2c'[x] == if x in members then best else s2c[x]
    {
      s2c' := s2c'[superseded[i] := best];
    }
    assert superseded[..|superseded|] == superseded;
    forall x: int ensures x in s2c'.Keys <==> x in s2c.Keys + (members - {best}) {}
  }

  /** TotalSuperseded: the lengths of the superseded lists, summed in any order. */
  method CountSuperseded(c2s: map<int, seq<int>>, ghost s2c: map<int, int>) returns (total: int)
    requires forall x :: x in s2c ==> s2c[x] in c2s
    requires forall k :: k in c2s ==> IsSortedListOf(c2s[k], SupersededBy(s2c, k))
    ensures total == |s2c|
  {
    total := 0;
    var rest := c2s.Keys;
    ghost var counted: set<int> := {};
    while rest != {}
      invariant rest <= c2s.Keys && total == |counted|
      invariant forall x :: x in counted <==> x in s2c && s2c[x] !in rest
      decreases |rest|
    {
      var k := PickOne(rest);
      ListSize(c2s[k], SupersededBy(s2c, k));
      DisjointInts(counted, SupersededBy(s2c, k));
      total := total + |c2s[k]|;
      counted := counted + SupersededBy(s2c, k);
      rest := rest - {k};
    }
    SameInts(counted, s2c.Keys);
  }

  /** The annotation of a pull request by a collapsed corpus. */
  function Annotate(c: Corpus, pr: PR): PR
  {
    if pr.number in c.canonicalToSuperseded then
      pr.(isCollapsedCanonical := true, supersededPRs := c.canonicalToSuperseded[pr.number])
    else if pr.number in c.supersededToCanonical then
      pr.(isCollapsedCanonical := false, supersededPRs := [c.supersededToCanonical[pr.number]])
    else pr
  }

  method AnnotateAll(c: Corpus, prs: seq<PR>) returns (updated: seq<PR>)
    ensures |updated| == |prs| && forall i :: 0 <= i < |prs| ==> updated[i] == Annotate(c, prs[i])
  {
    updated := [];
    for i := 0 to |prs|
      invariant |updated| == i && forall j :: 0 <= j < i ==> updated[j] == Annotate(c, prs[j])
    {
      updated := updated + [Annotate(c, prs[i])];
    }
  }

  lemma ChosenIsCollapse(links: seq<Link>, c: Corpus)
    requires Chosen(links, Grouped(links), c.canonicalToSuperseded, c.supersededToCanonical)
    ensures IsCollapse(links, c)
  {
    forall x | x in Grouped(links) ensures WellRepresented(links, c, x) {
      ChosenRepresents(links, c, x);
    }
  }

  /** With no groups the corpus is empty and the pull requests are returned as they are. */
  method BuildCollapsedCorpus(plans: seq<SynthesisPlan>, prs: seq<PR>) returns (c: Corpus, updated: seq<PR>)
    ensures IsCollapse(Links(plans), c) && CountsAgree(c)
    ensures |updated| == |prs| && forall i :: 0 <= i < |prs| ==> updated[i] == Annotate(c, prs[i])
  {
    if |plans| == 0 {
      c := Corpus(map[], map[], 0, 0);
      updated := prs;
      return;
    }
    ghost var links := Links(plans);
    var adj, scores := LinkUp(plans);
    var components := Components(adj, links);
    var c2s, s2c := ChooseCanonicals(components, scores, links);
    var total := CountSuperseded(c2s, s2c);
    c := Corpus(c2s, s2c, |components|, total);
    ChosenIsCollapse(links, c);
    updated := AnnotateAll(c, prs);
  }

  // ---------- the plan pool ----------

  /** Why the pool loop of PlanWithOptions drops a pull request; None keeps it. */
  function PoolRejection(corpus: Option<Corpus>, pr: PR): Option<RejectionReason>
  {
    if pr.isDraft then Some(Draft)
    else if pr.mergeable == "conflicting" then Some(MergeConflict)
    else if pr.ciStatus == "failure" then Some(CIFailure)
    else if corpus.Some? && pr.number in corpus.value.supersededToCanonical then Some(SupersededByCollapse)
    else None
  }

  function InCluster(pr: PR, clusterByPR: map<int, string>): PR
  {
    pr.(clusterId := if pr.number in clusterByPR then clusterByPR[pr.number] else "")
  }

  /** The pool holds exactly the pull requests nothing rejects, with their clusters. */
  ghost predicate IsPlanPool(corpus: Option<Corpus>, prs: seq<PR>, clusterByPR: map<int, string>, pool: seq<PR>)
  {
    forall p :: p in pool <==>
      exists pr :: pr in prs && PoolRejection(corpus, pr).None? && p == InCluster(pr, clusterByPR)
  }

  ghost predicate RightlyRejected(corpus: Option<Corpus>, prs: seq<PR>, r: Rejection)
  {
    exists pr :: pr in prs && PoolRejection(corpus, pr) == Some(r.reason) && r.number == pr.number
  }

  /** What the pool loop has made of the pull requests so far. */
  ghost predicate Filtered(corpus: Option<Corpus>, prs: seq<PR>, clusterByPR: map<int, string>, pool: seq<PR>,
                           rejections: seq<Rejection>)
  {
    && IsPlanPool(corpus, prs, clusterByPR, pool)
    && Conserved(prs, pool, rejections)
    && (forall r :: r in rejections ==> RightlyRejected(corpus, prs, r))
  }

  lemma FilteredKeep(corpus: Option<Corpus>, prs: seq<PR>, clusterByPR: map<int, string>, pool: seq<PR>,
                     rejections: seq<Rejection>, pr: PR)
    requires Filtered(corpus, prs, clusterByPR, pool, rejections) && PoolRejection(corpus, pr).None?
    ensures Filtered(corpus, prs + [pr], clusterByPR, pool + [InCluster(pr, clusterByPR)], rejections)
  {
    ConservedStep(prs, pr, pool, InCluster(pr, clusterByPR), rejections, Rejection(pr.number, Draft));
    forall r | r in rejections ensures RightlyRejected(corpus, prs + [pr], r) {
      assert RightlyRejected(corpus, prs, r);
    }
  }

  lemma FilteredReject(corpus: Option<Corpus>, prs: seq<PR>, clusterByPR: map<int, string>, pool: seq<PR>,
                       rejections: seq<Rejection>, pr: PR)
    requires Filtered(corpus, prs, clusterByPR, pool, rejections) && PoolRejection(corpus, pr).Some?
    ensures Filtered(corpus, prs + [pr], clusterByPR, pool, rejections + [Rejection(pr.number, PoolRejection(corpus, pr).value)])
  {
    var rejection := Rejection(pr.number, PoolRejection(corpus, pr).value);
    ConservedStep(prs, pr, pool, pr, rejections, rejection);
    assert pr in prs + [pr] && RightlyRejected(corpus, prs + [pr], rejection);
    forall r | r in rejections ensures RightlyRejected(corpus, prs + [pr], r) {
      assert RightlyRejected(corpus, prs, r);
    }
  }

  /** The pool loop loses no pull request, and rejects each for its first reason. */
  method FilterPool(corpus: Option<Corpus>, prs: seq<PR>, clusterByPR: map<int, string>)
    returns (pool: seq<PR>, rejections: seq<Rejection>)
    ensures IsPlanPool(corpus, prs, clusterByPR, pool)
    ensures Conserved(prs, pool, rejections)
    ensures forall r :: r in rejections ==> RightlyRejected(corpus, prs, r)
  {
    pool, rejections := [], [];
    for i := 0 to |prs|
      invariant Filtered(corpus, prs[..i], clusterByPR, pool, rejections)
    {
      var pr := prs[i];
      assert prs[..i + 1] == prs[..i] + [pr];
      var why := PoolRejection(corpus, pr);
      if why.Some? {
        FilteredReject(corpus, prs[..i], clusterByPR, pool, rejections, pr);
        rejections := rejections + [Rejection(pr.number, why.value)];
        continue;
      }
      FilteredKeep(corpus, prs[..i], clusterByPR, pool, rejections, pr);
      pool := pool + [InCluster(pr, clusterByPR)];
    }
    assert prs[..|prs|] == prs;
  }

  /** The pool has at most one member of each component, the canonical one. */
  lemma PoolHasOnePerComponent(links: seq<Link>, c: Corpus, prs: seq<PR>, clusterByPR: map<int, string>, pool: seq<PR>,
                               p: PR, q: PR)
    requires IsCollapse(links, c) && IsPlanPool(Some(c), prs, clusterByPR, pool) && p in pool && q in pool
    requires p.number in Grouped(links) && q.number in Grouped(links) && Connected(links, p.number, q.number)
    ensures p.number == q.number && p.number in c.canonicalToSuperseded
  {
    NotSuperseded(c, prs, clusterByPR, pool, p);
    NotSuperseded(c, prs, clusterByPR, pool, q);
    OnePerComponent(links, c, p.number, q.number);
  }

  lemma NotSuperseded(c: Corpus, prs: seq<PR>, clusterByPR: map<int, string>, pool: seq<PR>, p: PR)
    requires IsPlanPool(Some(c), prs, clusterByPR, pool) && p in pool
    ensures p.number !in c.supersededToCanonical
  {
  }

  /** Without superseded pull requests a pool has at most one member of each component. */
  lemma OnePerComponent(links: seq<Link>, c: Corpus, a: int, b: int)
    requires IsCollapse(links, c)
    requires a !in c.supersededToCanonical && b !in c.supersededToCanonical
    requires a in Grouped(links) && b in Grouped(links) && Connected(links, a, b)
    ensures a == b && a in c.canonicalToSuperseded
  {
    SameCanonicalIffConnected(links, c, a, b);
  }
}
