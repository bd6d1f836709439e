/**
 The incremental graph (internal/graph/incremental.go): a graph kept up to date from a cache of
 edges and fingerprints, compared with rebuilding it. The delta counts, timestamps and telemetry
 are left out, and so are the parts of a cache entry that are never read.
 */
module IncrementalGraphs {
  import opened Sequences
  import opened Sorting
  import opened PullRequests
  import opened Graphs
  import opened Fingerprints

  datatype CacheEntry = CacheEntry(edge: Edge)

  // ---------- the relation the incremental path computes ----------

  /** The incremental path's dependency test: StackedOn without the parallel-branch exclusion. */
  predicate HeadIsBase(left: PR, right: PR)
  {
    left.headBranch != "" && right.baseBranch == left.headBranch
  }

  function PairEdges(isNoise: string -> bool, left: PR, right: PR): set<Edge>
  {
    (if HeadIsBase(left, right) then {Edge(left.number, right.number, DependsOn)} else {})
    + (if HeadIsBase(right, left) then {Edge(right.number, left.number, DependsOn)} else {})
    + (if Conflicting(isNoise, left, right) then {Edge(left.number, right.number, ConflictsWith)} else {})
  }

  ghost function IncrementalEdges(isNoise: string -> bool, prs: seq<PR>): set<Edge>
  {
    set l, r, e | l in prs && r in prs && l.number < r.number && e in PairEdges(isNoise, l, r) :: e
  }

  /**
   Some pull request has its own base as head, and another one shares that base. The guard that
   only Build has (its second branch test) is what tells the two computations apart here.
   */
  ghost predicate HasSelfStacked(prs: seq<PR>)
  {
    exists l, r :: l in prs && r in prs && l.number != r.number && SelfStacked(l, r)
  }

  predicate SelfStacked(l: PR, r: PR)
  {
    l.headBranch != "" && l.headBranch == l.baseBranch && r.baseBranch == l.baseBranch
  }

  lemma IncrementalEdge(isNoise: string -> bool, prs: seq<PR>, l: PR, r: PR, e: Edge)
    requires l in prs && r in prs && l.number < r.number && e in PairEdges(isNoise, l, r)
    ensures e in IncrementalEdges(isNoise, prs)
  {
  }

  lemma IncrementalEdgeMeaning(isNoise: string -> bool, prs: seq<PR>, l: PR, r: PR)
    requires DistinctNumbers(prs) && l in prs && r in prs
    ensures Edge(l.number, r.number, DependsOn) in IncrementalEdges(isNoise, prs) <==> l.number != r.number && HeadIsBase(l, r)
    ensures Edge(l.number, r.number, ConflictsWith) in IncrementalEdges(isNoise, prs)
       <==> l.number < r.number && Conflicting(isNoise, l, r)
  {
    var d, c := Edge(l.number, r.number, DependsOn), Edge(l.number, r.number, ConflictsWith);
    if l.number < r.number {
      if HeadIsBase(l, r) { IncrementalEdge(isNoise, prs, l, r, d); }
      if Conflicting(isNoise, l, r) { IncrementalEdge(isNoise, prs, l, r, c); }
    }
    if r.number < l.number && HeadIsBase(l, r) { IncrementalEdge(isNoise, prs, r, l, d); }
    forall l', r' | l' in prs && r' in prs && l'.number < r'.number
      ensures d in PairEdges(isNoise, l', r') ==> (l' == l && r' == r) || (l' == r && r' == l)
      ensures c in PairEdges(isNoise, l', r') ==> l' == l && r' == r
    {
      SamePair(prs, l, r, l', r');
      SamePair(prs, l, r, r', l');
    }
  }

  lemma SamePair(prs: seq<PR>, l: PR, r: PR, l': PR, r': PR)
    requires DistinctNumbers(prs) && l in prs && r in prs && l' in prs && r' in prs
    ensures l'.number == l.number && r'.number == r.number ==> l' == l && r' == r
  {
    if l'.number == l.number { NumbersIdentify(prs, l, l'); }
    if r'.number == r.number { NumbersIdentify(prs, r, r'); }
  }

  lemma IncrementalEndpoints(isNoise: string -> bool, prs: seq<PR>, e: Edge)
    requires e in IncrementalEdges(isNoise, prs)
    ensures exists l, r :: l in prs && r in prs && l.number == e.from && r.number == e.to
  {
    var l, r :| l in prs && r in prs && l.number < r.number && e in PairEdges(isNoise, l, r);
    if e.from == l.number { assert l in prs && r in prs; } else { assert r in prs && l in prs; }
  }

  /** The incremental edges are Build's edges exactly when no pull request is stacked on its own base beside another. */
  lemma IncrementalAgrees(isNoise: string -> bool, prs: seq<PR>)
    requires DistinctNumbers(prs)
    ensures IncrementalEdges(isNoise, prs) == AllPairsEdges(isNoise, prs) <==> !HasSelfStacked(prs)
  {
    if HasSelfStacked(prs) {
      var l, r :| l in prs && r in prs && l.number != r.number && SelfStacked(l, r);
      EdgeMeaning(isNoise, prs, l, r);
      IncrementalEdgeMeaning(isNoise, prs, l, r);
      assert Edge(l.number, r.number, DependsOn) in IncrementalEdges(isNoise, prs);
      assert Edge(l.number, r.number, DependsOn) !in AllPairsEdges(isNoise, prs);
    } else {
      forall e ensures e in IncrementalEdges(isNoise, prs) <==> e in AllPairsEdges(isNoise, prs) {
        SameEdge(isNoise, prs, e);
      }
    }
  }

  lemma SameEdge(isNoise: string -> bool, prs: seq<PR>, e: Edge)
    requires DistinctNumbers(prs) && !HasSelfStacked(prs)
    ensures e in IncrementalEdges(isNoise, prs) <==> e in AllPairsEdges(isNoise, prs)
  {
    if e in IncrementalEdges(isNoise, prs) || e in AllPairsEdges(isNoise, prs) {
      if e in IncrementalEdges(isNoise, prs) {
        IncrementalEndpoints(isNoise, prs, e);
      } else {
        EdgeEndpoints(isNoise, prs, e);
      }
      var l, r :| l in prs && r in prs && l.number == e.from && r.number == e.to;
      EdgeMeaning(isNoise, prs, l, r);
      IncrementalEdgeMeaning(isNoise, prs, l, r);
      assert l.number != r.number ==> !SelfStacked(l, r);
      if l.number == r.number { NumbersIdentify(prs, l, r); }
    }
  }

  /** A pull request from main to main beside another one on main: the two computations differ. */
  lemma SelfStackedWitness(isNoise: string -> bool)
    ensures var a := PR(1, "", "", "", "main", "main", [], "", false, false, false, []);
            var b := PR(2, "", "", "", "main", "topic", [], "", false, false, false, []);
            Edge(1, 2, DependsOn) in IncrementalEdges(isNoise, [a, b])
            && Edge(1, 2, DependsOn) !in AllPairsEdges(isNoise, [a, b])
  {
    var a := PR(1, "", "", "", "main", "main", [], "", false, false, false, []);
    var b := PR(2, "", "", "", "main", "topic", [], "", false, false, false, []);
    var prs := [a, b];
    assert a in prs && b in prs && DistinctNumbers(prs);
    EdgeMeaning(isNoise, prs, a, b);
    IncrementalEdgeMeaning(isNoise, prs, a, b);
  }

  // ---------- the stateful object ----------

  ghost function ChangedNumbers(fingerprints: map<int, Fingerprint>, digest: string -> string, prs: seq<PR>): set<int>
  {
    set p | p in prs && IsChanged(fingerprints, digest, p) :: p.number
  }

  predicate IsChanged(fingerprints: map<int, Fingerprint>, digest: string -> string, pr: PR)
  {
    pr.number !in fingerprints ||
    var newFP, oldFP := ComputeFingerprint(digest, pr), fingerprints[pr.number];
    newFP.baseBranch != oldFP.baseBranch || newFP.headBranch != oldFP.headBranch ||
    newFP.filesHash != oldFP.filesHash || newFP.mergeable != oldFP.mergeable || newFP.clusterId != oldFP.clusterId
  }

  /**
   Against a recorded version of a pull request, when neither list has an empty name or one with a
   bar and their two texts do not collide, a pull request is changed exactly when one of the fields
   that edges and clusters depend on is; and one that is not changed has the edges of the recorded
   version with every other.
   */
  lemma UnchangedKeepsEdges(isNoise: string -> bool, digest: string -> string,
                            fingerprints: map<int, Fingerprint>, before: PR, now: PR, other: PR)
    requires now.number == before.number && now.number in fingerprints
    requires fingerprints[now.number] == ComputeFingerprint(digest, before)
    requires NoBars(before.files) && NoBars(now.files) && "" !in before.files && "" !in now.files
    requires digest(Joined(before.files)) == digest(Joined(now.files)) ==> Joined(before.files) == Joined(now.files)
    ensures (IsChanged(fingerprints, digest, now)
             <==> before.baseBranch != now.baseBranch || before.headBranch != now.headBranch
                  || multiset(before.files) != multiset(now.files)
                  || before.mergeable != now.mergeable || before.clusterId != now.clusterId)
    ensures !IsChanged(fingerprints, digest, now) ==>
              PairEdges(isNoise, now, other) == PairEdges(isNoise, before, other)
              && PairEdges(isNoise, other, now) == PairEdges(isNoise, other, before)
  {
    JoinedIff(before.files, now.files);
    if !IsChanged(fingerprints, digest, now) {
      SameFilesSameEdges(isNoise, before, now, other);
    }
  }

  lemma SameFilesSameEdges(isNoise: string -> bool, before: PR, now: PR, other: PR)
    requires now.number == before.number && now.baseBranch == before.baseBranch
    requires now.headBranch == before.headBranch && now.mergeable == before.mergeable
    requires multiset(before.files) == multiset(now.files)
    ensures PairEdges(isNoise, now, other) == PairEdges(isNoise, before, other)
    ensures PairEdges(isNoise, other, now) == PairEdges(isNoise, other, before)
  {
    SameMembers(now.files, before.files);
    assert SharedSignal(isNoise, now, other) == SharedSignal(isNoise, before, other);
    assert SharedSignal(isNoise, other, now) == SharedSignal(isNoise, other, before);
  }

  /**
   A file "a|b" replaced by two files "a" and "b": whatever the digest, the pull request passes as
   unchanged, although it now conflicts with another one that changes "a".
   */
  lemma BarWitness(isNoise: string -> bool, digest: string -> string)
    requires !isNoise("a")
    ensures var before := PR(1, "", "", "", "main", "", ["a|b"], "", false, false, false, []);
            var now, other := before.(files := ["a", "b"]), before.(number := 2, files := ["a"]);
            && !IsChanged(map[1 := ComputeFingerprint(digest, before)], digest, now)
            && PairEdges(isNoise, before, other) == {}
            && PairEdges(isNoise, now, other) == {Edge(1, 2, ConflictsWith)}
  {
    var before := PR(1, "", "", "", "main", "", ["a|b"], "", false, false, false, []);
    var now, other := before.(files := ["a", "b"]), before.(number := 2, files := ["a"]);
    BarJoins();
    assert "a" in now.files && "a" in SharedSignal(isNoise, now, other);
    assert |"a|b"| != |"a"|;
    assert SharedSignal(isNoise, before, other) == {};
  }

  /** What the first loop of Update leaves: the changed and the new pull requests by number. */
  ghost predicate Classified(fingerprints: map<int, Fingerprint>, digest: string -> string, prs: seq<PR>,
                             changedPRs: map<int, PR>, newPRs: map<int, PR>)
  {
    && changedPRs.Keys !! newPRs.Keys
    && changedPRs.Keys + newPRs.Keys == ChangedNumbers(fingerprints, digest, prs)
    && (forall p :: p in prs && p.number in changedPRs ==> changedPRs[p.number] == p)
    && (forall p :: p in prs && p.number in newPRs ==> newPRs[p.number] == p)
  }

  ghost predicate UpToDate(fingerprints: map<int, Fingerprint>, digest: string -> string, prs: seq<PR>, rest: set<int>)
  {
    forall p :: p in prs && p.number !in rest ==> !IsChanged(fingerprints, digest, p)
  }

  lemma ChangedAppend(fingerprints: map<int, Fingerprint>, digest: string -> string, prs: seq<PR>, pr: PR)
    ensures ChangedNumbers(fingerprints, digest, prs + [pr])
         == ChangedNumbers(fingerprints, digest, prs) + (if IsChanged(fingerprints, digest, pr) then {pr.number} else {})
  {
    var all := prs + [pr];
    assert forall p :: p in all <==> p in prs || p == pr;
    var more: set<int> := if IsChanged(fingerprints, digest, pr) then {pr.number} else {};
    SameInts(ChangedNumbers(fingerprints, digest, all), ChangedNumbers(fingerprints, digest, prs) + more);
  }

  lemma RefreshStep(fingerprints: map<int, Fingerprint>, digest: string -> string, prs: seq<PR>,
                    rest: set<int>, num: int, pr: PR)
    requires UpToDate(fingerprints, digest, prs, rest)
    requires forall p :: p in prs && p.number == num ==> p == pr
    ensures UpToDate(fingerprints[num := ComputeFingerprint(digest, pr)], digest, prs, rest - {num})
  {
  }

  /** What an Update from a given cache state has to rebuild in full. */
  ghost predicate RebuildsInFull(needsFullRebuild: bool, fingerprints: map<int, Fingerprint>,
                                 digest: string -> string, prs: seq<PR>)
  {
    needsFullRebuild || prs == [] || 2 * |ChangedNumbers(fingerprints, digest, prs)| > |prs|
  }

  class IncrementalGraph {
    const isNoise: string -> bool
    const digest: string -> string
    var graph: Graph
    var edgeCache: map<Edge, CacheEntry>
    var fingerprints: map<int, Fingerprint>
    var needsFullRebuild: bool

    /** Every cache entry holds the edge of its key, and every current edge is cached. */
    ghost predicate Valid()
      reads this
    {
      CacheConsistent() && forall e :: e in graph.edges ==> e in edgeCache
    }

    ghost predicate CacheConsistent()
      reads this
    {
      forall k :: k in edgeCache ==> edgeCache[k].edge == k
    }

    constructor (isNoise: string -> bool, digest: string -> string)
      ensures Valid() && this.isNoise == isNoise && this.digest == digest
      ensures graph == Graph([], []) && edgeCache == map[] && fingerprints == map[] && !needsFullRebuild
    {
      this.isNoise, this.digest := isNoise, digest;
      graph := Graph([], []);
      edgeCache, fingerprints, needsFullRebuild := map[], map[], false;
    }

    method Invalidate()
      requires Valid()
      modifies this`needsFullRebuild
      ensures Valid() && needsFullRebuild
    {
      needsFullRebuild := true;
    }

    method Clear()
      requires Valid()
      modifies this
      ensures Valid() && graph == Graph([], []) && edgeCache == map[] && fingerprints == map[] && !needsFullRebuild
    {
      graph := Graph([], []);
      edgeCache, fingerprints, needsFullRebuild := map[], map[], false;
    }

    method FingerprintChanged(pr: PR) returns (changed: bool)
      ensures changed == IsChanged(fingerprints, digest, pr)
    {
      var newFP := ComputeFingerprint(digest, pr);
      if pr.number !in fingerprints {
        return true;
      }
      var oldFP := fingerprints[pr.number];
      return newFP.baseBranch != oldFP.baseBranch || newFP.headBranch != oldFP.headBranch ||
        newFP.filesHash != oldFP.filesHash || newFP.mergeable != oldFP.mergeable || newFP.clusterId != oldFP.clusterId;
    }

    /** unchangedPRs, which is passed on but never read, is left out. */
    method Classify(prs: seq<PR>) returns (changedPRs: map<int, PR>, newPRs: map<int, PR>)
      requires DistinctNumbers(prs)
      ensures Classified(fingerprints, digest, prs, changedPRs, newPRs)
    {
      changedPRs, newPRs := map[], map[];
      for i := 0 to |prs|
        invariant forall n :: n in changedPRs ==> n in fingerprints
        invariant forall n :: n in newPRs ==> n !in fingerprints
        invariant changedPRs.Keys + newPRs.Keys == ChangedNumbers(fingerprints, digest, prs[..i])
        invariant forall j :: 0 <= j < i ==>
          (prs[j].number in changedPRs ==> changedPRs[prs[j].number] == prs[j])
          && (prs[j].number in newPRs ==> newPRs[prs[j].number] == prs[j])
      {
        var pr := prs[i];
        assert prs[..i + 1] == prs[..i] + [pr];
        ChangedAppend(fingerprints, digest, prs[..i], pr);
        var changed := FingerprintChanged(pr);
        if pr.number !in fingerprints {
          newPRs := newPRs[pr.number := pr];
        } else if changed {
          changedPRs := changedPRs[pr.number := pr];
        }
      }
      assert prs[..|prs|] == prs;
    }

    /**
     After any history of calls, Update returns the graph Build returns when it rebuilds in full,
     and on the incremental path exactly when the input has no self-stacked pull request.
     */
    method Update(prs: seq<PR>) returns (g: Graph)
      requires Valid() && DistinctNumbers(prs)
      modifies this
      ensures Valid() && g == graph && !needsFullRebuild
      ensures g.nodes == NodesOf(SortedByNumber(prs)) && SortedBy(EdgeLess, g.edges)
      ensures old(RebuildsInFull(needsFullRebuild, fingerprints, digest, prs)) || !HasSelfStacked(prs)
         <==> IsGraphOf(isNoise, prs, g)
      ensures ChangedNumbers(fingerprints, digest, prs) == {}
    {
      if needsFullRebuild {
        g := FullRebuild(prs);
        return;
      }
      var changedPRs, newPRs := Classify(prs);
      UnionSize(changedPRs.Keys, newPRs.Keys);
      var totalPRs := |prs|;
      var changedCount := |changedPRs| + |newPRs|;
      MoreThanHalf(changedCount, totalPRs);
      if totalPRs == 0 || changedCount as real / totalPRs as real > 0.5 {
        g := FullRebuild(prs);
        return;
      }
      g := IncrementalUpdate(prs, changedPRs, newPRs);
      IncrementalGraphAgrees(isNoise, prs, g);
    }

    method FullRebuild(prs: seq<PR>) returns (g: Graph)
      requires DistinctNumbers(prs)
      modifies this
      ensures Valid() && g == graph && !needsFullRebuild
      ensures IsGraphOf(isNoise, prs, g)
      ensures ChangedNumbers(fingerprints, digest, prs) == {}
    {
      graph := Build(isNoise, prs);
      edgeCache, fingerprints := map[], map[];
      RecordFingerprints(prs);
      CacheEdges(graph.edges);
      needsFullRebuild := false;
      g := graph;
    }

    method RecordFingerprints(prs: seq<PR>)
      requires DistinctNumbers(prs)
      modifies this`fingerprints
      ensures ChangedNumbers(fingerprints, digest, prs) == {}
    {
      for i := 0 to |prs|
        invariant forall j :: 0 <= j < i ==> !IsChanged(fingerprints, digest, prs[j])
      {
        fingerprints := fingerprints[prs[i].number := ComputeFingerprint(digest, prs[i])];
      }
    }

    method CacheEdges(edges: seq<Edge>)
      requires CacheConsistent()
      modifies this`edgeCache
      ensures CacheConsistent() && forall e :: e in edges ==> e in edgeCache
    {
      for i := 0 to |edges|
        invariant CacheConsistent() && forall j :: 0 <= j < i ==> edges[j] in edgeCache
      {
        edgeCache := edgeCache[edges[i] := CacheEntry(edges[i])];
      }
    }

    /** The fingerprints of the pull requests to re-evaluate, in any order. */
    method RefreshFingerprints(prs: seq<PR>, changedPRs: map<int, PR>, newPRs: map<int, PR>)
      requires DistinctNumbers(prs) && Classified(fingerprints, digest, prs, changedPRs, newPRs)
      modifies this`fingerprints
      ensures ChangedNumbers(fingerprints, digest, prs) == {}
    {
      var rest := changedPRs.Keys + newPRs.Keys;
      while rest != {}
        invariant rest <= changedPRs.Keys + newPRs.Keys
        invariant UpToDate(fingerprints, digest, prs, rest)
        decreases |rest|
      {
        var num := PickOne(rest);
        var pr := if num in changedPRs then changedPRs[num] else newPRs[num];
        RefreshStep(fingerprints, digest, prs, rest, num, pr);
        fingerprints := fingerprints[num := ComputeFingerprint(digest, pr)];
        rest := rest - {num};
      }
    }

    /** One edge the incremental path finds: taken from the cache when neither end changed, else cached anew. */
    method AddEdge(edge: Edge, affected: bool, list: EdgeList)
      requires CacheConsistent() && list.Valid()
      modifies this`edgeCache, list
      ensures CacheConsistent() && list.Valid()
      ensures list.seen == old(list.seen) + {edge}
      ensures edgeCache.Keys == old(edgeCache.Keys) + {edge}
    {
      if !affected && edge in edgeCache {
        list.Append(edgeCache[edge].edge);
      } else {
        list.Append(edge);
        edgeCache := edgeCache[edge := CacheEntry(edge)];
      }
    }

    method AddPair(left: PR, right: PR, affected: bool, list: EdgeList)
      requires CacheConsistent() && list.Valid()
      modifies this`edgeCache, list
      ensures CacheConsistent() && list.Valid()
      ensures list.seen == old(list.seen) + PairEdges(isNoise, left, right)
      ensures edgeCache.Keys == old(edgeCache.Keys) + PairEdges(isNoise, left, right)
    {
      if left.headBranch != "" && right.baseBranch == left.headBranch {
        AddEdge(Edge(left.number, right.number, DependsOn), affected, list);
      }
      if right.headBranch != "" && left.baseBranch == right.headBranch {
        AddEdge(Edge(right.number, left.number, DependsOn), affected, list);
      }
      var files := ConflictFiles(isNoise, left, right);
      if |files| > 0 {
        AddEdge(Edge(left.number, right.number, ConflictsWith), affected, list);
      }
    }

    /** The pairs of one left pull request with all later ones. */
    method AddRow(sorted: seq<PR>, i: nat, affected: set<int>, list: EdgeList)
      requires i < |sorted| && SortedBy(ByNumber, sorted)
      requires CacheConsistent() && list.Valid()
      requires list.seen <= edgeCache.Keys && list.seen <= IncrementalEdges(isNoise, sorted)
      modifies this`edgeCache, list
      ensures CacheConsistent() && list.Valid()
      ensures list.seen <= edgeCache.Keys && list.seen <= IncrementalEdges(isNoise, sorted)
      ensures list.seen >= old(list.seen)
      ensures forall j :: i < j < |sorted| ==> list.seen >= PairEdges(isNoise, sorted[i], sorted[j])
    {
      var left := sorted[i];
      for j := i + 1 to |sorted|
        invariant CacheConsistent() && list.Valid()
        invariant list.seen <= edgeCache.Keys && list.seen <= IncrementalEdges(isNoise, sorted)
        invariant list.seen >= old(list.seen)
        invariant forall m :: i < m < j ==> list.seen >= PairEdges(isNoise, left, sorted[m])
      {
        var right := sorted[j];
        assert ByNumber(left, right);
        forall e | e in PairEdges(isNoise, left, right) ensures e in IncrementalEdges(isNoise, sorted) {
          IncrementalEdge(isNoise, sorted, left, right, e);
        }
        AddPair(left, right, left.number in affected || right.number in affected, list);
      }
    }

    method IncrementalUpdate(prs: seq<PR>, changedPRs: map<int, PR>, newPRs: map<int, PR>) returns (g: Graph)
      requires Valid() && DistinctNumbers(prs) && Classified(fingerprints, digest, prs, changedPRs, newPRs)
      modifies this
      ensures Valid() && g == graph && needsFullRebuild == old(needsFullRebuild)
      ensures g.nodes == NodesOf(SortedByNumber(prs)) && SortedEdges(g.edges, IncrementalEdges(isNoise, prs))
      ensures ChangedNumbers(fingerprints, digest, prs) == {}
    {
      RefreshFingerprints(prs, changedPRs, newPRs);
      var sorted := SortedByNumber(prs);
      SortedByNumberFacts(prs);
      var list := new EdgeList();
      var affected := changedPRs.Keys + newPRs.Keys;
      for i := 0 to |sorted|
        modifies this`edgeCache, list
        invariant CacheConsistent() && list.Valid()
        invariant list.seen <= edgeCache.Keys && list.seen <= IncrementalEdges(isNoise, sorted)
        invariant forall k, j :: 0 <= k < i && k < j < |sorted| ==> list.seen >= PairEdges(isNoise, sorted[k], sorted[j])
      {
        AddRow(sorted, i, affected, list);
      }
      AllRowsAdded(isNoise, prs, list.seen);
      SortEdges(list.edges, list.seen);
      graph := Graph(NodesOf(sorted), Sort(EdgeLess, list.edges));
      g := graph;
    }
  }

  lemma AllRowsAdded(isNoise: string -> bool, prs: seq<PR>, seen: set<Edge>)
    requires DistinctNumbers(prs)
    requires var sorted := SortedByNumber(prs);
             seen <= IncrementalEdges(isNoise, sorted)
             && forall k, j :: 0 <= k < j < |sorted| ==> seen >= PairEdges(isNoise, sorted[k], sorted[j])
    ensures seen == IncrementalEdges(isNoise, prs)
  {
    SortedByNumberFacts(prs);
    var sorted := SortedByNumber(prs);
    forall l, r, e | l in prs && r in prs && l.number < r.number && e in PairEdges(isNoise, l, r) ensures e in seen {
      var k :| 0 <= k < |sorted| && sorted[k] == l;
      var j :| 0 <= j < |sorted| && sorted[j] == r;
      assert j < k ==> ByNumber(sorted[j], sorted[k]);
      assert seen >= PairEdges(isNoise, sorted[k], sorted[j]);
    }
  }

  lemma IncrementalGraphAgrees(isNoise: string -> bool, prs: seq<PR>, g: Graph)
    requires DistinctNumbers(prs)
    requires g.nodes == NodesOf(SortedByNumber(prs)) && SortedEdges(g.edges, IncrementalEdges(isNoise, prs))
    ensures IsGraphOf(isNoise, prs, g) <==> !HasSelfStacked(prs)
  {
    IncrementalAgrees(isNoise, prs);
    if IsGraphOf(isNoise, prs, g) {
      assert IncrementalEdges(isNoise, prs) == AllPairsEdges(isNoise, prs) by {
        forall e ensures e in IncrementalEdges(isNoise, prs) <==> e in AllPairsEdges(isNoise, prs) {
          assert e in g.edges <==> e in IncrementalEdges(isNoise, prs);
        }
      }
    }
  }

  lemma MoreThanHalf(count: nat, total: nat)
    ensures total > 0 ==> (count as real / total as real > 0.5 <==> 2 * count > total)
  {
    if total > 0 {
      var c, t := count as real, total as real;
      assert (c / t) * t == c;
      if c / t > 0.5 { assert c > 0.5 * t; }
      if c / t <= 0.5 { assert c <= 0.5 * t; }
    }
  }

  lemma UnionSize(a: set<int>, b: set<int>)
    requires a !! b
    ensures |a + b| == |a| + |b|
  {
  }

  lemma BothNew(digest: string -> string, a: PR, b: PR)
    requires a.number != b.number
    ensures |ChangedNumbers(map[], digest, [a, b])| == 2
  {
    var fingerprints: map<int, Fingerprint>, none: seq<PR> := map[], [];
    ChangedAppend(fingerprints, digest, none, a);
    assert none + [a] == [a] && ChangedNumbers(fingerprints, digest, none) == {};
    assert ChangedNumbers(fingerprints, digest, [a]) == {a.number};
    ChangedAppend(fingerprints, digest, [a], b);
    assert [a] + [b] == [a, b];
    UnionSize({a.number}, {b.number});
  }

  /**
   Two updates with the same input, main to main beside another pull request on main: the first
   rebuilds and returns Build's graph, the second takes the incremental path and does not.
   */
  method UpdatesDisagree(isNoise: string -> bool, digest: string -> string)
    returns (prs: seq<PR>, first: Graph, second: Graph)
    ensures DistinctNumbers(prs) && IsGraphOf(isNoise, prs, first) && !IsGraphOf(isNoise, prs, second)
  {
    var a := PR(1, "", "", "", "main", "main", [], "", false, false, false, []);
    var b := PR(2, "", "", "", "main", "topic", [], "", false, false, false, []);
    prs := [a, b];
    assert a in prs && b in prs && SelfStacked(a, b);
    var graph := new IncrementalGraph(isNoise, digest);
    BothNew(digest, a, b);
    first := graph.Update(prs);
    second := graph.Update(prs);
  }
}
