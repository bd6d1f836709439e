/**
 The two notions of conflict in the planner: the conflict edges of the graph (internal/graph/graph.go,
 conflictFiles) and the pairs the sharded scan reports (internal/planning/pairwise.go). The scan does
 not filter noise files, and one conflict signal is enough for it.
 */
module ConflictRelations {
  import opened Sorting
  import opened PullRequests
  import opened Graphs
  import opened Pairwise
  import opened PairwiseResult

  predicate Signals(pr: PR)
  {
    pr.mergeable == "conflicting"
  }

  /** A pair the scan reports and the graph does not join: no shared signal file, and not two signals. */
  predicate OnlyScanned(isNoise: string -> bool, l: PR, r: PR)
  {
    && l.baseBranch != "" && l.baseBranch == r.baseBranch
    && SharedSignal(isNoise, l, r) == {} && !(Signals(l) && Signals(r))
    && (SharedFiles(l, r) != {} || Signals(l) || Signals(r))
  }

  /** The scan reports every conflict of the graph, and beyond them exactly the pairs of OnlyScanned. */
  lemma ScanExceedsGraph(isNoise: string -> bool, l: PR, r: PR)
    ensures Conflicting(isNoise, l, r) ==> Overlaps(l, r)
    ensures Overlaps(l, r) && !Conflicting(isNoise, l, r) <==> OnlyScanned(isNoise, l, r)
  {
    forall f | f in SharedSignal(isNoise, l, r) ensures f in SharedFiles(l, r) {}
  }

  ghost predicate SameConflicts(isNoise: string -> bool, prs: seq<PR>)
  {
    forall i, j :: 0 <= i < j < |prs| ==>
      (Hit(prs, i, j) <==> Edge(prs[i].number, prs[j].number, ConflictsWith) in AllPairsEdges(isNoise, prs))
  }

  /** Over a whole input the scan's pairs are the graph's conflict edges if and only if no pair is only scanned. */
  lemma ScanIsGraphIff(isNoise: string -> bool, prs: seq<PR>)
    requires SortedBy(ByNumber, prs)
    ensures SameConflicts(isNoise, prs)
       <==> forall i, j :: 0 <= i < j < |prs| ==> !OnlyScanned(isNoise, prs[i], prs[j])
  {
    forall i, j | 0 <= i < j < |prs|
      ensures (Hit(prs, i, j) <==> Edge(prs[i].number, prs[j].number, ConflictsWith) in AllPairsEdges(isNoise, prs))
         <==> !OnlyScanned(isNoise, prs[i], prs[j])
    {
      PairAgrees(isNoise, prs, i, j);
    }
  }

  lemma PairAgrees(isNoise: string -> bool, prs: seq<PR>, i: nat, j: nat)
    requires SortedBy(ByNumber, prs) && i < j < |prs|
    ensures (Hit(prs, i, j) <==> Edge(prs[i].number, prs[j].number, ConflictsWith) in AllPairsEdges(isNoise, prs))
       <==> !OnlyScanned(isNoise, prs[i], prs[j])
  {
    forall a, b | 0 <= a < b < |prs| ensures prs[a].number < prs[b].number {
      assert ByNumber(prs[a], prs[b]);
    }
    EdgeMeaning(isNoise, prs, prs[i], prs[j]);
    ScanExceedsGraph(isNoise, prs[i], prs[j]);
  }

  /**
   The reason text for a reported pair without shared files says that both pull requests signal a
   conflict. It is false exactly when one of them does not.
   */
  lemma ReasonFalseIff(prs: seq<PR>, i: nat, j: nat)
    requires Hit(prs, i, j)
    ensures !RecordOf(prs, (i, j)).fileOverlap && !(Signals(prs[i]) && Signals(prs[j]))
       <==> SharedFiles(prs[i], prs[j]) == {} && Signals(prs[i]) != Signals(prs[j])
  {
  }

  function Sample(number: int, files: seq<string>, mergeable: string): PR
  {
    PR(number, "", "", "", "main", "", files, mergeable, false, false, false, [])
  }

  /** One signal and no shared file: reported with the false reason, and no edge of the graph. */
  lemma OneSignalWitness(isNoise: string -> bool)
    ensures var l, r := Sample(1, [], "conflicting"), Sample(2, [], "");
            && Hit([l, r], 0, 1) && !RecordOf([l, r], (0, 1)).fileOverlap && !Signals(r)
            && Edge(1, 2, ConflictsWith) !in AllPairsEdges(isNoise, [l, r])
  {
    var l, r := Sample(1, [], "conflicting"), Sample(2, [], "");
    assert [l, r][0] == l && [l, r][1] == r && ByNumber(l, r);
    assert Signals(l) && !Signals(r) && SharedFiles(l, r) == {};
    PairAgrees(isNoise, [l, r], 0, 1);
  }

  /** Only a noise file in common: reported as a file overlap, and no edge of the graph. */
  lemma NoiseFileWitness(isNoise: string -> bool, f: string)
    requires isNoise(f)
    ensures var l, r := Sample(1, [f], ""), Sample(2, [f], "");
            && Hit([l, r], 0, 1) && RecordOf([l, r], (0, 1)).fileOverlap
            && Edge(1, 2, ConflictsWith) !in AllPairsEdges(isNoise, [l, r])
  {
    var l, r := Sample(1, [f], ""), Sample(2, [f], "");
    assert [l, r][0] == l && [l, r][1] == r && ByNumber(l, r);
    assert f in SharedFiles(l, r);
    assert SharedSignal(isNoise, l, r) == {} && !Signals(l);
    PairAgrees(isNoise, [l, r], 0, 1);
  }
}
