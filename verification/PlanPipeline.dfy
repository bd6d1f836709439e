/**
 Planner.Plan (internal/planner/planner.go) with the filters of internal/filter: filter, search,
 drop repetitions, record what was not selected, order by dependencies. The priority, the cluster
 of each number and the score are parameters; telemetry, warnings and texts are left out.
 */
module PlanPipeline {
  import opened Results
  import opened Integers
  import opened Sequences
  import opened Sorting
  import opened PullRequests
  import opened Rejections
  import opened Graphs
  import opened TopologicalSort
  import opened DependencyOrder
  import opened Counting
  import opened TierSearch

  /** Full pull requests stand for the candidates made from them. */
  datatype PlanResponse = PlanResponse(poolSize: nat, selected: seq<PR>, ordering: seq<PR>, rejections: seq<Rejection>)

  datatype PlanError = InvalidTarget | SearchFailed(error: SearchError)

  // ---------- the filters ----------

  predicate FilterDraft(pr: PR) { pr.isDraft }

  predicate FilterMergeConflict(pr: PR) { pr.mergeable == "conflicting" }

  predicate FilterCIFailure(pr: PR) { pr.ciStatus == "failure" }

  predicate FilterBot(pr: PR) { pr.isBot }

  predicate Passes(includeBots: bool, pr: PR)
  {
    !FilterDraft(pr) && !FilterMergeConflict(pr) && !FilterCIFailure(pr) && (includeBots || !FilterBot(pr))
  }

  /** The filter that rejects a pull request first, if one does. */
  function ReasonFor(includeBots: bool, pr: PR): (reason: Option<RejectionReason>)
    ensures reason.None? <==> Passes(includeBots, pr)
  {
    if FilterDraft(pr) then Some(Draft)
    else if FilterMergeConflict(pr) then Some(MergeConflict)
    else if FilterCIFailure(pr) then Some(CIFailure)
    else if !includeBots && FilterBot(pr) then Some(Bot)
    else None
  }

  method ApplyFilters(prs: seq<PR>, includeBots: bool) returns (pool: seq<PR>, rejections: seq<Rejection>)
    ensures Conserved(prs, pool, rejections)
    ensures forall pr :: pr in pool <==> pr in prs && Passes(includeBots, pr)
    ensures forall r :: r in rejections ==>
              exists pr :: pr in prs && r.number == pr.number && ReasonFor(includeBots, pr) == Some(r.reason)
  {
    pool, rejections := [], [];
    for i := 0 to |prs|
      invariant Conserved(prs[..i], pool, rejections)
      invariant forall pr :: pr in pool <==> pr in prs[..i] && Passes(includeBots, pr)
      invariant forall r :: r in rejections ==>
                  exists pr :: pr in prs && r.number == pr.number && ReasonFor(includeBots, pr) == Some(r.reason)
    {
      var pr := prs[i];
      assert prs[..i + 1] == prs[..i] + [pr];
      var reason := ReasonFor(includeBots, pr);
      var rejection := Rejection(pr.number, if reason.Some? then reason.value else NotSelectedByStrategy);
      ConservedStep(prs[..i], pr, pool, pr, rejections, rejection);
      if reason.Some? {
        rejections := rejections + [rejection];
      } else {
        pool := pool + [pr];
      }
    }
    assert prs[..|prs|] == prs;
  }

  /** AssignClusterIDs on one pull request. */
  function Assigned(clusterOf: map<int, string>, pr: PR): PR
  {
    if pr.clusterId == "" && pr.number in clusterOf then pr.(clusterId := clusterOf[pr.number]) else pr
  }

  function AssignAll(clusterOf: map<int, string>, prs: seq<PR>): (r: seq<PR>)
    ensures |r| == |prs| && forall i :: 0 <= i < |prs| ==> r[i] == Assigned(clusterOf, prs[i])
  {
    seq(|prs|, i requires 0 <= i < |prs| => Assigned(clusterOf, prs[i]))
  }

  /** ScoreAndSortPool's order: higher priority first, then lower number. */
  function ByPriority(priority: PR -> real): (PR, PR) -> bool
  {
    (a: PR, b: PR) => if priority(a) == priority(b) then a.number < b.number else priority(a) > priority(b)
  }

  /** Sorting keeps every number. */
  lemma SortNumbers(less: (PR, PR) -> bool, s: seq<PR>)
    ensures multiset(PRNumbers(Sort(less, s))) == multiset(PRNumbers(s))
  {
    var key := (pr: PR) => pr.number;
    SortKeys(less, key, s);
    assert Keys(key, s) == PRNumbers(s);
    assert Keys(key, Sort(less, s)) == PRNumbers(Sort(less, s));
  }

  /** Priority, with the number deciding ties, is a strict total order on distinct numbers, so the sort has one outcome. */
  lemma PrioritySorted(priority: PR -> real, prs: seq<PR>)
    requires DistinctNumbers(prs)
    ensures SortedBy(ByPriority(priority), Sort(ByPriority(priority), prs))
  {
    var less := ByPriority(priority);
    assert StrictOrder(less);
    forall x, y | x in prs && y in prs && x != y ensures less(x, y) || less(y, x) {
      if x.number == y.number { NumbersIdentify(prs, x, y); }
    }
    SortSorted(less, prs);
  }

  /** The candidate pool: what passes the filters, with clusters assigned. */
  ghost predicate IsPool(prs: seq<PR>, includeBots: bool, clusterOf: map<int, string>, pool: seq<PR>)
  {
    DistinctNumbers(pool)
    && forall pr :: pr in pool <==> exists p :: p in prs && Passes(includeBots, p) && pr == Assigned(clusterOf, p)
  }

  lemma PoolMembers(prs: seq<PR>, includeBots: bool, clusterOf: map<int, string>, passed: seq<PR>, pool: seq<PR>)
    requires forall pr :: pr in passed <==> pr in prs && Passes(includeBots, pr)
    requires DistinctNumbers(pool) && forall pr :: pr in pool <==> pr in AssignAll(clusterOf, passed)
    ensures IsPool(prs, includeBots, clusterOf, pool)
  {
    var clustered := AssignAll(clusterOf, passed);
    forall pr
      ensures pr in pool <==> exists p :: p in prs && Passes(includeBots, p) && pr == Assigned(clusterOf, p)
    {
      if pr in pool {
        var k :| 0 <= k < |clustered| && clustered[k] == pr;
        assert passed[k] in passed;
      }
      if p :| p in prs && Passes(includeBots, p) && pr == Assigned(clusterOf, p) {
        assert p in passed;
        var k :| 0 <= k < |passed| && passed[k] == p;
        assert clustered[k] == pr;
      }
    }
  }

  method BuildCandidatePool(prs: seq<PR>, includeBots: bool, clusterOf: map<int, string>, priority: PR -> real)
    returns (pool: seq<PR>, rejections: seq<Rejection>)
    requires DistinctNumbers(prs)
    ensures Conserved(prs, pool, rejections)
    ensures IsPool(prs, includeBots, clusterOf, pool)
    ensures SortedBy(ByPriority(priority), pool)
    ensures pool == [] <==> forall pr :: pr in prs ==> !Passes(includeBots, pr)
    ensures |pool| <= |prs|
  {
    pool, rejections := ApplyFilters(prs, includeBots);
    PoolSize(prs, pool, rejections);
    DistinctByNumbers(prs, pool);
    FirstIsMember(pool);
    if |pool| == 0 {
      return;
    }
    ghost var passed := pool;
    pool := AssignAll(clusterOf, pool);
    assert PRNumbers(pool) == PRNumbers(passed);
    ghost var clustered := pool;
    pool := Sort(ByPriority(priority), pool);
    SortMembers(ByPriority(priority), clustered);
    SortNumbers(ByPriority(priority), clustered);
    PrioritySorted(priority, clustered);
    DistinctByNumbers(passed, pool);
    PoolMembers(prs, includeBots, clusterOf, passed, pool);
  }

  lemma PoolSize(prs: seq<PR>, pool: seq<PR>, rejections: seq<Rejection>)
    requires Conserved(prs, pool, rejections)
    ensures |pool| <= |prs|
  {
    assert |multiset(PRNumbers(pool)) + multiset(RejectionNumbers(rejections))| == |pool| + |rejections|;
  }

  /** Keeping numbers, or fewer of them, keeps them distinct. */
  lemma DistinctByNumbers(a: seq<PR>, b: seq<PR>)
    requires DistinctNumbers(a) && multiset(PRNumbers(b)) <= multiset(PRNumbers(a))
    ensures DistinctNumbers(b)
  {
    DistinctOnce(PRNumbers(a));
    OnceMeansDistinct(PRNumbers(b));
    forall i, j | 0 <= i < j < |b| ensures b[i].number != b[j].number {
      assert PRNumbers(b)[i] != PRNumbers(b)[j];
    }
  }

  // ---------- after the search ----------

  /** Drops repeated numbers, keeping first occurrences; seen is the map the source fills. */
  method RemoveRepeats(raw: seq<PR>) returns (selected: seq<PR>, seen: set<int>)
    ensures DistinctNumbers(selected) && forall pr :: pr in selected ==> pr in raw
    ensures forall x: int :: x in seen <==> x in PRNumbers(selected)
    ensures forall x: int :: x in seen <==> x in PRNumbers(raw)
    ensures DistinctNumbers(raw) ==> selected == raw
  {
    selected, seen := [], {};
    for i := 0 to |raw|
      invariant DistinctNumbers(selected) && forall pr :: pr in selected ==> pr in raw
      invariant forall x: int :: x in seen <==> x in PRNumbers(selected)
      invariant forall x: int :: x in seen <==> x in PRNumbers(raw[..i])
      invariant DistinctNumbers(raw) ==> selected == raw[..i]
    {
      var pr := raw[i];
      assert raw[..i + 1] == raw[..i] + [pr];
      assert PRNumbers(raw[..i + 1]) == PRNumbers(raw[..i]) + [pr.number];
      assert PRNumbers(selected + [pr]) == PRNumbers(selected) + [pr.number];
      DistinctAppend(selected, pr);
      if DistinctNumbers(raw) { NumberIsNew(raw, i); }
      if pr.number in seen {
        continue;
      }
      seen := seen + {pr.number};
      selected := selected + [pr];
    }
    assert raw[..|raw|] == raw;
  }

  lemma NumberIsNew(raw: seq<PR>, i: nat)
    requires DistinctNumbers(raw) && i < |raw|
    ensures raw[i].number !in PRNumbers(raw[..i])
  {
  }

  lemma DistinctAppend(prs: seq<PR>, pr: PR)
    requires DistinctNumbers(prs)
    ensures pr.number !in PRNumbers(prs) ==> DistinctNumbers(prs + [pr])
  {
    if pr.number !in PRNumbers(prs) {
      forall i | 0 <= i < |prs| ensures prs[i].number != pr.number {
        assert PRNumbers(prs)[i] in PRNumbers(prs);
      }
    }
  }

  /** Every pool member not selected is rejected, which restores conservation for the selection. */
  method RejectUnselected(ghost prs: seq<PR>, pool: seq<PR>, selected: seq<PR>, seen: set<int>, early: seq<Rejection>)
    returns (rejections: seq<Rejection>)
    requires Conserved(prs, pool, early) && DistinctNumbers(pool) && DistinctNumbers(selected)
    requires forall pr :: pr in selected ==> pr in pool
    requires forall x: int :: x in seen <==> x in PRNumbers(selected)
    ensures Conserved(prs, selected, rejections)
    ensures forall r :: r in rejections ==> r in early || r.reason == NotSelectedByStrategy
  {
    rejections := early;
    ghost var taken: seq<PR>, late: seq<Rejection> := [], [];
    for i := 0 to |pool|
      invariant Splits(pool[..i], seen, taken, late) && rejections == early + late
    {
      var pr := pool[i];
      var rejection := Rejection(pr.number, NotSelectedByStrategy);
      assert pool[..i + 1] == pool[..i] + [pr];
      SplitsStep(pool[..i], pr, seen, taken, late, rejection);
      if pr.number !in seen {
        rejections := rejections + [rejection];
        late := late + [rejection];
      } else {
        taken := taken + [pr];
      }
    }
    assert pool[..|pool|] == pool;
    TakenIsSelected(pool, taken, late, selected, seen);
    ConservedInTwoSteps(prs, pool, early, taken, late, selected);
  }

  /** The pool members looked at so far, divided into selected and rejected ones. */
  ghost predicate Splits(pool: seq<PR>, seen: set<int>, taken: seq<PR>, late: seq<Rejection>)
  {
    && Conserved(pool, taken, late)
    && (forall pr :: pr in taken <==> pr in pool && pr.number in seen)
    && (forall r :: r in late ==> r.reason == NotSelectedByStrategy)
  }

  lemma SplitsStep(pool: seq<PR>, pr: PR, seen: set<int>, taken: seq<PR>, late: seq<Rejection>, r: Rejection)
    requires Splits(pool, seen, taken, late) && r == Rejection(pr.number, NotSelectedByStrategy)
    ensures pr.number in seen ==> Splits(pool + [pr], seen, taken + [pr], late)
    ensures pr.number !in seen ==> Splits(pool + [pr], seen, taken, late + [r])
  {
    ConservedStep(pool, pr, taken, pr, late, r);
  }

  lemma ConservedInTwoSteps(prs: seq<PR>, pool: seq<PR>, early: seq<Rejection>, taken: seq<PR>, late: seq<Rejection>,
                            selected: seq<PR>)
    requires Conserved(prs, pool, early) && Conserved(pool, taken, late)
    requires multiset(PRNumbers(taken)) == multiset(PRNumbers(selected))
    ensures Conserved(prs, selected, early + late)
  {
    assert RejectionNumbers(early + late) == RejectionNumbers(early) + RejectionNumbers(late);
  }

  lemma TakenIsSelected(pool: seq<PR>, taken: seq<PR>, late: seq<Rejection>, selected: seq<PR>, seen: set<int>)
    requires Conserved(pool, taken, late) && DistinctNumbers(pool) && DistinctNumbers(selected)
    requires forall pr :: pr in taken <==> pr in pool && pr.number in seen
    requires forall pr :: pr in selected ==> pr in pool
    requires forall x: int :: x in seen <==> x in PRNumbers(selected)
    ensures multiset(PRNumbers(taken)) == multiset(PRNumbers(selected))
  {
    DistinctByNumbers(pool, taken);
    forall x: int ensures x in PRNumbers(taken) <==> x in PRNumbers(selected) {
      if x in PRNumbers(taken) {
        var k :| 0 <= k < |taken| && PRNumbers(taken)[k] == x;
        assert taken[k] in taken;
      }
      if x in PRNumbers(selected) {
        var k :| 0 <= k < |selected| && PRNumbers(selected)[k] == x;
        assert selected[k] in selected && selected[k] in taken;
        var m :| 0 <= m < |taken| && taken[m] == selected[k];
        assert PRNumbers(taken)[m] == x;
      }
    }
    SameInts(Elements(PRNumbers(taken)), Elements(PRNumbers(selected)));
    SameElements(PRNumbers(taken), PRNumbers(selected));
  }

  predicate RejectionLess(a: Rejection, b: Rejection)
  {
    a.number < b.number
  }

  lemma RejectionsDistinct(prs: seq<PR>, kept: seq<PR>, rejections: seq<Rejection>)
    requires DistinctNumbers(prs) && Conserved(prs, kept, rejections)
    ensures Distinct(RejectionNumbers(rejections))
  {
    DistinctOnce(PRNumbers(prs));
    assert multiset(RejectionNumbers(rejections)) <= multiset(PRNumbers(prs));
    OnceMeansDistinct(RejectionNumbers(rejections));
  }

  /** The final sort.Slice: over distinct numbers it has one outcome, in increasing order. */
  lemma SortedRejections(prs: seq<PR>, selected: seq<PR>, rejections: seq<Rejection>)
    requires DistinctNumbers(prs) && Conserved(prs, selected, rejections)
    ensures Conserved(prs, selected, Sort(RejectionLess, rejections))
    ensures StrictlyIncreasing(RejectionNumbers(Sort(RejectionLess, rejections)))
    ensures forall r :: r in Sort(RejectionLess, rejections) <==> r in rejections
  {
    var key, sorted := (r: Rejection) => r.number, Sort(RejectionLess, rejections);
    SortKeys(RejectionLess, key, rejections);
    assert Keys(key, rejections) == RejectionNumbers(rejections);
    assert Keys(key, sorted) == RejectionNumbers(sorted);
    RejectionsDistinct(prs, selected, rejections);
    forall i, j | 0 <= i < j < |rejections| ensures rejections[i].number != rejections[j].number {
      assert RejectionNumbers(rejections)[i] != RejectionNumbers(rejections)[j];
    }
    assert StrictOrder(RejectionLess) && TotalOn(RejectionLess, rejections);
    SortSorted(RejectionLess, rejections);
    forall i, j | 0 <= i < j < |sorted| ensures RejectionNumbers(sorted)[i] < RejectionNumbers(sorted)[j] {
      assert RejectionLess(sorted[i], sorted[j]);
    }
  }

  // ---------- ordering the selection ----------

  lemma NumbersOfNodes(selected: seq<PR>, g: Graph)
    requires DistinctNumbers(selected) && g.nodes == NodesOf(SortedByNumber(selected))
    ensures DistinctNodes(g)
    ensures forall x: int :: x in NodeSet(g) <==> x in PRNumbers(selected)
  {
    SortedByNumberFacts(selected);
    NodeSetIs(g);
    var sorted := SortedByNumber(selected);
    forall x: int ensures x in NodeSet(g) <==> x in PRNumbers(selected) {
      if x in PRNumbers(selected) {
        var k :| 0 <= k < |selected| && selected[k].number == x;
        assert selected[k] in sorted;
        var m :| 0 <= m < |sorted| && sorted[m] == selected[k];
        assert Numbers(g.nodes)[m] == x;
      }
      if x in Numbers(g.nodes) {
        var m :| 0 <= m < |sorted| && Numbers(g.nodes)[m] == x;
        assert sorted[m] in selected;
        var k :| 0 <= k < |selected| && selected[k] == sorted[m];
        assert PRNumbers(selected)[k] == x;
      }
    }
  }

  /** The graph Build makes of a selection holds exactly its stacked pairs. */
  lemma SelectionPairs(isNoise: string -> bool, selected: seq<PR>, g: Graph)
    requires DistinctNumbers(selected) && IsGraphOf(isNoise, selected, g)
    ensures PairsOf(Dependencies(g), PRNumbers(selected), selected)
  {
    NumbersOfNodes(selected, g);
    DependencyPairsMeaning(NodeSet(g), g.edges);
    forall a: int, b: int
      ensures (a, b) in Dependencies(g) <==> DependsAmong(PRNumbers(selected), selected, a, b)
    {
      DependencyEdges(isNoise, selected, a, b);
    }
  }

  /** ordered is the least dependency order of the selection, or its order by number if there is none. */
  ghost predicate IsOrderingOf(selected: seq<PR>, ordered: seq<PR>)
  {
    if Circular(PRNumbers(selected), selected) then ordered == SortedByNumber(selected)
    else exists pairs :: LeastOrder(PRNumbers(selected), selected, pairs, PRNumbers(ordered))
  }

  method IndexByNumber(selected: seq<PR>) returns (byNumber: map<int, PR>)
    ensures forall x: int :: x in byNumber <==> x in PRNumbers(selected)
    ensures forall x: int :: x in byNumber ==> byNumber[x] in selected && byNumber[x].number == x
  {
    byNumber := map[];
    for i := 0 to |selected|
      invariant forall x: int :: x in byNumber <==> x in PRNumbers(selected)[..i]
      invariant forall x: int :: x in byNumber ==> byNumber[x] in selected && byNumber[x].number == x
    {
      byNumber := byNumber[selected[i].number := selected[i]];
    }
    assert PRNumbers(selected)[..|selected|] == PRNumbers(selected);
  }

  method OrderSelection(isNoise: string -> bool, selected: seq<PR>) returns (ordered: seq<PR>)
    requires DistinctNumbers(selected)
    ensures IsOrderingOf(selected, ordered)
    ensures multiset(PRNumbers(ordered)) == multiset(PRNumbers(selected))
    ensures forall pr :: pr in ordered ==> pr in selected
  {
    if |selected| == 0 {
      OrderOfNothing();
      return [];
    }
    var g := Build(isNoise, selected);
    SelectionPairs(isNoise, selected, g);
    NumbersOfNodes(selected, g);
    CircularMeansCycle(Dependencies(g), PRNumbers(selected), selected);
    var nodes := TopologicalOrder(g);
    if nodes.Err? {
      SortNumbers(ByNumber, selected);
      SortMembers(ByNumber, selected);
      return SortedByNumber(selected);
    }
    SameInts(NodeSet(g), Elements(PRNumbers(selected)));
    forall i | 0 <= i < |nodes.value| ensures nodes.value[i].number in PRNumbers(selected) {
      assert Numbers(nodes.value)[i] in Elements(Numbers(nodes.value));
    }
    ordered := MapBack(nodes.value, selected);
    assert LeastOrder(PRNumbers(selected), selected, Dependencies(g), PRNumbers(ordered));
    DistinctPRNumbers(selected);
    SameElements(PRNumbers(ordered), PRNumbers(selected));
  }

  method MapBack(nodes: seq<Node>, selected: seq<PR>) returns (ordered: seq<PR>)
    requires forall i :: 0 <= i < |nodes| ==> nodes[i].number in PRNumbers(selected)
    ensures PRNumbers(ordered) == Numbers(nodes)
    ensures forall pr :: pr in ordered ==> pr in selected
  {
    var byNumber := IndexByNumber(selected);
    ordered := [];
    for i := 0 to |nodes|
      invariant |ordered| == i && forall k :: 0 <= k < i ==> ordered[k].number == nodes[k].number
      invariant forall pr :: pr in ordered ==> pr in selected
    {
      ordered := ordered + [byNumber[nodes[i].number]];
    }
  }

  lemma DistinctPRNumbers(prs: seq<PR>)
    requires DistinctNumbers(prs)
    ensures Distinct(PRNumbers(prs))
  {
  }

  // ---------- Plan ----------

  function EffectiveTarget(target: int): int
  {
    if target <= 0 then 20 else target
  }

  function EffectiveMode(mode: Mode): Mode
  {
    if mode == NO_MODE then Combination else mode
  }

  /** A configuration never set: Go's zero value. */
  const UNSET := Config(NO_MODE, 0, 0, false, [])

  /** The search Plan runs on a candidate pool. */
  function SearchConfig(mode: Mode): Config
  {
    DEFAULT_CONFIG.(mode := EffectiveMode(mode))
  }

  function SearchInput(pool: seq<PR>, target: int, mode: Mode): Input
  {
    var pick := EffectiveTarget(target);
    Input(pool, if pick > |pool| && EffectiveMode(mode) != WithReplacement then |pool| else pick, true)
  }

  /** With a known mode and a nonempty pool the exhaustive tier always has candidates. */
  lemma SearchSucceeds(pool: seq<PR>, target: int, mode: Mode)
    requires pool != []
    ensures WithDefaults(SearchConfig(mode)) == SearchConfig(mode)
    ensures (exists t :: t in DEFAULT_TIERS && Searchable(SearchConfig(mode), SearchInput(pool, target, mode), t))
       <==> !EffectiveMode(mode).UnknownMode?
  {
    var exhaustive := DEFAULT_TIERS[2];
    assert exhaustive in DEFAULT_TIERS;
    assert pool[0] in pool && Eligible(exhaustive.name, pool[0]);
    assert forall t :: t in DEFAULT_TIERS ==> t.mode == NO_MODE;
  }

  /** best is what the search over the pool keeps. */
  ghost predicate IsWinner(pool: seq<PR>, target: int, mode: Mode, score: Score, best: Option<Scored>)
  {
    && best.Some?
    && best == BestOf(Evaluated(SearchConfig(mode), SearchInput(pool, target, mode), score, DEFAULT_TIERS))
  }

  /** The winner's selection comes from the pool. */
  lemma WinnerInPool(pool: seq<PR>, target: int, mode: Mode, score: Score, best: Scored)
    requires DistinctNumbers(pool) && pool != [] && IsWinner(pool, target, mode, score, Some(best))
    ensures forall pr :: pr in best.selected ==> pr in pool
    ensures EffectiveMode(mode) != WithReplacement ==> DistinctNumbers(best.selected)
  {
    var c, input := SearchConfig(mode), SearchInput(pool, target, mode);
    var evaluated := Evaluated(c, input, score, DEFAULT_TIERS);
    var i := BestOfIsFirstBest(evaluated);
    assert evaluated[i] in evaluated;
    var tier := EvaluatedAreSelections(c, input, score, DEFAULT_TIERS, best);
    assert forall t :: t in DEFAULT_TIERS ==> t.mode == NO_MODE;
  }

  /** The winner with repeated numbers dropped. */
  ghost predicate IsSelected(best: Option<Scored>, selected: seq<PR>)
    requires best.Some?
  {
    && DistinctNumbers(selected)
    && (forall pr :: pr in selected ==> pr in best.value.selected)
    && (forall x: int :: x in PRNumbers(selected) <==> x in PRNumbers(best.value.selected))
    && (DistinctNumbers(best.value.selected) ==> selected == best.value.selected)
  }

  lemma OrderOfNothing()
    ensures IsOrderingOf([], []) && PRNumbers([]) == []
  {
    NoneNoCircle([]);
    EmptyLeastPrefix([], 0);
    assert PRNumbers([]) == [];
  }

  /** The search step: it fails exactly when the mode is unknown. */
  method SearchPool(config: Config, pool: seq<PR>, target: int, mode: Mode, score: Score)
    returns (r: Result<Scored, SearchError>)
    requires config == SearchConfig(mode) && pool != [] && |pool| <= MAX_INT
    ensures r.Err? <==> EffectiveMode(mode).UnknownMode?
    ensures r.Err? ==> r.error == NoCandidates
    ensures r.Ok? ==> IsWinner(pool, target, mode, score, Some(r.value))
  {
    SearchSucceeds(pool, target, mode);
    var pickCount := EffectiveTarget(target);
    if pickCount > |pool| && EffectiveMode(mode) != WithReplacement {
      pickCount := |pool|;
    }
    var input := Input(pool, pickCount, true);
    assert input == SearchInput(pool, target, mode) && input.target > 0 && Accepts(config, input);
    assert WithDefaults(config) == config && config.tiers == DEFAULT_TIERS;
    var found := Search(config, input, score);
    assert found.Err? ==> found.error == NoCandidates;
    r := if found.Ok? then Ok(found.value.best) else Err(found.error);
  }

  /** From the winner to the response. */
  method Conclude(ghost prs: seq<PR>, pool: seq<PR>, early: seq<Rejection>, ghost target: int, ghost mode: Mode,
                  ghost score: Score, best: Scored, isNoise: string -> bool)
    returns (response: PlanResponse)
    requires DistinctNumbers(prs) && Conserved(prs, pool, early) && DistinctNumbers(pool) && pool != []
    requires IsWinner(pool, target, mode, score, Some(best))
    ensures Conserved(prs, response.selected, response.rejections) && response.poolSize == |pool|
    ensures StrictlyIncreasing(RejectionNumbers(response.rejections))
    ensures multiset(PRNumbers(response.ordering)) == multiset(PRNumbers(response.selected))
    ensures IsOrderingOf(response.selected, response.ordering)
    ensures IsSelected(Some(best), response.selected)
  {
    WinnerInPool(pool, target, mode, score, best);
    var selected, seen := RemoveRepeats(best.selected);
    var rejections := RejectUnselected(prs, pool, selected, seen, early);
    var ordering := OrderSelection(isNoise, selected);
    SortedRejections(prs, selected, rejections);
    response := PlanResponse(|pool|, selected, ordering, Sort(RejectionLess, rejections));
  }

  class Planner {
    const includeBots: bool
    const minTarget: int
    const maxTarget: int
    var formulaConfig: Config

    /** The cached configuration is unset or the default one with the mode of the last call. */
    ghost predicate Valid()
      reads this
    {
      formulaConfig.mode != NO_MODE ==> formulaConfig == DEFAULT_CONFIG.(mode := formulaConfig.mode)
    }

    constructor (includeBots: bool, minTarget: int, maxTarget: int)
      ensures Valid() && formulaConfig == UNSET
      ensures this.includeBots == includeBots && this.minTarget == minTarget && this.maxTarget == maxTarget
    {
      this.includeBots, this.minTarget, this.maxTarget := includeBots, minTarget, maxTarget;
      formulaConfig := UNSET;
    }

    predicate TargetAllowed(target: int)
    {
      minTarget <= EffectiveTarget(target) <= maxTarget
    }

    /** pool and best: the candidate pool, and the search's winner when the pool is not empty. */
    method Plan(prs: seq<PR>, target: int, mode: Mode, isNoise: string -> bool, clusterOf: map<int, string>,
                priority: PR -> real, score: Score)
      returns (r: Result<PlanResponse, PlanError>, ghost pool: seq<PR>, ghost best: Option<Scored>)
      requires Valid() && DistinctNumbers(prs) && |prs| <= MAX_INT
      modifies this
      ensures Valid() && formulaConfig == if pool == [] then old(formulaConfig) else SearchConfig(mode)
      ensures r == Err(InvalidTarget) <==> !TargetAllowed(target)
      ensures (r == Err(SearchFailed(NoCandidates))
               <==> TargetAllowed(target) && EffectiveMode(mode).UnknownMode?
                    && exists pr :: pr in prs && Passes(includeBots, pr))
      ensures r.Err? ==> r.error == InvalidTarget || r.error == SearchFailed(NoCandidates)
      ensures r.Ok? ==> Conserved(prs, r.value.selected, r.value.rejections)
      ensures r.Ok? && pool != [] ==> StrictlyIncreasing(RejectionNumbers(r.value.rejections))
      ensures r.Ok? ==> multiset(PRNumbers(r.value.ordering)) == multiset(PRNumbers(r.value.selected))
      ensures r.Ok? ==> IsOrderingOf(r.value.selected, r.value.ordering)
      ensures r.Ok? ==> IsPool(prs, includeBots, clusterOf, pool) && r.value.poolSize == |pool|
      ensures r.Ok? && pool == [] ==> r.value.selected == []
      ensures r.Ok? && pool != [] ==> IsWinner(pool, target, mode, score, best) && IsSelected(best, r.value.selected)
    {
      pool, best := [], None;
      var wanted := EffectiveTarget(target);
      var how := EffectiveMode(mode);
      if wanted < minTarget || wanted > maxTarget {
        return Err(InvalidTarget), pool, best;
      }
      var candidates, early := BuildCandidatePool(prs, includeBots, clusterOf, priority);
      pool := candidates;
      if |candidates| == 0 {
        OrderOfNothing();
        return Ok(PlanResponse(0, [], [], early)), pool, best;
      }
      if formulaConfig.mode == NO_MODE {
        formulaConfig := DEFAULT_CONFIG;
      }
      formulaConfig := formulaConfig.(mode := how);
      var found := SearchPool(formulaConfig, candidates, target, mode, score);
      if found.Err? {
        return Err(SearchFailed(found.error)), pool, best;
      }
      best := Some(found.value);
      var response := Conclude(prs, candidates, early, target, mode, score, found.value, isNoise);
      return Ok(response), pool, best;
    }
  }
}
