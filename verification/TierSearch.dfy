/**
 Engine.Search (internal/formula/engine.go, tiers.go): tiers filter the pool, each generates its
 first candidates by index, and the best candidate of all tiers is kept. ScoreCandidate, with the
 weights, the clock and the conflict counts of the tier's pool, is the parameter score; scores are
 reals, so NaN is not modelled.
 */
module TierSearch {
  import opened Results
  import opened Integers
  import opened Sequences
  import opened Sorting
  import opened PullRequests
  import opened Counting
  import opened Unranking

  /** "quick", "thorough", "exhaustive", and any other text, which filters nothing. */
  datatype TierName = Quick | Thorough | Exhaustive | OtherTier(name: string)

  datatype Tier = Tier(name: TierName, maxCandidates: int, mode: Mode)

  datatype Config = Config(mode: Mode, pickCount: int, maxPoolSize: int, requirePreFiltered: bool, tiers: seq<Tier>)

  datatype Input = Input(pool: seq<PR>, target: int, preFiltered: bool)

  /** CandidateResult without its texts. */
  datatype Scored = Scored(tier: TierName, mode: Mode, selected: seq<PR>, score: real, index: nat)

  datatype TierResult = TierResult(name: TierName, poolSize: nat, candidateCount: nat, best: Scored)

  datatype SearchResult = SearchResult(tiers: seq<TierResult>, best: Scored)

  datatype SearchError = NotPreFiltered | PoolTooLarge | NoCandidates | Selection(error: Error)

  /** Scoring a selection against the pool of its tier. */
  type Score = (seq<PR>, seq<PR>) -> real

  // ---------- configuration ----------

  /** The empty mode string. */
  const NO_MODE := UnknownMode("")

  const DEFAULT_TIERS := [Tier(Quick, 8, NO_MODE), Tier(Thorough, 12, NO_MODE), Tier(Exhaustive, 16, NO_MODE)]

  const DEFAULT_CONFIG := Config(Combination, 0, 0, true, DEFAULT_TIERS)

  function WithDefaults(c: Config): Config
  {
    c.(mode := if c.mode == NO_MODE then Combination else c.mode,
       tiers := if c.tiers == [] then DEFAULT_TIERS else c.tiers)
  }

  // ---------- the candidates of a tier ----------

  predicate Eligible(name: TierName, pr: PR)
  {
    match name
    case Quick => pr.baseBranch == "main" && pr.mergeable != "conflicting" && pr.ciStatus == "success"
    case Thorough => pr.mergeable != "conflicting"
    case Exhaustive => true
    case OtherTier(_) => true
  }

  function Keep(name: TierName, pool: seq<PR>): seq<PR>
  {
    if pool == [] then []
    else Keep(name, pool[..|pool| - 1]) + (if Eligible(name, pool[|pool| - 1]) then [pool[|pool| - 1]] else [])
  }

  function TierPool(name: TierName, pool: seq<PR>): seq<PR>
  {
    SortedByNumber(Keep(name, pool))
  }

  lemma {:induction false} KeepMembers(name: TierName, pool: seq<PR>)
    ensures |Keep(name, pool)| <= |pool|
    ensures forall pr :: pr in Keep(name, pool) <==> pr in pool && Eligible(name, pr)
  {
    if pool != [] {
      var before, last := pool[..|pool| - 1], pool[|pool| - 1];
      KeepMembers(name, before);
      assert pool == before + [last];
    }
  }

  lemma {:induction false} KeepDistinct(name: TierName, pool: seq<PR>)
    requires DistinctNumbers(pool)
    ensures DistinctNumbers(Keep(name, pool))
  {
    if pool != [] {
      var before, last := pool[..|pool| - 1], pool[|pool| - 1];
      KeepDistinct(name, before);
      KeepMembers(name, before);
      forall pr | pr in before ensures pr.number != last.number {
        var i :| 0 <= i < |before| && before[i] == pr;
        assert pool[i] == pr;
      }
    }
  }

  /** A tier searches exactly the eligible pull requests, by number. */
  lemma TierPoolMeaning(name: TierName, pool: seq<PR>)
    requires DistinctNumbers(pool)
    ensures SortedBy(ByNumber, TierPool(name, pool))
    ensures forall pr :: pr in TierPool(name, pool) <==> pr in pool && Eligible(name, pr)
  {
    KeepMembers(name, pool);
    KeepDistinct(name, pool);
    SortedByNumberFacts(Keep(name, pool));
  }

  lemma TierPoolSize(name: TierName, pool: seq<PR>)
    ensures |TierPool(name, pool)| <= |pool|
    ensures TierPool(name, pool) == [] <==> forall pr :: pr in pool ==> !Eligible(name, pr)
  {
    KeepMembers(name, pool);
    SortMembers(ByNumber, Keep(name, pool));
    FirstIsMember(Keep(name, pool));
  }

  function TierMode(c: Config, tier: Tier): Mode
  {
    if tier.mode == NO_MODE then c.mode else tier.mode
  }

  function PickCount(c: Config, target: int, mode: Mode, n: nat): int
  {
    var pick := if c.pickCount > 0 then c.pickCount else target;
    if n > 0 && pick > n && mode != WithReplacement then n else pick
  }

  function Allowed(tier: Tier): int
  {
    if tier.maxCandidates <= 0 then 1 else tier.maxCandidates
  }

  /** How many candidates the tier generates. */
  function CandidateCount(c: Config, input: Input, tier: Tier): nat
  {
    var n := |TierPool(tier.name, input.pool)|;
    var mode := TierMode(c, tier);
    var pick := PickCount(c, input.target, mode, n);
    if n == 0 || pick == 0 then 0 else Min(Total(mode, n, pick), Allowed(tier))
  }

  function CandidateAt(c: Config, input: Input, score: Score, tier: Tier, index: nat): Scored
    requires index < CandidateCount(c, input, tier)
  {
    var pool := TierPool(tier.name, input.pool);
    var mode := TierMode(c, tier);
    var selected := Candidate(mode, pool, PickCount(c, input.target, mode, |pool|), index);
    Scored(tier.name, mode, selected, score(selected, pool), index)
  }

  /** The candidates a tier evaluates, in order. */
  function TierCandidates(c: Config, input: Input, score: Score, tier: Tier): (r: seq<Scored>)
    ensures |r| == CandidateCount(c, input, tier)
    ensures forall i :: 0 <= i < |r| ==> r[i] == CandidateAt(c, input, score, tier, i)
  {
    seq(CandidateCount(c, input, tier), i requires 0 <= i < CandidateCount(c, input, tier) =>
      CandidateAt(c, input, score, tier, i))
  }

  /** All candidates evaluated in the given tiers, in order. */
  function Evaluated(c: Config, input: Input, score: Score, tiers: seq<Tier>): seq<Scored>
  {
    if tiers == [] then []
    else Evaluated(c, input, score, tiers[..|tiers| - 1]) + TierCandidates(c, input, score, tiers[|tiers| - 1])
  }

  // ---------- comparing candidates ----------

  function Signature(selected: seq<PR>): string
  {
    if selected == [] then ""
    else if |selected| == 1 then selected[0].title
    else selected[0].title + "|" + Signature(selected[1..])
  }

  /** A candidate that replaces the best so far. */
  predicate Better(a: Scored, b: Scored)
  {
    a.score > b.score || (a.score == b.score && StringLess(Signature(a.selected), Signature(b.selected)))
  }

  lemma BetterOrder(a: Scored, b: Scored, c: Scored)
    ensures !(Better(a, b) && Better(b, a)) && !Better(a, a)
    ensures Better(a, b) && Better(b, c) ==> Better(a, c)
    ensures Better(a, b) && !Better(c, b) ==> Better(a, c)
  {
    var x, y, z := Signature(a.selected), Signature(b.selected), Signature(c.selected);
    StringLessTotal(x, y);
    StringLessTotal(x, x);
    StringLessTotal(y, z);
    if StringLess(x, y) && StringLess(y, z) { StringLessTransitive(x, y, z); }
  }

  /** What the loop's replacements leave. */
  function BestOf(s: seq<Scored>): Option<Scored>
  {
    if s == [] then None
    else
      var before, last := BestOf(s[..|s| - 1]), s[|s| - 1];
      if before.None? || Better(last, before.value) then Some(last) else before
  }

  /** Candidate i is better than all earlier ones, and no later one is better than it. */
  ghost predicate FirstBest(s: seq<Scored>, i: nat)
    requires i < |s|
  {
    && (forall j :: 0 <= j < i ==> Better(s[i], s[j]))
    && (forall j :: i <= j < |s| ==> !Better(s[j], s[i]))
  }

  lemma {:induction false} BestOfIsFirstBest(s: seq<Scored>) returns (i: nat)
    requires s != []
    ensures i < |s| && FirstBest(s, i) && BestOf(s) == Some(s[i])
    ensures forall j :: 0 <= j < |s| ==> s[j].score <= s[i].score && !Better(s[j], s[i])
  {
    var before, last := s[..|s| - 1], s[|s| - 1];
    BetterOrder(last, last, last);
    i := |s| - 1;
    if before != [] {
      var k := BestOfIsFirstBest(before);
      if Better(last, s[k]) {
        forall j | 0 <= j < |s| - 1 ensures Better(last, s[j]) && !Better(s[j], last) {
          assert before[j] == s[j];
          BetterOrder(last, s[k], s[j]);
          BetterOrder(last, s[j], s[j]);
        }
      } else {
        i := k;
        assert forall j :: 0 <= j < |before| ==> before[j] == s[j];
      }
    }
  }

  /** Only one candidate is the first best. */
  lemma FirstBestUnique(s: seq<Scored>, i: nat, j: nat)
    requires i < |s| && j < |s| && FirstBest(s, i) && FirstBest(s, j)
    ensures i == j
  {
    var forward, backward := Better(s[i], s[j]), Better(s[j], s[i]);
  }

  // ---------- when there is nothing to evaluate ----------

  lemma TotalPositive(mode: Mode, n: nat, k: nat)
    requires n > 0 && (k <= n || mode == WithReplacement)
    ensures Total(mode, n, k) > 0 <==> !mode.UnknownMode?
  {
    match mode
    case Permutation => FallingPositive(n, k);
    case Combination => BinomialPositive(n, k);
    case WithReplacement => PowerPositive(n, k);
    case UnknownMode(_) =>
  }

  predicate Searchable(c: Config, input: Input, tier: Tier)
  {
    !TierMode(c, tier).UnknownMode? && exists pr :: pr in input.pool && Eligible(tier.name, pr)
  }

  /** A tier has candidates exactly when its mode is known and some pull request is eligible. */
  lemma TierHasCandidates(c: Config, input: Input, score: Score, tier: Tier)
    requires input.target > 0
    ensures TierCandidates(c, input, score, tier) != [] <==> Searchable(c, input, tier)
  {
    TierPoolSize(tier.name, input.pool);
    var n := |TierPool(tier.name, input.pool)|;
    if n > 0 {
      var mode := TierMode(c, tier);
      TotalPositive(mode, n, PickCount(c, input.target, mode, n));
    }
  }

  lemma {:induction false} EvaluatedNothing(c: Config, input: Input, score: Score, tiers: seq<Tier>)
    requires input.target > 0
    ensures Evaluated(c, input, score, tiers) != [] <==> exists t :: t in tiers && Searchable(c, input, t)
  {
    if tiers != [] {
      var before, last := tiers[..|tiers| - 1], tiers[|tiers| - 1];
      EvaluatedNothing(c, input, score, before);
      TierHasCandidates(c, input, score, last);
      assert tiers == before + [last];
    }
  }

  // ---------- Search ----------

  method FilterPoolForTier(name: TierName, pool: seq<PR>) returns (filtered: seq<PR>)
    ensures filtered == TierPool(name, pool)
  {
    filtered := [];
    for i := 0 to |pool|
      invariant filtered == Keep(name, pool[..i])
    {
      assert pool[..i + 1][..i] == pool[..i];
      if Eligible(name, pool[i]) {
        filtered := filtered + [pool[i]];
      }
    }
    assert pool[..|pool|] == pool;
    filtered := SortedByNumber(filtered);
  }

  /** One pass of the candidate loop: the tier's best and the best of all tiers so far. */
  method SearchTier(c: Config, input: Input, score: Score, tier: Tier, ghost earlier: seq<Scored>, soFar: Option<Scored>)
    returns (result: Option<TierResult>, best: Option<Scored>)
    requires |input.pool| <= MAX_INT && input.target > 0 && soFar == BestOf(earlier)
    ensures best == BestOf(earlier + TierCandidates(c, input, score, tier))
    ensures result == TierResultOf(c, input, score, tier)
  {
    var pool := FilterPoolForTier(tier.name, input.pool);
    TierPoolSize(tier.name, input.pool);
    var mode := TierMode(c, tier);
    var pickCount := PickCount(c, input.target, mode, |pool|);
    ghost var candidates := TierCandidates(c, input, score, tier);
    best, result := soFar, None;
    assert candidates == [] ==> earlier + candidates == earlier;
    if |pool| == 0 || pickCount == 0 {
      return;
    }
    var total := Count(mode, |pool|, pickCount);
    if total == 0 {
      return;
    }
    var count := Min(total, Allowed(tier));
    var tierBest: Option<Scored> := None;
    assert earlier + candidates[..0] == earlier;
    for index := 0 to count
      invariant tierBest == BestOf(candidates[..index]) && best == BestOf(earlier + candidates[..index])
    {
      var selection := GenerateByIndex(mode, pool, pickCount, Some(index));
      if selection.Err? {
        // Search would return this error; the guard total == 0 and the bound on index rule it out.
        assert false;
      }
      var candidate := Scored(tier.name, mode, selection.value, score(selection.value, pool), index);
      BestOfAppend(earlier, candidates, index);
      if tierBest.None? || Better(candidate, tierBest.value) {
        tierBest := Some(candidate);
      }
      if best.None? || Better(candidate, best.value) {
        best := Some(candidate);
      }
    }
    assert candidates[..count] == candidates;
    result := Some(TierResult(tier.name, |pool|, count, tierBest.value));
  }

  lemma BestOfAppend(earlier: seq<Scored>, candidates: seq<Scored>, i: nat)
    requires i < |candidates|
    ensures BestOf(candidates[..i + 1]) ==
            (var b := BestOf(candidates[..i]);
             if b.None? || Better(candidates[i], b.value) then Some(candidates[i]) else b)
    ensures BestOf(earlier + candidates[..i + 1]) ==
            (var b := BestOf(earlier + candidates[..i]);
             if b.None? || Better(candidates[i], b.value) then Some(candidates[i]) else b)
  {
    assert candidates[..i + 1][..i] == candidates[..i];
    assert (earlier + candidates[..i + 1])[..|earlier| + i] == earlier + candidates[..i];
  }

  /** A tier's entry in the result, which it has only if it evaluated something. */
  function TierResultOf(c: Config, input: Input, score: Score, tier: Tier): Option<TierResult>
  {
    var candidates := TierCandidates(c, input, score, tier);
    if candidates == [] then None
    else Some(TierResult(tier.name, |TierPool(tier.name, input.pool)|, |candidates|, BestOf(candidates).value))
  }

  function TierResults(c: Config, input: Input, score: Score, tiers: seq<Tier>): seq<TierResult>
  {
    if tiers == [] then []
    else
      var last := TierResultOf(c, input, score, tiers[|tiers| - 1]);
      TierResults(c, input, score, tiers[..|tiers| - 1]) + (if last.None? then [] else [last.value])
  }

  /** NewEngine and Search. An error of GenerateByIndex inside the loop never reaches the caller. */
  method Search(config: Config, input: Input, score: Score) returns (r: Result<SearchResult, SearchError>)
    requires |input.pool| <= MAX_INT
    ensures r == Err(NotPreFiltered) <==> config.requirePreFiltered && !input.preFiltered
    ensures (r == Err(PoolTooLarge)
             <==> !(config.requirePreFiltered && !input.preFiltered) && 0 < config.maxPoolSize < |input.pool|)
    ensures (Accepts(config, input) && input.target <= 0 <==> r == Err(Selection(InvalidSelection)))
    ensures (r == Err(NoCandidates)
             <==> Accepts(config, input) && input.target > 0
                  && forall t :: t in WithDefaults(config).tiers ==> !Searchable(WithDefaults(config), input, t))
    ensures r.Err? ==> r.error in {NotPreFiltered, PoolTooLarge, NoCandidates, Selection(InvalidSelection)}
    ensures r.Ok? ==> Some(r.value.best) == BestOf(Evaluated(WithDefaults(config), input, score, WithDefaults(config).tiers))
    ensures r.Ok? ==> r.value.tiers == TierResults(WithDefaults(config), input, score, WithDefaults(config).tiers)
  {
    var c := WithDefaults(config);
    if c.requirePreFiltered && !input.preFiltered {
      return Err(NotPreFiltered);
    }
    if c.maxPoolSize > 0 && |input.pool| > c.maxPoolSize {
      return Err(PoolTooLarge);
    }
    if input.target <= 0 {
      return Err(Selection(InvalidSelection));
    }
    var results: seq<TierResult> := [];
    var best: Option<Scored> := None;
    for i := 0 to |c.tiers|
      invariant best == BestOf(Evaluated(c, input, score, c.tiers[..i]))
      invariant results == TierResults(c, input, score, c.tiers[..i])
    {
      assert c.tiers[..i + 1][..i] == c.tiers[..i];
      var result;
      result, best := SearchTier(c, input, score, c.tiers[i], Evaluated(c, input, score, c.tiers[..i]), best);
      if result.Some? {
        results := results + [result.value];
      }
    }
    assert c.tiers[..|c.tiers|] == c.tiers;
    EvaluatedNothing(c, input, score, c.tiers);
    if best.None? {
      return Err(NoCandidates);
    }
    return Ok(SearchResult(results, best.value));
  }

  predicate Accepts(config: Config, input: Input)
  {
    && (config.requirePreFiltered ==> input.preFiltered)
    && !(0 < config.maxPoolSize < |input.pool|)
  }

  // ---------- what a selection found is ----------

  ghost predicate IsSelectionFrom(c: Config, input: Input, tier: Tier, best: Scored)
  {
    var pool := TierPool(tier.name, input.pool);
    && best.tier == tier.name && best.mode == TierMode(c, tier)
    && (forall pr :: pr in best.selected ==> pr in input.pool && Eligible(tier.name, pr))
    && |best.selected| == PickCount(c, input.target, best.mode, |pool|) >= 1
    && (best.mode != WithReplacement ==> DistinctNumbers(best.selected))
  }

  /** Every evaluated candidate is a selection of its tier: the right size, eligible, no repetition without replacement. */
  lemma CandidateIsSelection(c: Config, input: Input, score: Score, tier: Tier, i: nat)
    requires DistinctNumbers(input.pool) && input.target > 0 && i < CandidateCount(c, input, tier)
    ensures IsSelectionFrom(c, input, tier, CandidateAt(c, input, score, tier, i))
  {
    var pool := TierPool(tier.name, input.pool);
    TierPoolMeaning(tier.name, input.pool);
    var mode := TierMode(c, tier);
    var pick := PickCount(c, input.target, mode, |pool|);
    var indices := Unrank(mode, |pool|, pick, i);
    IndexHasSelection(mode, |pool|, pick, i);
    SelectionInPool(mode, |pool|, pick, indices);
    var selected := Candidate(mode, pool, pick, i);
    forall k | 0 <= k < |selected| ensures selected[k] == pool[indices[k]] && selected[k] in pool {}
    if mode != WithReplacement {
      forall a, b | 0 <= a < b < |selected| ensures selected[a].number != selected[b].number {
        assert indices[a] != indices[b];
        assert forall x, y :: 0 <= x < y < |pool| ==> ByNumber(pool[x], pool[y]);
      }
    }
  }

  /** The result of a search is a selection of one of its tiers with the highest score any tier evaluated. */
  lemma {:induction false} EvaluatedAreSelections(c: Config, input: Input, score: Score, tiers: seq<Tier>, best: Scored)
    returns (tier: Tier)
    requires DistinctNumbers(input.pool) && input.target > 0 && best in Evaluated(c, input, score, tiers)
    ensures tier in tiers && IsSelectionFrom(c, input, tier, best)
  {
    var before, last := tiers[..|tiers| - 1], tiers[|tiers| - 1];
    var candidates := TierCandidates(c, input, score, last);
    if best in candidates {
      var i :| 0 <= i < |candidates| && candidates[i] == best;
      CandidateIsSelection(c, input, score, last, i);
      tier := last;
    } else {
      tier := EvaluatedAreSelections(c, input, score, before, best);
    }
  }
}
