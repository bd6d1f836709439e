/**
 The audit of an action plan (internal/actions/audit.go), and what it finds in the plans the builder
 makes (internal/app/actions.go, Actions).
 */
module ActionAudits {
  import opened Results
  import opened Sorting
  import opened Text
  import opened ActionTypes
  import opened Lanes
  import opened ActionPlans
  import E = ExecutorModel

  datatype Status = Pass | Fail | Manual

  // ---------- what the checks mean ----------

  function CountIn(items: seq<WorkItem>, lane: Lane): nat
  {
    |IdsIn(items, lane)|
  }

  /** The lane each id stands for; a repeated id keeps the last one, and empty ids are skipped. */
  function LaneById(items: seq<WorkItem>): map<string, Lane>
  {
    if items == [] then map[]
    else
      var before, last := LaneById(items[..|items| - 1]), items[|items| - 1];
      if last.id != "" then before[last.id := last.lane] else before
  }

  ghost predicate ItemsOk(items: seq<WorkItem>)
  {
    && (forall item :: item in items ==> !item.lane.OtherLane?)
    && (forall i, j :: 0 <= i < j < |items| ==> items[i].number != items[j].number)
  }

  ghost predicate IdsOk(items: seq<WorkItem>, lane: Lane, ids: seq<string>)
  {
    forall id :: id in ids ==> id in LaneById(items) && LaneById(items)[id] == lane
  }

  ghost predicate SummaryOk(items: seq<WorkItem>, s: LaneSummary)
  {
    && !s.lane.OtherLane?
    && CountIn(items, s.lane) == s.count == |s.ids|
    && IdsOk(items, s.lane, s.ids)
  }

  ghost predicate LaneCoverage(plan: ActionPlan)
  {
    && (plan.total > 0 ==> |plan.items| == plan.total)
    && ItemsOk(plan.items)
    && (forall s :: s in plan.summaries ==> SummaryOk(plan.items, s))
  }

  predicate Complete(intent: PlannedIntent)
  {
    && (intent.reasons != [] || intent.rules != [])
    && intent.evidenceRefs != [] && KeyText(intent.key) != "" && intent.confidence > 0.0
    && intent.preconditions.Some? && !intent.profile.Unset?
  }

  predicate ZeroWrite(intent: PlannedIntent)
  {
    intent.dryRun && NormalizePolicyProfile(intent.profile) == Advisory
  }

  // ---------- the audit ----------

  function CountOrZero(counts: map<Lane, int>, lane: Lane): int
  {
    if lane in counts then counts[lane] else 0
  }

  lemma ItemsOkSplit(items: seq<WorkItem>, i: nat)
    requires i < |items| && ItemsOk(items[..i])
    ensures (ItemsOk(items[..i + 1])
             <==> !items[i].lane.OtherLane? && forall item :: item in items[..i] ==> item.number != items[i].number)
    ensures ItemsOk(items) ==> ItemsOk(items[..i + 1])
  {
    var before, after := items[..i], items[..i + 1];
    assert after == before + [items[i]];
    if forall item :: item in before ==> item.number != items[i].number {
      forall a, b | 0 <= a < b < |after| ensures after[a].number != after[b].number {
        assert before[a] in before;
      }
    }
    if ItemsOk(after) {
      forall item | item in before ensures item.number != items[i].number {
        var a :| 0 <= a < i && before[a] == item;
        assert after[a] == item && after[i] == items[i];
      }
      assert after[i] in after;
    }
    if ItemsOk(items) {
      assert forall item :: item in after ==> item in items;
    }
  }

  /** The tables the audit fills while it goes through the items. */
  ghost predicate Tallied(items: seq<WorkItem>, counts: map<Lane, int>, laneById: map<string, Lane>)
  {
    laneById == LaneById(items) && forall lane :: CountOrZero(counts, lane) == CountIn(items, lane)
  }

  lemma TalliedStep(items: seq<WorkItem>, item: WorkItem, counts: map<Lane, int>, laneById: map<string, Lane>)
    requires Tallied(items, counts, laneById)
    ensures Tallied(items + [item], counts[item.lane := CountOrZero(counts, item.lane) + 1],
                    if item.id != "" then laneById[item.id := item.lane] else laneById)
  {
    assert (items + [item])[..|items|] == items;
    var counts' := counts[item.lane := CountOrZero(counts, item.lane) + 1];
    forall lane ensures CountOrZero(counts', lane) == CountIn(items + [item], lane) {
      assert CountOrZero(counts, lane) == CountIn(items, lane);
    }
  }

  /** The loop over the work items; ok is false when it returns a failure early. */
  method AuditItems(items: seq<WorkItem>) returns (ok: bool, counts: map<Lane, int>, laneById: map<string, Lane>)
    ensures ok <==> ItemsOk(items)
    ensures ok ==> Tallied(items, counts, laneById)
  {
    counts, laneById := map[], map[];
    var seen: set<int> := {};
    for i := 0 to |items|
      invariant ItemsOk(items[..i])
      invariant forall n: int :: n in seen <==> exists item :: item in items[..i] && item.number == n
      invariant Tallied(items[..i], counts, laneById)
    {
      var item := items[i];
      ItemsOkSplit(items, i);
      assert items[..i + 1] == items[..i] + [item];
      TalliedStep(items[..i], item, counts, laneById);
      if item.lane.OtherLane? || item.number in seen {
        return false, counts, laneById;
      }
      seen := seen + {item.number};
      counts := counts[item.lane := CountOrZero(counts, item.lane) + 1];
      if item.id != "" {
        laneById := laneById[item.id := item.lane];
      }
    }
    assert items[..|items|] == items;
    ok := true;
  }

  method AuditSummary(ghost items: seq<WorkItem>, s: LaneSummary, counts: map<Lane, int>, laneById: map<string, Lane>)
    returns (ok: bool)
    requires Tallied(items, counts, laneById)
    ensures ok <==> SummaryOk(items, s)
  {
    if s.lane.OtherLane? || CountOrZero(counts, s.lane) != s.count || |s.ids| != s.count {
      return false;
    }
    for i := 0 to |s.ids|
      invariant IdsOk(items, s.lane, s.ids[..i])
    {
      assert s.ids[i] in s.ids;
      if s.ids[i] !in laneById || laneById[s.ids[i]] != s.lane {
        return false;
      }
      assert s.ids[..i + 1] == s.ids[..i] + [s.ids[i]];
    }
    assert s.ids[..|s.ids|] == s.ids;
    ok := true;
  }

  method AuditLaneCoverage(plan: ActionPlan) returns (status: Status)
    ensures status == if LaneCoverage(plan) then Pass else Fail
  {
    if plan.total > 0 && |plan.items| != plan.total {
      return Fail;
    }
    var ok, counts, laneById := AuditItems(plan.items);
    if !ok {
      return Fail;
    }
    for i := 0 to |plan.summaries|
      invariant forall s :: s in plan.summaries[..i] ==> SummaryOk(plan.items, s)
    {
      assert plan.summaries[..i + 1] == plan.summaries[..i] + [plan.summaries[i]];
      ok := AuditSummary(plan.items, plan.summaries[i], counts, laneById);
      if !ok {
        return Fail;
      }
    }
    assert plan.summaries[..|plan.summaries|] == plan.summaries;
    return Pass;
  }

  method AuditAdvisoryZeroWrite(plan: ActionPlan) returns (status: Status)
    ensures status == if NormalizePolicyProfile(plan.profile) != Advisory then Manual
                      else if forall intent :: intent in plan.intents ==> ZeroWrite(intent) then Pass
                      else Fail
  {
    if NormalizePolicyProfile(plan.profile) != Advisory {
      return Manual;
    }
    for i := 0 to |plan.intents|
      invariant forall intent :: intent in plan.intents[..i] ==> ZeroWrite(intent)
    {
      assert plan.intents[..i + 1] == plan.intents[..i] + [plan.intents[i]];
      if !ZeroWrite(plan.intents[i]) {
        return Fail;
      }
    }
    assert plan.intents[..|plan.intents|] == plan.intents;
    return Pass;
  }

  method AuditIntentCompleteness(plan: ActionPlan) returns (status: Status)
    ensures status == if forall intent :: intent in plan.intents ==> Complete(intent) then Pass else Fail
  {
    for i := 0 to |plan.intents|
      invariant forall intent :: intent in plan.intents[..i] ==> Complete(intent)
    {
      assert plan.intents[..i + 1] == plan.intents[..i] + [plan.intents[i]];
      if !Complete(plan.intents[i]) {
        return Fail;
      }
    }
    assert plan.intents[..|plan.intents|] == plan.intents;
    return Pass;
  }

  // ---------- the builder's plans ----------

  ghost predicate DistinctDecisions(decisions: seq<Decision>)
  {
    forall i, j :: 0 <= i < j < |decisions| ==> decisions[i].number != decisions[j].number
  }

  ghost predicate IsDecisionOf(classify: Review -> Decision, filter: Option<Lane>, reviews: seq<Review>, d: Decision)
  {
    Included(filter, d) && exists r :: r in reviews && d == classify(r)
  }

  /** Each decision is that of an included review; without a filter every review has one. */
  lemma {:induction false} DecisionSources(classify: Review -> Decision, filter: Option<Lane>, reviews: seq<Review>)
    ensures forall d :: d in Decisions(classify, filter, reviews) ==> IsDecisionOf(classify, filter, reviews, d)
    ensures filter.None? ==> |Decisions(classify, filter, reviews)| == |reviews|
  {
    if reviews != [] {
      var k := |reviews| - 1;
      DecisionSources(classify, filter, reviews[..k]);
      assert reviews == reviews[..k] + [reviews[k]];
    }
  }

  lemma {:induction false} DecisionsDistinct(classify: Review -> Decision, filter: Option<Lane>, reviews: seq<Review>)
    requires DistinctReviews(reviews) && forall r :: classify(r).number == r.number
    ensures DistinctDecisions(Decisions(classify, filter, reviews))
  {
    if reviews != [] {
      var k := |reviews| - 1;
      var before := Decisions(classify, filter, reviews[..k]);
      DecisionsDistinct(classify, filter, reviews[..k]);
      DecisionSources(classify, filter, reviews[..k]);
      forall i | 0 <= i < |before| ensures before[i].number != classify(reviews[k]).number {
        assert IsDecisionOf(classify, filter, reviews[..k], before[i]);
      }
    }
  }

  lemma {:induction false} IdsMembers(items: seq<WorkItem>, lane: Lane)
    ensures forall id :: id in IdsIn(items, lane) <==> exists item :: item in items && item.lane == lane && item.id == id
  {
    if items != [] {
      var before, last := items[..|items| - 1], items[|items| - 1];
      IdsMembers(before, lane);
      assert items == before + [last];
    }
  }

  /** With distinct ids the id table finds each item's lane. */
  lemma {:induction false} LaneByIdFinds(items: seq<WorkItem>)
    requires forall i, j :: 0 <= i < j < |items| ==> items[i].id != items[j].id
    requires forall item :: item in items ==> item.id != ""
    ensures forall item :: item in items ==> item.id in LaneById(items) && LaneById(items)[item.id] == item.lane
  {
    if items != [] {
      var before, last := items[..|items| - 1], items[|items| - 1];
      assert items == before + [last];
      LaneByIdFinds(before);
      forall item | item in before ensures item.id != last.id {
        var i :| 0 <= i < |before| && before[i] == item;
        assert items[i].id != items[|items| - 1].id;
      }
    }
  }

  lemma IdsDistinct(decisions: seq<Decision>)
    requires DistinctDecisions(decisions)
    ensures forall i, j :: 0 <= i < j < |decisions| ==> Items(decisions)[i].id != Items(decisions)[j].id
    ensures forall item :: item in Items(decisions) ==> item.id != ""
  {
    forall i, j | 0 <= i < j < |decisions| ensures Items(decisions)[i].id != Items(decisions)[j].id {
      var a, b := decisions[i].number, decisions[j].number;
      if Format(a) == Format(b) { FormatInjective(a, b); }
      assert WorkItemId(a)[3..] == Format(a) && WorkItemId(b)[3..] == Format(b);
    }
  }

  /** The builder's own lane summaries always agree with its items. */
  lemma {:induction false} SummariesAgree(items: seq<WorkItem>, lanes: seq<Lane>)
    requires forall i, j :: 0 <= i < j < |items| ==> items[i].id != items[j].id
    requires forall item :: item in items ==> item.id != ""
    requires forall lane :: lane in lanes ==> !lane.OtherLane?
    ensures forall s :: s in Summaries(items, lanes) ==> SummaryOk(items, s)
  {
    if lanes != [] {
      var before, last := lanes[..|lanes| - 1], lanes[|lanes| - 1];
      assert lanes == before + [last];
      SummariesAgree(items, before);
      SummaryAgrees(items, last);
    }
  }

  lemma SummaryAgrees(items: seq<WorkItem>, lane: Lane)
    requires forall i, j :: 0 <= i < j < |items| ==> items[i].id != items[j].id
    requires forall item :: item in items ==> item.id != ""
    requires !lane.OtherLane?
    ensures SummaryOk(items, SummaryOf(items, lane))
  {
    SortMembers(StringLess, IdsIn(items, lane));
    IdsMembers(items, lane);
    LaneByIdFinds(items);
  }

  /** What the audit and the gates need to know of a classified review's decision. */
  ghost predicate Sound(profile: PolicyProfile, d: Decision)
  {
    && !d.lane.OtherLane? && d.rules != [] && NoAction !in d.allowed
    && (d.allowed != [] ==> d.confidence >= 0.50)
    && Merge !in Executable(d, profile, d.allowed) && Close !in Executable(d, profile, d.allowed)
  }

  lemma ClassifiedIsSound(q: Request, r: Review)
    ensures Classifier(q)(r).number == r.number && Sound(q.profile, Classifier(q)(r))
  {
    DecisionContract(SignalsOf(q.lower, r), r, q.evidence(r.number));
    NeverLiveMergeOrClose(q.lower, r, q.evidence(r.number), q.profile);
  }

  lemma PlanDecisionsSound(q: Request)
    ensures forall d :: d in PlanDecisions(q) ==> Sound(q.profile, d)
    ensures DistinctReviews(q.reviews) ==> DistinctDecisions(PlanDecisions(q))
    ensures q.laneFilter.None? ==> |PlanDecisions(q)| == |q.reviews|
  {
    var classify := Classifier(q);
    forall r ensures classify(r).number == r.number && Sound(q.profile, classify(r)) {
      ClassifiedIsSound(q, r);
    }
    DecisionSources(classify, q.laneFilter, q.reviews);
    if DistinctReviews(q.reviews) { DecisionsDistinct(classify, q.laneFilter, q.reviews); }
    forall d | d in PlanDecisions(q) ensures Sound(q.profile, d) {
      assert IsDecisionOf(classify, q.laneFilter, q.reviews, d);
    }
  }

  /** A built plan passes the lane audit exactly when its items are as many as the corpus is said to hold. */
  lemma BuiltLaneCoverage(q: Request)
    requires DistinctReviews(q.reviews)
    ensures LaneCoverage(PlanOf(q)) <==> (q.total > 0 ==> |PlanDecisions(q)| == q.total)
  {
    var decisions := PlanDecisions(q);
    PlanDecisionsSound(q);
    ItemsOfSound(q.profile, decisions);
    IdsDistinct(decisions);
    SummariesAgree(Items(decisions), LANE_ORDER);
  }

  lemma ItemsOfSound(profile: PolicyProfile, decisions: seq<Decision>)
    requires DistinctDecisions(decisions) && forall d :: d in decisions ==> Sound(profile, d)
    ensures ItemsOk(Items(decisions))
  {
    forall i | 0 <= i < |decisions| ensures !Items(decisions)[i].lane.OtherLane? {
      assert decisions[i] in decisions;
    }
  }

  /** The intent of one allowed action of a sound decision. */
  lemma IntentFacts(q: Request, d: Decision, action: ActionKind)
    requires Sound(q.profile, d) && action in d.allowed
    ensures var intent := IntentOf(q, d, action);
            && Complete(intent) && intent.action == action
            && (NormalizePolicyProfile(q.profile) == Advisory ==> ZeroWrite(intent))
            && (action == Merge || action == Close ==> intent.dryRun)
            && (!intent.dryRun ==> MayExecute(d, q.profile, action))
  {
    ExecutableMembers(d, q.profile, d.allowed);
    assert KeyText(IntentOf(q, d, action).key)[|q.repo|] == '#';
  }

  /** Every intent of a built plan is an allowed action of one of its decisions. */
  lemma {:induction false} IntentSource(q: Request, decisions: seq<Decision>, intent: PlannedIntent)
    returns (d: Decision, action: ActionKind)
    requires intent in AllIntents(q, decisions)
    ensures d in decisions && action in d.allowed && intent == IntentOf(q, d, action)
  {
    var before, last := decisions[..|decisions| - 1], decisions[|decisions| - 1];
    if intent in IntentsOf(q, last) {
      var i :| 0 <= i < |last.allowed| && IntentsOf(q, last)[i] == intent;
      d, action := last, last.allowed[i];
    } else {
      d, action := IntentSource(q, before, intent);
    }
  }

  /** A built plan's intents are complete, write nothing under advisory, and never merge or close live. */
  lemma BuiltIntents(q: Request)
    ensures forall intent :: intent in PlanOf(q).intents ==>
              && Complete(intent)
              && (NormalizePolicyProfile(q.profile) == Advisory ==> ZeroWrite(intent))
              && (intent.action == Merge || intent.action == Close ==> intent.dryRun)
  {
    PlanDecisionsSound(q);
    forall intent | intent in PlanOf(q).intents
      ensures Complete(intent) && (NormalizePolicyProfile(q.profile) == Advisory ==> ZeroWrite(intent))
              && (intent.action == Merge || intent.action == Close ==> intent.dryRun)
    {
      var d, action := IntentSource(q, PlanDecisions(q), intent);
      IntentFacts(q, d, action);
    }
  }

  /** Under the plan's own profile the executor's policy gate refuses none of the plan's intents. */
  lemma ExecutorAccepts(q: Request, intent: PlannedIntent, cfg: E.Config, handed: E.Intent)
    requires intent in PlanOf(q).intents
    requires cfg.policy == PlanOf(q).profile
    requires handed.action == intent.action && handed.dryRun == intent.dryRun
    ensures E.PolicyError(cfg, handed) == None
  {
    PlanDecisionsSound(q);
    var d, action := IntentSource(q, PlanDecisions(q), intent);
    IntentFacts(q, d, action);
  }

  // ---------- one key for each intent ----------

  lemma FirstColon(a: string, x: string)
    requires ':' !in a
    ensures (a + (":" + x))[0] == ':' <==> a == []
  {
    assert a != [] ==> (a + (":" + x))[0] in a;
  }

  lemma {:induction false} CutAtColon(a: string, b: string, x: string, y: string)
    requires ':' !in a && ':' !in b && a + (":" + x) == b + (":" + y)
    ensures a == b && x == y
  {
    var s, t := a + (":" + x), b + (":" + y);
    FirstColon(a, x);
    FirstColon(b, y);
    if a == [] {
      assert s[1..] == x && t[1..] == y;
    } else {
      assert s[0] == a[0] && t[0] == b[0];
      assert s[1..] == a[1..] + (":" + x) && t[1..] == b[1..] + (":" + y);
      CutAtColon(a[1..], b[1..], x, y);
      assert a == [a[0]] + a[1..] && b == [b[0]] + b[1..];
    }
  }

  lemma CutPrefix(p: string, a: string, b: string)
    requires p + a == p + b
    ensures a == b
  {
    assert (p + a)[|p|..] == a && (p + b)[|p|..] == b;
  }

  lemma KeyParts(repo: string, f: string, g: string, x: string, y: string)
    requires ':' !in f && ':' !in g
    requires repo + ("#" + (f + (":" + x))) == repo + ("#" + (g + (":" + y)))
    ensures f == g && x == y
  {
    CutPrefix(repo, "#" + (f + (":" + x)), "#" + (g + (":" + y)));
    CutPrefix("#", f + (":" + x), g + (":" + y));
    CutAtColon(f, g, x, y);
  }

  /** Keys of one repository tell pull requests apart and, within a lane, actions. */
  lemma KeyInjective(k: IntentKey, l: IntentKey)
    requires k.repo == l.repo && KeyText(k) == KeyText(l)
    ensures k.number == l.number && (k.lane == l.lane ==> k.action == l.action)
  {
    FormatSign(k.number);
    FormatSign(l.number);
    var x, y := KindName(k.action), KindName(l.action);
    KeyParts(k.repo, Format(k.number), Format(l.number), LaneName(k.lane) + (":" + x), LaneName(l.lane) + (":" + y));
    FormatInjective(k.number, l.number);
    if k.lane == l.lane {
      CutPrefix(LaneName(k.lane), ":" + x, ":" + y);
      CutPrefix(":", x, y);
      KindNamesDiffer(k.action, l.action);
    }
  }

  lemma KindNamesDiffer(a: ActionKind, b: ActionKind)
    requires KindName(a) == KindName(b)
    ensures a == b
  {
    assert |"merge"| == 5 && "merge"[0] == 'm';
  }

  /** The ledger cannot confuse two intents of a plan: those with the same key are the same intent. */
  lemma KeysIdentifyIntents(q: Request, x: PlannedIntent, y: PlannedIntent)
    requires DistinctReviews(q.reviews)
    requires x in PlanOf(q).intents && y in PlanOf(q).intents && KeyText(x.key) == KeyText(y.key)
    ensures x == y
  {
    PlanDecisionsSound(q);
    var decisions := PlanDecisions(q);
    var d, a := IntentSource(q, decisions, x);
    var e, b := IntentSource(q, decisions, y);
    KeyInjective(x.key, y.key);
    assert d == e;
  }

  /** Actions: builds the plan and audits it. */
  method Actions(q: Request) returns (plan: ActionPlan, coverage: Status, zeroWrite: Status, completeness: Status)
    requires DistinctReviews(q.reviews)
    ensures plan == PlanOf(q)
    ensures coverage == Pass <==> (q.total > 0 ==> |plan.items| == q.total)
    ensures q.laneFilter.None? && |q.reviews| == q.total ==> coverage == Pass
    ensures zeroWrite == if NormalizePolicyProfile(q.profile) == Advisory then Pass else Manual
    ensures completeness == Pass
  {
    plan := BuildPlan(q);
    BuiltLaneCoverage(q);
    PlanDecisionsSound(q);
    BuiltIntents(q);
    coverage := AuditLaneCoverage(plan);
    zeroWrite := AuditAdvisoryZeroWrite(plan);
    completeness := AuditIntentCompleteness(plan);
  }
}
