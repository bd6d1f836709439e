/**
 The action plan builder (internal/app/actions.go): reviews become work items and intents, gated by
 a policy profile, and work items are summarized by lane. Texts copied through are left out.
 */
module ActionPlans {
  import opened Results
  import opened Sequences
  import opened Sorting
  import opened Text
  import opened ActionTypes
  import opened Lanes

  datatype WorkItem = WorkItem(id: string, number: int, lane: Lane)

  /** preconditions is None for a nil slice. */
  datatype PlannedIntent = PlannedIntent(
    action: ActionKind,
    number: int,
    lane: Lane,
    dryRun: bool,
    profile: PolicyProfile,
    confidence: real,
    reasons: seq<string>,
    rules: seq<Rule>,
    evidenceRefs: seq<string>,
    preconditions: Option<seq<Preflight>>,
    key: IntentKey)

  /** The parts of an idempotency key; KeyText is the string made of them. */
  datatype IntentKey = IntentKey(repo: string, number: int, lane: Lane, action: ActionKind)

  datatype LaneSummary = LaneSummary(lane: Lane, count: int, ids: seq<string>)

  datatype ActionPlan = ActionPlan(
    profile: PolicyProfile,
    total: int,
    summaries: seq<LaneSummary>,
    items: seq<WorkItem>,
    intents: seq<PlannedIntent>)

  /** What a plan is built from, after the reviews have been sorted. */
  datatype Request = Request(
    repo: string,
    reviews: seq<Review>,
    evidence: int -> Evidence,
    lower: string -> string,
    profile: PolicyProfile,
    laneFilter: Option<Lane>,
    dryRun: bool,
    total: int)

  // ---------- names ----------

  lemma FormatSign(n: int)
    ensures Format(n) != [] && ':' !in Format(n)
    ensures Format(n)[0] == '-' <==> n < 0
  {
    var digits := Itoa(if n < 0 then -n else n);
    assert IsDigit(digits[0]);
    forall i | 0 <= i < |digits| ensures digits[i] != ':' { assert IsDigit(digits[i]); }
  }

  lemma FormatInjective(n: int, m: int)
    requires Format(n) == Format(m)
    ensures n == m
  {
    FormatSign(n);
    FormatSign(m);
    DecimalOfItoa(if n < 0 then -n else n);
    DecimalOfItoa(if m < 0 then -m else m);
    if n < 0 {
      assert Itoa(-n) == Format(n)[1..] == Format(m)[1..] == Itoa(-m);
    }
  }

  function LaneName(lane: Lane): string
  {
    match lane
    case FastMerge => "fast_merge"
    case FixAndMerge => "fix_and_merge"
    case DuplicateClose => "duplicate_close"
    case RejectOrClose => "reject_or_close"
    case FocusedReview => "focused_review"
    case FutureOrReengage => "future_or_reengage"
    case HumanEscalate => "human_escalate"
    case OtherLane(name) => name
  }

  function KindName(action: ActionKind): string
  {
    match action
    case Merge => "merge"
    case Close => "close"
    case Comment => "comment"
    case Label => "label"
    case RequestChanges => "request_changes"
    case ApplyFix => "apply_fix"
    case NoAction => ""
    case OtherAction => "other"
  }

  function WorkItemId(number: int): string
  {
    "wi-" + Format(number)
  }

  function KeyText(k: IntentKey): string
  {
    k.repo + ("#" + (Format(k.number) + (":" + (LaneName(k.lane) + (":" + KindName(k.action))))))
  }

  // ---------- what a plan holds ----------

  function DecisionFor(q: Request, r: Review): Decision
  {
    ClassifyLane(q.lower, r, q.evidence(r.number))
  }

  function Classifier(q: Request): Review -> Decision
  {
    (r: Review) => DecisionFor(q, r)
  }

  predicate Included(filter: Option<Lane>, d: Decision)
  {
    filter.None? || d.lane == filter.value
  }

  /** The decisions that pass the lane filter, in order. */
  function Decisions(classify: Review -> Decision, filter: Option<Lane>, reviews: seq<Review>): seq<Decision>
  {
    if reviews == [] then []
    else
      var last := classify(reviews[|reviews| - 1]);
      Decisions(classify, filter, reviews[..|reviews| - 1]) + (if Included(filter, last) then [last] else [])
  }

  function PlanDecisions(q: Request): seq<Decision>
  {
    Decisions(Classifier(q), q.laneFilter, q.reviews)
  }

  function ItemOf(d: Decision): WorkItem
  {
    WorkItem(WorkItemId(d.number), d.number, d.lane)
  }

  function Items(decisions: seq<Decision>): (items: seq<WorkItem>)
    ensures |items| == |decisions| && forall i :: 0 <= i < |items| ==> items[i] == ItemOf(decisions[i])
  {
    seq(|decisions|, i requires 0 <= i < |decisions| => ItemOf(decisions[i]))
  }

  function IntentOf(q: Request, d: Decision, action: ActionKind): PlannedIntent
  {
    var profile := NormalizePolicyProfile(q.profile);
    PlannedIntent(
      action, d.number, d.lane,
      q.dryRun || profile == Advisory || !MayExecute(d, q.profile, action),
      profile, d.confidence,
      if d.reasons == [] && d.rules == [] then ["no_reason_provided"] else d.reasons,
      d.rules,
      if d.evidenceRefs == [] then ["classification:pr/" + Format(d.number)] else d.evidenceRefs,
      Some(d.preflights),
      IntentKey(q.repo, d.number, d.lane, action))
  }

  function IntentsOf(q: Request, d: Decision): (intents: seq<PlannedIntent>)
    ensures |intents| == |d.allowed| && forall i :: 0 <= i < |intents| ==> intents[i] == IntentOf(q, d, d.allowed[i])
  {
    seq(|d.allowed|, i requires 0 <= i < |d.allowed| => IntentOf(q, d, d.allowed[i]))
  }

  function AllIntents(q: Request, decisions: seq<Decision>): seq<PlannedIntent>
  {
    if decisions == [] then []
    else AllIntents(q, decisions[..|decisions| - 1]) + IntentsOf(q, decisions[|decisions| - 1])
  }

  /** The ids of a lane's items, in order. */
  function IdsIn(items: seq<WorkItem>, lane: Lane): seq<string>
  {
    if items == [] then []
    else
      var last := items[|items| - 1];
      IdsIn(items[..|items| - 1], lane) + (if last.lane == lane then [last.id] else [])
  }

  const LANE_ORDER := [FastMerge, FixAndMerge, DuplicateClose, RejectOrClose, FocusedReview, FutureOrReengage, HumanEscalate]

  function SummaryOf(items: seq<WorkItem>, lane: Lane): LaneSummary
  {
    LaneSummary(lane, |IdsIn(items, lane)|, Sort(StringLess, IdsIn(items, lane)))
  }

  function Summaries(items: seq<WorkItem>, lanes: seq<Lane>): seq<LaneSummary>
  {
    if lanes == [] then []
    else
      var last := lanes[|lanes| - 1];
      Summaries(items, lanes[..|lanes| - 1]) + (if IdsIn(items, last) == [] then [] else [SummaryOf(items, last)])
  }

  function PlanOf(q: Request): ActionPlan
  {
    var decisions := PlanDecisions(q);
    ActionPlan(NormalizePolicyProfile(q.profile), q.total, Summaries(Items(decisions), LANE_ORDER), Items(decisions),
               AllIntents(q, decisions))
  }

  // ---------- the builder ----------

  predicate ReviewLess(a: Review, b: Review)
  {
    a.number < b.number
  }

  ghost predicate DistinctReviews(reviews: seq<Review>)
  {
    forall i, j :: 0 <= i < j < |reviews| ==> reviews[i].number != reviews[j].number
  }

  /** The review a pull request gets when there is no review payload. */
  function MissingReview(number: int): Review
  {
    Review(number, 0.0, "unknown_escalate", "review_required", ["review_payload_missing"], [], "human_review", "future",
           "unknown", "", ["pr:" + Format(number)])
  }

  /** Sorting leaves the reviews' numbers distinct and in increasing order. */
  lemma SortedReviews(reviews: seq<Review>)
    requires DistinctReviews(reviews)
    ensures SortedBy(ReviewLess, Sort(ReviewLess, reviews)) && DistinctReviews(Sort(ReviewLess, reviews))
    ensures forall r :: r in Sort(ReviewLess, reviews) <==> r in reviews
    ensures |Sort(ReviewLess, reviews)| == |reviews|
  {
    assert StrictOrder(ReviewLess) && TotalOn(ReviewLess, reviews);
    SortSorted(ReviewLess, reviews);
    var s := Sort(ReviewLess, reviews);
    forall i, j | 0 <= i < j < |s| ensures s[i].number != s[j].number {
      assert ReviewLess(s[i], s[j]);
    }
  }

  /** Reviews of the payload if it has any, otherwise one placeholder for each pull request. */
  method ActionReviewResults(payload: seq<Review>, prs: seq<int>) returns (reviews: seq<Review>)
    requires DistinctReviews(payload) && Distinct(prs)
    ensures DistinctReviews(reviews) && SortedBy(ReviewLess, reviews)
    ensures |reviews| == if payload != [] then |payload| else |prs|
    ensures payload != [] ==> forall r :: r in reviews <==> r in payload
    ensures payload == [] ==> forall r :: r in reviews <==> exists n: int :: n in prs && r == MissingReview(n)
  {
    if |payload| > 0 {
      SortedReviews(payload);
      return Sort(ReviewLess, payload);
    }
    var results: seq<Review> := [];
    for i := 0 to |prs|
      invariant |results| == i && forall k :: 0 <= k < i ==> results[k] == MissingReview(prs[k])
    {
      results := results + [MissingReview(prs[i])];
    }
    SortedReviews(results);
    reviews := Sort(ReviewLess, results);
    forall n: int | n in prs ensures MissingReview(n) in results {
      var k :| 0 <= k < |prs| && prs[k] == n;
      assert results[k] == MissingReview(n);
    }
  }

  method IntentForAction(q: Request, d: Decision, gate: Gate, action: ActionKind) returns (intent: PlannedIntent)
    requires gate.profile == NormalizePolicyProfile(q.profile) && gate.dryRun == (gate.profile == Advisory)
    requires action in gate.executable <==> MayExecute(d, q.profile, action)
    ensures intent == IntentOf(q, d, action)
  {
    var dryRun := q.dryRun || gate.dryRun || action !in gate.executable;
    var reasons := d.reasons;
    if |reasons| == 0 && |d.rules| == 0 {
      reasons := ["no_reason_provided"];
    }
    var evidenceRefs := d.evidenceRefs;
    if |evidenceRefs| == 0 {
      evidenceRefs := ["classification:pr/" + Format(d.number)];
    }
    // A clone of no checks is nil, which the next step replaces by an empty slice.
    var preconditions := if |d.preflights| == 0 then None else Some(d.preflights);
    if preconditions.None? {
      preconditions := Some([]);
    }
    intent := PlannedIntent(action, d.number, d.lane, dryRun, NormalizePolicyProfile(gate.profile), d.confidence, reasons,
      d.rules, evidenceRefs, preconditions, IntentKey(q.repo, d.number, d.lane, action));
  }

  method ActionIntentsFromDecision(q: Request, d: Decision, gate: Gate) returns (intents: seq<PlannedIntent>)
    requires gate.proposed == d.allowed && gate.profile == NormalizePolicyProfile(q.profile)
    requires gate.dryRun == (gate.profile == Advisory) && gate.executable == Executable(d, q.profile, d.allowed)
    ensures intents == IntentsOf(q, d)
  {
    intents := [];
    ghost var all := IntentsOf(q, d);
    for i := 0 to |gate.proposed|
      invariant |intents| == i && forall k :: 0 <= k < i ==> intents[k] == all[k]
    {
      ExecutableMembers(d, q.profile, d.allowed);
      var intent := IntentForAction(q, d, gate, gate.proposed[i]);
      assert all[i] == intent;
      intents := intents + [intent];
    }
  }

  function IdsOrNone(byLane: map<Lane, seq<string>>, lane: Lane): seq<string>
  {
    if lane in byLane then byLane[lane] else []
  }

  ghost predicate Grouped(items: seq<WorkItem>, byLane: map<Lane, seq<string>>)
  {
    forall lane :: IdsOrNone(byLane, lane) == IdsIn(items, lane)
  }

  lemma GroupedStep(items: seq<WorkItem>, item: WorkItem, byLane: map<Lane, seq<string>>)
    requires Grouped(items, byLane)
    ensures Grouped(items + [item], byLane[item.lane := IdsOrNone(byLane, item.lane) + [item.id]])
  {
    assert (items + [item])[..|items|] == items;
    var after := byLane[item.lane := IdsOrNone(byLane, item.lane) + [item.id]];
    forall lane ensures IdsOrNone(after, lane) == IdsIn(items + [item], lane) {
      assert IdsOrNone(byLane, lane) == IdsIn(items, lane);
    }
  }

  method GroupByLane(items: seq<WorkItem>) returns (byLane: map<Lane, seq<string>>)
    ensures Grouped(items, byLane)
  {
    byLane := map[];
    for i := 0 to |items|
      invariant Grouped(items[..i], byLane)
    {
      GroupedStep(items[..i], items[i], byLane);
      assert items[..i + 1] == items[..i] + [items[i]];
      byLane := byLane[items[i].lane := IdsOrNone(byLane, items[i].lane) + [items[i].id]];
    }
    assert items[..|items|] == items;
  }

  method SummarizeLanes(items: seq<WorkItem>, order: seq<Lane>) returns (summaries: seq<LaneSummary>)
    ensures summaries == Summaries(items, order)
  {
    var byLane := GroupByLane(items);
    summaries := [];
    for i := 0 to |order|
      invariant summaries == Summaries(items, order[..i])
    {
      var lane := order[i];
      assert order[..i + 1][..i] == order[..i];
      var ids := IdsOrNone(byLane, lane);
      if |ids| == 0 {
        continue;
      }
      summaries := summaries + [LaneSummary(lane, |ids|, Sort(StringLess, ids))];
    }
    assert order[..|order|] == order;
  }

  lemma DecisionsStep(classify: Review -> Decision, filter: Option<Lane>, reviews: seq<Review>, i: nat)
    requires i < |reviews|
    ensures Decisions(classify, filter, reviews[..i + 1]) == Decisions(classify, filter, reviews[..i])
              + (if Included(filter, classify(reviews[i])) then [classify(reviews[i])] else [])
  {
    assert reviews[..i + 1][..i] == reviews[..i];
  }

  lemma IntentsStep(q: Request, before: seq<Decision>, d: Decision)
    ensures AllIntents(q, before + [d]) == AllIntents(q, before) + IntentsOf(q, d)
    ensures Items(before + [d]) == Items(before) + [ItemOf(d)]
  {
    assert (before + [d])[..|before|] == before;
  }

  /** One round of the builder's loop, after classification. */
  method ProcessDecision(q: Request, d: Decision) returns (item: Option<WorkItem>, intents: seq<PlannedIntent>)
    ensures item == if Included(q.laneFilter, d) then Some(ItemOf(d)) else None
    ensures Included(q.laneFilter, d) ==> intents == IntentsOf(q, d)
  {
    if q.laneFilter.Some? && d.lane != q.laneFilter.value {
      return None, [];
    }
    var gate := ApplyPolicy(d, q.profile);
    item := Some(ItemOf(d));
    intents := ActionIntentsFromDecision(q, d, gate);
  }

  method BuildPlan(q: Request) returns (plan: ActionPlan)
    ensures plan == PlanOf(q)
  {
    var items: seq<WorkItem>, intents: seq<PlannedIntent> := [], [];
    var classify := Classifier(q);
    for i := 0 to |q.reviews|
      invariant items == Items(Decisions(classify, q.laneFilter, q.reviews[..i]))
      invariant intents == AllIntents(q, Decisions(classify, q.laneFilter, q.reviews[..i]))
    {
      var d := classify(q.reviews[i]);
      ghost var before := Decisions(classify, q.laneFilter, q.reviews[..i]);
      DecisionsStep(classify, q.laneFilter, q.reviews, i);
      var item, more := ProcessDecision(q, d);
      if item.None? {
        assert before + [] == before;
        continue;
      }
      IntentsStep(q, before, d);
      items := items + [item.value];
      intents := intents + more;
    }
    assert q.reviews[..|q.reviews|] == q.reviews;
    var summaries := SummarizeLanes(items, LANE_ORDER);
    plan := ActionPlan(NormalizePolicyProfile(q.profile), q.total, summaries, items, intents);
  }
}
