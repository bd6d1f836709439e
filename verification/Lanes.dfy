/**
 Lane classification and policy gating (internal/actions/classifier.go, policy.go). Confidences are
 reals, lower stands for strings.ToLower, and a reason added by a rule is
 named instead of spelled out.
 */
module Lanes {
  import opened Results
  import opened ActionTypes

  datatype Lane = FastMerge | FixAndMerge | DuplicateClose | RejectOrClose | FocusedReview | FutureOrReengage
                | HumanEscalate | OtherLane(name: string)

  /** types.ReviewResult, the fields the classifier reads. */
  datatype Review = Review(
    number: int,
    confidence: real,
    category: string,
    tier: string,
    reasons: seq<string>,
    blockers: seq<string>,
    nextAction: string,
    temporalBucket: string,
    blastRadius: string,
    mergeable: string,
    evidenceRefs: seq<string>)

  datatype Evidence = Evidence(
    groupId: string,
    canonical: int,
    confidence: real,
    canonicalConflict: bool,
    securitySensitive: bool,
    legalRisk: bool,
    unclearOwnership: bool)

  datatype Preflight = Preflight(check: string, status: string, required: bool)

  /** The reasons the classifier adds to a review's own; each stands for one text. */
  datatype Rule = LowConfidence | SecuritySensitive | HighBlastRadius | LegalOrLicenseRisk | UnclearOwnership
                | ConflictingEvidence | DuplicateGroup(id: string, canonical: int, confidence: real) | DuplicateIncomplete
                | ProblematicConfidence | ProblematicUnsure | CleanFastMerge | RepairableBlocked | RepairableUnsure
                | FutureBucket | DefaultReview

  /** reasons and rules together are the reason trail. */
  datatype Decision = Decision(
    number: int,
    lane: Lane,
    confidence: real,
    reasons: seq<string>,
    rules: seq<Rule>,
    evidenceRefs: seq<string>,
    allowed: seq<ActionKind>,
    preflights: seq<Preflight>)

  // ---------- text signals ----------

  predicate Contains(s: string, needle: string)
  {
    exists i {:trigger s[i..]} :: 0 <= i <= |s| - |needle| && s[i..][..|needle|] == needle
  }

  predicate TextHasAny(lower: string -> string, value: string, needles: seq<string>)
  {
    exists n :: n in needles && Contains(lower(value), lower(n))
  }

  predicate AnyTextHasAny(lower: string -> string, items: seq<string>, needles: seq<string>)
  {
    exists item :: item in items && TextHasAny(lower, item, needles)
  }

  const DUPLICATE_WORDS := ["duplicate", "superseded"]
  const PROBLEM_WORDS := ["junk", "spam", "reject", "close", "quarantine"]
  const PROBLEM_REASONS := ["junk", "spam", "malformed", "unsafe", "malicious", "reject", "close", "quarantine"]
  const REPAIR_WORDS := [
    "test_gap", "test gap", "missing_test", "lint", "lint_error", "lint_failure", "format",
    "ci_failure", "ci failure", "ci_failing", "resolve_ci", "conflict", "rebase", "needs_rebase", "merge_conflict",
    "missing_generated", "generated_file", "missing_artifact", "review_comment", "review_feedback", "address_comments"]

  predicate IsDuplicateSignal(lower: string -> string, r: Review)
  {
    || r.category == "duplicate_superseded"
    || TextHasAny(lower, r.temporalBucket, DUPLICATE_WORDS)
    || TextHasAny(lower, r.nextAction, DUPLICATE_WORDS)
    || AnyTextHasAny(lower, r.reasons, DUPLICATE_WORDS)
  }

  predicate IsProblematicSignal(lower: string -> string, r: Review)
  {
    || r.category == "problematic_quarantine"
    || TextHasAny(lower, r.temporalBucket, PROBLEM_WORDS)
    || TextHasAny(lower, r.nextAction, PROBLEM_WORDS)
    || AnyTextHasAny(lower, r.reasons, PROBLEM_REASONS)
  }

  predicate IsCleanFastMerge(r: Review)
  {
    && r.confidence >= 0.85
    && r.blockers == []
    && (r.category == "merge_now" || r.tier == "fast_merge")
    && r.mergeable in {"clean", "mergeable", "true"}
    && r.temporalBucket in {"", "now"}
    && r.blastRadius in {"", "low"}
  }

  predicate IsRepairableBlocked(lower: string -> string, r: Review)
  {
    AnyTextHasAny(lower, r.blockers + r.reasons + [r.nextAction], REPAIR_WORDS)
  }

  predicate HasConflictingEvidence(lower: string -> string, reasons: seq<string>)
  {
    && (exists x :: x in reasons && (Contains(lower(x), "ci_passing") || Contains(lower(x), "ci green") || Contains(lower(x), "ci pass")))
    && (exists x :: x in reasons && (Contains(lower(x), "ci_failing") || Contains(lower(x), "ci failure") || Contains(lower(x), "ci fail")))
  }

  predicate DuplicateEstablished(e: Evidence)
  {
    e.groupId != "" && e.canonical > 0 && e.confidence >= 0.80 && !e.canonicalConflict
  }

  // ---------- ClassifyLane ----------

  const FAST_MERGE_CHECKS := [
    Preflight("pr_still_open", "pending", true),
    Preflight("head_sha_unchanged", "pending", true),
    Preflight("ci_green", "pending", true),
    Preflight("mergeable_clean", "pending", true),
    Preflight("policy_profile_allows_merge", "pending", true)]

  function Into(r: Review, lane: Lane, rule: Rule, allowed: seq<ActionKind>): Decision
  {
    Decision(r.number, lane, r.confidence, r.reasons, [rule], r.evidenceRefs, allowed,
             if lane == FastMerge then FAST_MERGE_CHECKS else [])
  }

  function Escalate(r: Review, rules: seq<Rule>): Decision
  {
    Decision(r.number, HumanEscalate, r.confidence, r.reasons, rules, r.evidenceRefs, [], [])
  }

  /** What the texts of a review signal. */
  datatype Signals = Signals(conflicting: bool, duplicate: bool, problematic: bool, repairable: bool)

  function SignalsOf(lower: string -> string, r: Review): Signals
  {
    Signals(HasConflictingEvidence(lower, r.reasons), IsDuplicateSignal(lower, r), IsProblematicSignal(lower, r),
            IsRepairableBlocked(lower, r))
  }

  /** Rules a to h in their order; the first that applies decides. */
  function Decide(s: Signals, r: Review, e: Evidence): Decision
  {
    if r.confidence < 0.50 then Escalate(r, [LowConfidence])
    else if e.securitySensitive || r.blastRadius == "high" then
      Escalate(r, (if e.securitySensitive then [SecuritySensitive] else [])
                  + (if r.blastRadius == "high" then [HighBlastRadius] else []))
    else if e.legalRisk then Escalate(r, [LegalOrLicenseRisk])
    else if e.unclearOwnership then Escalate(r, [UnclearOwnership])
    else if s.conflicting then Escalate(r, [ConflictingEvidence])
    else if s.duplicate then
      if DuplicateEstablished(e)
      then Into(r, DuplicateClose, DuplicateGroup(e.groupId, e.canonical, e.confidence), [Comment, Close])
      else Escalate(r, [DuplicateIncomplete])
    else if s.problematic then
      if r.confidence >= 0.80
      then Into(r, RejectOrClose, ProblematicConfidence, [Comment, Close, Label])
      else Escalate(r, [ProblematicUnsure])
    else if IsCleanFastMerge(r) then Into(r, FastMerge, CleanFastMerge, [Merge])
    else if s.repairable then
      if r.confidence >= 0.65
      then Into(r, FixAndMerge, RepairableBlocked, [ApplyFix, Comment])
      else Escalate(r, [RepairableUnsure])
    else if WaitsForFuture(r) then
      Into(r, FutureOrReengage, FutureBucket, [Comment, Label])
    else Into(r, FocusedReview, DefaultReview, [Comment, Label])
  }

  function ClassifyLane(lower: string -> string, r: Review, e: Evidence): Decision
  {
    Decide(SignalsOf(lower, r), r, e)
  }

  /** The actions the documentation lists for each lane. */
  function ActionsOf(lane: Lane): seq<ActionKind>
  {
    match lane
    case FastMerge => [Merge]
    case FixAndMerge => [ApplyFix, Comment]
    case DuplicateClose => [Comment, Close]
    case RejectOrClose => [Comment, Close, Label]
    case FocusedReview => [Comment, Label]
    case FutureOrReengage => [Comment, Label]
    case HumanEscalate => []
    case OtherLane(_) => []
  }

  /** Nothing calls for a human before the lanes are considered. */
  predicate Cleared(s: Signals, r: Review, e: Evidence)
  {
    && r.confidence >= 0.50 && r.blastRadius != "high"
    && !e.securitySensitive && !e.legalRisk && !e.unclearOwnership && !s.conflicting
  }

  predicate WaitsForFuture(r: Review)
  {
    r.temporalBucket == "future" || r.nextAction == "author_response" || r.nextAction == "product_wait"
  }

  /** Neither a duplicate nor a problem. */
  predicate Ordinary(s: Signals, r: Review, e: Evidence)
  {
    Cleared(s, r, e) && !s.duplicate && !s.problematic
  }

  /** The conditions of the lanes, which exclude each other and leave no case out. */
  predicate Qualifies(s: Signals, r: Review, e: Evidence, lane: Lane)
  {
    match lane
    case DuplicateClose => Cleared(s, r, e) && s.duplicate && DuplicateEstablished(e)
    case RejectOrClose => Cleared(s, r, e) && !s.duplicate && s.problematic && r.confidence >= 0.80
    case FastMerge => Ordinary(s, r, e) && IsCleanFastMerge(r)
    case FixAndMerge => Ordinary(s, r, e) && !IsCleanFastMerge(r) && s.repairable && r.confidence >= 0.65
    case FutureOrReengage => Ordinary(s, r, e) && !IsCleanFastMerge(r) && !s.repairable && WaitsForFuture(r)
    case FocusedReview => Ordinary(s, r, e) && !IsCleanFastMerge(r) && !s.repairable && !WaitsForFuture(r)
    case HumanEscalate =>
      || !Cleared(s, r, e)
      || (s.duplicate && !DuplicateEstablished(e))
      || (!s.duplicate && s.problematic && r.confidence < 0.80)
      || (!s.duplicate && !s.problematic && !IsCleanFastMerge(r) && s.repairable && r.confidence < 0.65)
    case OtherLane(_) => false
  }

  /** A review is put into exactly the one lane whose condition it meets. */
  lemma ExactlyOneLane(s: Signals, r: Review, e: Evidence, lane: Lane)
    ensures Decide(s, r, e).lane == lane <==> Qualifies(s, r, e, lane)
  {
  }

  /** A decision proposes its lane's actions, and gives a reason. */
  lemma DecisionContract(s: Signals, r: Review, e: Evidence)
    ensures var d := Decide(s, r, e);
            && Qualifies(s, r, e, d.lane) && d.allowed == ActionsOf(d.lane)
            && d.number == r.number && d.confidence == r.confidence
            && d.reasons == r.reasons && d.rules != [] && d.evidenceRefs == r.evidenceRefs
            && d.preflights == if d.lane == FastMerge then FAST_MERGE_CHECKS else []
  {
    ExactlyOneLane(s, r, e, Decide(s, r, e).lane);
  }

  /** A blocked pull request is never proposed for merging. */
  lemma BlockedNeverMerges(lower: string -> string, r: Review, e: Evidence)
    requires r.blockers != []
    ensures Merge !in ClassifyLane(lower, r, e).allowed
  {
    DecisionContract(SignalsOf(lower, r), r, e);
  }

  // ---------- ApplyPolicy ----------

  datatype DenialReason = HumanEscalateNonExecutable | AdvisoryZeroWrite | GuardedNonDestructiveOnly
                        | MissingRequiredPreflight | PreflightNotPassed(check: string)

  datatype Denial = Denial(action: ActionKind, reason: DenialReason)

  datatype Gate = Gate(profile: PolicyProfile, dryRun: bool, proposed: seq<ActionKind>, executable: seq<ActionKind>, denied: seq<Denial>)

  function NormalizePolicyProfile(profile: PolicyProfile): PolicyProfile
  {
    match profile
    case Advisory => Advisory
    case Guarded => Guarded
    case Autonomous => Autonomous
    case _ => Advisory
  }

  predicate RequiresLivePreflight(action: ActionKind)
  {
    action == Merge || action == Close
  }

  /** Some check is required, and all required ones have passed. */
  predicate PreflightPassed(checks: seq<Preflight>)
  {
    && (exists c :: c in checks && c.required)
    && (forall c :: c in checks && c.required ==> c.status == "passed")
  }

  /** Check i is required and has not passed, and it is the first such check. */
  predicate FirstNotPassed(checks: seq<Preflight>, i: nat)
  {
    && i < |checks| && checks[i].required && checks[i].status != "passed"
    && (forall j :: 0 <= j < i && checks[j].required ==> checks[j].status == "passed")
  }

  function CheckName(check: Preflight): string
  {
    if check.check == "" then "unknown" else check.check
  }

  /** Nothing required, or the first required check that has not passed. */
  ghost predicate IsPreflightDenial(checks: seq<Preflight>, reason: DenialReason)
  {
    match reason
    case MissingRequiredPreflight => forall c :: c in checks ==> !c.required
    case PreflightNotPassed(name) => exists i: nat :: FirstNotPassed(checks, i) && name == CheckName(checks[i])
    case _ => false
  }

  method PreflightDenialReason(checks: seq<Preflight>) returns (reason: Option<DenialReason>)
    ensures reason.None? <==> PreflightPassed(checks)
    ensures reason.Some? ==> IsPreflightDenial(checks, reason.value)
  {
    var requiredSeen := false;
    for i := 0 to |checks|
      invariant requiredSeen <==> exists c :: c in checks[..i] && c.required
      invariant forall c :: c in checks[..i] && c.required ==> c.status == "passed"
    {
      var check := checks[i];
      assert checks[..i + 1] == checks[..i] + [check];
      if !check.required {
        continue;
      }
      requiredSeen := true;
      if check.status != "passed" {
        assert FirstNotPassed(checks, i) by {
          forall j | 0 <= j < i && checks[j].required ensures checks[j].status == "passed" {
            assert checks[j] in checks[..i];
          }
        }
        return Some(PreflightNotPassed(CheckName(check)));
      }
    }
    assert checks[..|checks|] == checks;
    return if !requiredSeen then Some(MissingRequiredPreflight) else None;
  }

  /** What the profile lets run: nothing, annotations only, or everything whose preflight has passed. */
  predicate MayExecute(d: Decision, profile: PolicyProfile, action: ActionKind)
  {
    && d.lane != HumanEscalate
    && match NormalizePolicyProfile(profile)
       case Guarded => action == Comment || action == Label
       case Autonomous => !RequiresLivePreflight(action) || PreflightPassed(d.preflights)
       case _ => false
  }

  function Executable(d: Decision, profile: PolicyProfile, actions: seq<ActionKind>): seq<ActionKind>
  {
    if actions == [] then []
    else
      var last := actions[|actions| - 1];
      Executable(d, profile, actions[..|actions| - 1]) + (if MayExecute(d, profile, last) then [last] else [])
  }

  lemma {:induction false} ExecutableMembers(d: Decision, profile: PolicyProfile, actions: seq<ActionKind>)
    ensures forall a :: a in Executable(d, profile, actions) <==> a in actions && MayExecute(d, profile, a)
  {
    if actions != [] {
      var before, last := actions[..|actions| - 1], actions[|actions| - 1];
      ExecutableMembers(d, profile, before);
      assert actions == before + [last];
    }
  }

  function Kinds(denied: seq<Denial>): (r: seq<ActionKind>)
    ensures |r| == |denied| && forall i :: 0 <= i < |r| ==> r[i] == denied[i].action
  {
    seq(|denied|, i requires 0 <= i < |denied| => denied[i].action)
  }

  /** What is left of the actions after the executable ones, in order. */
  function Withheld(d: Decision, profile: PolicyProfile, actions: seq<ActionKind>): seq<ActionKind>
  {
    if actions == [] then []
    else
      var last := actions[|actions| - 1];
      Withheld(d, profile, actions[..|actions| - 1]) + (if MayExecute(d, profile, last) then [] else [last])
  }

  /** The reason given for an action that may not run: escalation first, then the profile's. */
  ghost predicate IsDenial(d: Decision, profile: PolicyProfile, x: Denial)
  {
    && !MayExecute(d, profile, x.action)
    && if d.lane == HumanEscalate then x.reason == HumanEscalateNonExecutable
       else
         match NormalizePolicyProfile(profile)
         case Guarded => x.reason == GuardedNonDestructiveOnly
         case Autonomous => IsPreflightDenial(d.preflights, x.reason)
         case _ => x.reason == AdvisoryZeroWrite
  }

  /** Why the profile does not let an action run, if it does not. */
  method WhyDenied(d: Decision, profile: PolicyProfile, action: ActionKind) returns (reason: Option<DenialReason>)
    ensures reason.None? <==> MayExecute(d, profile, action)
    ensures reason.Some? ==> IsDenial(d, profile, Denial(action, reason.value))
  {
    if d.lane == HumanEscalate {
      return Some(HumanEscalateNonExecutable);
    }
    match NormalizePolicyProfile(profile)
    case Guarded =>
      return if action == Comment || action == Label then None else Some(GuardedNonDestructiveOnly);
    case Autonomous =>
      reason := None;
      if RequiresLivePreflight(action) {
        reason := PreflightDenialReason(d.preflights);
      }
    case _ =>
      return Some(AdvisoryZeroWrite);
  }

  ghost predicate Gated(d: Decision, profile: PolicyProfile, actions: seq<ActionKind>, executable: seq<ActionKind>, denied: seq<Denial>)
  {
    && executable == Executable(d, profile, actions) && Kinds(denied) == Withheld(d, profile, actions)
    && multiset(executable) + multiset(Kinds(denied)) == multiset(actions)
    && (forall x :: x in denied ==> IsDenial(d, profile, x))
  }

  lemma GatedAllow(d: Decision, profile: PolicyProfile, actions: seq<ActionKind>, executable: seq<ActionKind>,
                   denied: seq<Denial>, action: ActionKind)
    requires Gated(d, profile, actions, executable, denied) && MayExecute(d, profile, action)
    ensures Gated(d, profile, actions + [action], executable + [action], denied)
  {
    assert (actions + [action])[..|actions|] == actions;
    assert Withheld(d, profile, actions) + [] == Withheld(d, profile, actions);
  }

  lemma GatedDeny(d: Decision, profile: PolicyProfile, actions: seq<ActionKind>, executable: seq<ActionKind>,
                  denied: seq<Denial>, x: Denial)
    requires Gated(d, profile, actions, executable, denied) && IsDenial(d, profile, x)
    ensures Gated(d, profile, actions + [x.action], executable, denied + [x])
  {
    assert (actions + [x.action])[..|actions|] == actions;
    assert Executable(d, profile, actions) + [] == Executable(d, profile, actions);
    assert Kinds(denied + [x]) == Kinds(denied) + [x.action];
  }

  /** Every proposed action is either executable or denied, and executable exactly when the profile lets it run. */
  method ApplyPolicy(d: Decision, profile: PolicyProfile) returns (gate: Gate)
    ensures gate.profile == NormalizePolicyProfile(profile) && gate.dryRun == (gate.profile == Advisory)
    ensures gate.proposed == d.allowed
    ensures gate.executable == Executable(d, profile, d.allowed)
    ensures Kinds(gate.denied) == Withheld(d, profile, d.allowed)
    ensures multiset(gate.executable) + multiset(Kinds(gate.denied)) == multiset(d.allowed)
    ensures forall x :: x in gate.denied ==> IsDenial(d, profile, x)
  {
    var executable: seq<ActionKind>, denied: seq<Denial> := [], [];
    for i := 0 to |d.allowed|
      invariant Gated(d, profile, d.allowed[..i], executable, denied)
    {
      var action := d.allowed[i];
      assert d.allowed[..i + 1] == d.allowed[..i] + [action];
      var reason := WhyDenied(d, profile, action);
      if reason.None? {
        GatedAllow(d, profile, d.allowed[..i], executable, denied, action);
        executable := executable + [action];
      } else {
        GatedDeny(d, profile, d.allowed[..i], executable, denied, Denial(action, reason.value));
        denied := denied + [Denial(action, reason.value)];
      }
    }
    assert d.allowed[..|d.allowed|] == d.allowed;
    var normalized := NormalizePolicyProfile(profile);
    gate := Gate(normalized, normalized == Advisory, d.allowed, executable, denied);
  }

  lemma NothingPassedYet()
    ensures !PreflightPassed(FAST_MERGE_CHECKS) && !PreflightPassed([])
  {
    assert FAST_MERGE_CHECKS[0] in FAST_MERGE_CHECKS;
    assert FAST_MERGE_CHECKS[0].status[1] == 'e';
  }

  /** Whatever the profile, a classified merge or close is denied: its preflights are pending or missing. */
  lemma NeverLiveMergeOrClose(lower: string -> string, r: Review, e: Evidence, profile: PolicyProfile)
    ensures var d := ClassifyLane(lower, r, e);
            Merge !in Executable(d, profile, d.allowed) && Close !in Executable(d, profile, d.allowed)
  {
    var d := ClassifyLane(lower, r, e);
    ExecutableMembers(d, profile, d.allowed);
    DecisionContract(SignalsOf(lower, r), r, e);
    NothingPassedYet();
    assert !MayExecute(d, profile, Merge) && !MayExecute(d, profile, Close);
  }
}
