/**
 One action intent (internal/executor/executor.go, ExecuteIntent; preflight.go; verification.go)
 as a function of the world it runs in: policy gate, preflight checks, mutation, verification and
 ledger records, with the same order of steps and the same error exits.
 */
module ExecutorModel {
  import opened Results
  import opened Text
  import opened GitHubState
  import opened Ledgers
  import opened ActionTypes

  /** A payload value of Go's map[string]any. */
  datatype Value = Str(s: string) | StrList(ss: seq<string>) | AnyList(vs: seq<Value>) | OtherValue

  datatype Config = Config(dryRun: bool, policy: PolicyProfile)

  datatype Intent = Intent(action: ActionKind, number: int, dryRun: bool, reasons: seq<string>, key: string,
                           payload: map<string, Value>)

  datatype World = World(github: GitHub, ledger: map<string, History>)

  /** A call that returns no error has either executed, run dry, or found its key already executed. */
  datatype Outcome = Done(dryRun: bool) | AlreadyExecuted | Failure(error: Error)

  // ---------- small helpers of the source ----------

  function EffectiveDryRun(cfg: Config, intent: Intent): bool
  {
    cfg.dryRun || intent.dryRun
  }

  function FirstString(values: seq<string>, fallback: string): string
  {
    if values == [] then fallback
    else if values[0] != "" then values[0]
    else FirstString(values[1..], fallback)
  }

  function StringFromPayload(payload: map<string, Value>, key: string): string
  {
    if key in payload && payload[key].Str? then TrimSpace(payload[key].s) else ""
  }

  function CompactStrings(values: seq<string>): seq<string>
  {
    if values == [] then []
    else
      var trimmed := TrimSpace(values[0]);
      (if trimmed != "" then [trimmed] else []) + CompactStrings(values[1..])
  }

  function StringsAmong(values: seq<Value>): seq<string>
  {
    if values == [] then []
    else (if values[0].Str? then [values[0].s] else []) + StringsAmong(values[1..])
  }

  function StringSliceFromPayload(payload: map<string, Value>, key: string): seq<string>
  {
    if key !in payload then []
    else
      match payload[key]
      case StrList(ss) => CompactStrings(ss)
      case AnyList(vs) => CompactStrings(StringsAmong(vs))
      case _ => []
  }

  /** The comment a close action posts first, if any. */
  function CloseComment(intent: Intent): string
  {
    var comment := StringFromPayload(intent.payload, "comment");
    if comment == "" then StringFromPayload(intent.payload, "comment_body") else comment
  }

  // ---------- policy ----------

  function PolicyError(cfg: Config, intent: Intent): Option<Error>
  {
    if intent.action.NoAction? then Some(ActionRequired)
    else if EffectiveDryRun(cfg, intent) then None
    else
      match cfg.policy
      case Advisory => Some(AdvisoryDenies)
      case Unset => Some(AdvisoryDenies)
      case Guarded => if intent.action.Comment? || intent.action.Label? then None else Some(GuardedDenies)
      case Autonomous => None
      case OtherProfile => Some(UnknownPolicyProfile)
  }

  // ---------- preflight ----------

  predicate IsGreenCI(status: string)
  {
    var s := ToLower(TrimSpace(status));
    s == "success" || s == "passed" || s == "green" || s == "clean"
  }

  function BaseBranchOf(pr: FakePR): string
  {
    if pr.baseBranch == "" then "main" else pr.baseBranch
  }

  function ExpectedSHA(intent: Intent): string
  {
    if "expected_head_sha" in intent.payload && intent.payload["expected_head_sha"].Str?
    then intent.payload["expected_head_sha"].s else ""
  }

  function MergeChecks(g: GitHub, pr: FakePR): Option<Error>
  {
    if !IsGreenCI(if g.ciStatus == "" then "success" else g.ciStatus) then Some(CINotGreen)
    else if !(if g.mergeable.Some? then g.mergeable.value else pr.mergeable) then Some(NotMergeable)
    else if !g.requiredReviews then Some(ReviewsMissing)
    else None
  }

  /** The nine checks in order; the first that fails. */
  function PreflightError(w: World, intent: Intent): Option<Error>
  {
    var g := w.github;
    if intent.number !in g.prs then Some(NotFound)
    else
      var pr := g.prs[intent.number];
      var expected := ExpectedSHA(intent);
      var allowed := StringSliceFromPayload(intent.payload, "allowed_branches");
      if ToLower(pr.state) != "open" then Some(NotOpen)
      else if expected != "" && pr.headSHA != expected then Some(HeadSHAChanged)
      else if allowed != [] && BaseBranchOf(pr) !in allowed then Some(BaseBranchNotAllowed)
      else if intent.action.Merge? && MergeChecks(g, pr).Some? then MergeChecks(g, pr)
      else if g.rateLimitRemaining <= 0 then Some(RateLimitExhausted)
      else if IsExecuted(w.ledger, intent.key) then Some(KeyAlreadyExecuted)
      else None
  }

  // ---------- verification after a mutation ----------

  predicate InState(g: GitHub, n: int, state: string)
  {
    n in g.prs && g.prs[n].state == state
  }

  predicate SameText(a: string, b: string)
  {
    TrimSpace(a) == TrimSpace(b)
  }

  predicate HasText(comments: seq<string>, body: string)
  {
    exists i :: 0 <= i < |comments| && SameText(comments[i], body)
  }

  predicate HasComment(g: GitHub, n: int, body: string)
  {
    n in g.prs && HasText(CommentsOf(g, n), body)
  }

  predicate HasLabel(g: GitHub, n: int, name: string)
  {
    n in g.prs && exists l :: l in LabelsOf(g, n) && ToLower(l) == ToLower(name)
  }

  const ACTION_LABEL := "pratc-action"

  // ---------- the action switch ----------

  /** The mutation and its verification. */
  function Act(g: GitHub, intent: Intent, dryRun: bool): (GitHub, Option<Error>)
    requires !intent.action.NoAction?
  {
    var n := intent.number;
    match intent.action
    case Merge =>
      var (h, r) := MergeEffect(g, n, dryRun);
      (h, if r.Err? then Some(r.error) else if !dryRun && !InState(h, n, "merged") then Some(VerificationFailed) else None)
    case Close => ActClose(g, intent, dryRun)
    case Comment => ActComment(g, intent, dryRun)
    case RequestChanges => ActComment(g, intent, dryRun)
    case Label =>
      var (h, r) := LabelEffect(g, n, [ACTION_LABEL], dryRun);
      (h, if r.Err? then Some(r.error) else if !dryRun && !HasLabel(h, n, ACTION_LABEL) then Some(VerificationFailed) else None)
    case ApplyFix =>
      var (h, r) := ApplyFixEffect(g, n, dryRun);
      (h, if r.Err? then Some(r.error) else if !dryRun && !InState(h, n, "open") then Some(VerificationFailed) else None)
    case OtherAction => (g, Some(UnknownAction))
  }

  function ActComment(g: GitHub, intent: Intent, dryRun: bool): (GitHub, Option<Error>)
  {
    var body := FirstString(intent.reasons, "prATC action intent");
    var (h, r) := CommentEffect(g, intent.number, body, dryRun);
    (h, if r.Err? then Some(r.error)
        else if !dryRun && !HasComment(h, intent.number, body) then Some(VerificationFailed)
        else None)
  }

  predicate LacksText(intent: Intent)
  {
    TrimSpace(FirstString(intent.reasons, "")) == "" && TrimSpace(CloseComment(intent)) == ""
  }

  /** Closing posts the comment first, then closes, then verifies both. */
  function ActClose(g: GitHub, intent: Intent, dryRun: bool): (GitHub, Option<Error>)
  {
    var n, body := intent.number, CloseComment(intent);
    if LacksText(intent) then (g, Some(TextRequired))
    else
      var (h, c) := if body != "" then CommentEffect(g, n, body, dryRun) else (g, Ok(()));
      if c.Err? then (h, Some(c.error))
      else
        var (k, r) := CloseEffect(h, n, dryRun);
        (k, if r.Err? then Some(r.error)
            else if dryRun then None
            else if !InState(k, n, "closed") then Some(VerificationFailed)
            else if body != "" && !HasComment(k, n, body) then Some(VerificationFailed)
            else None)
  }

  // ---------- ExecuteIntent ----------

  function Note(w: World, key: string, t: Transition, s: Snapshot): World
  {
    w.(ledger := RecordEffect(w.ledger, key, Record(t, s)))
  }

  /** Why a call stops before it mutates anything, after its key was checked. */
  function Refusal(cfg: Config, intent: Intent, w: World): Option<Error>
  {
    var denied := PolicyError(cfg, intent);
    if denied.Some? then denied else PreflightError(w, intent)
  }

  function Execute(cfg: Config, intent: Intent, w: World): (World, Outcome)
  {
    if intent.key == "" then (w, Failure(KeyRequired))
    else
      var key := intent.key;
      var dryRun := EffectiveDryRun(cfg, intent);
      var w1 := Note(w, key, Proposed, IntentSnapshot(intent.number, intent.dryRun));
      if IsExecuted(w1.ledger, key) then (w1, AlreadyExecuted)
      else
        var refused := Refusal(cfg, intent, w1);
        if refused.Some? then (Note(w1, key, Failed, FailureSnapshot(refused.value)), Failure(refused.value))
        else
          var w2 := Note(w1, key, Preflighted, PreflightPassed(intent.number));
          var (g, failed) := Act(w2.github, intent, dryRun);
          var w3 := w2.(github := g);
          if failed == Some(UnknownAction) then (w3, Failure(UnknownAction))
          else if failed.Some? then (Note(w3, key, Failed, FailureSnapshot(failed.value)), Failure(failed.value))
          else
            var w4 := Note(w3, key, Executed, ResultSnapshot(intent.number, dryRun));
            (Note(w4, key, Executed, CompatSnapshot), Done(dryRun))
  }
}
