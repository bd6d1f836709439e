/**
 Safety of the executor over whole runs: any sequence of intents, executed under any mix of
 configurations that share one ledger and one GitHub, with pull requests registered and circuit
 breaker denials recorded in between.
 */
module ExecutorRuns {
  import opened Results
  import opened Sequences
  import opened Text
  import opened GitHubState
  import opened Ledgers
  import opened ActionTypes
  import opened ExecutorModel

  // ---------- one call: nothing written unless it succeeds ----------

  /** The merged and closed flags agree with the state text. */
  ghost predicate Consistent(g: GitHub)
  {
    forall n :: n in g.prs ==> ConsistentPR(g.prs[n])
  }

  predicate ConsistentPR(pr: FakePR)
  {
    && (pr.merged <==> pr.state == "merged") && (pr.closed <==> pr.state == "closed")
    && (pr.state == "open" || pr.state == "merged" || pr.state == "closed")
  }

  /** The world in which a call's refusal is decided: its own proposal is already recorded. */
  function AfterProposal(intent: Intent, w: World): World
  {
    Note(w, intent.key, Proposed, IntentSnapshot(intent.number, intent.dryRun))
  }

  /** The call gets as far as its mutation. */
  predicate Reaches(cfg: Config, intent: Intent, w: World)
  {
    && intent.key != "" && !IsExecuted(w.ledger, intent.key)
    && Refusal(cfg, intent, AfterProposal(intent, w)).None?
  }

  /**
   The two ways a failing call leaves a write behind: a close whose comment is posted before the
   merged flag of a pull request in an open state is noticed, and a fix whose pull request is open
   to the preflight check, which ignores case, but not to the verification, which does not.
   */
  predicate TornWrite(cfg: Config, intent: Intent, w: World)
  {
    && Reaches(cfg, intent, w) && !EffectiveDryRun(cfg, intent)
    && var pr := w.github.prs[intent.number];
       || (intent.action.Close? && !LacksText(intent) && CloseComment(intent) != "" && pr.merged)
       || (intent.action.ApplyFix? && pr.state != "open")
  }

  lemma ProposalKeepsExecuted(intent: Intent, w: World)
    ensures IsExecuted(AfterProposal(intent, w).ledger, intent.key) <==> IsExecuted(w.ledger, intent.key)
  {
    RecordedTransitions(HistoryOf(w.ledger, intent.key), Record(Proposed, IntentSnapshot(intent.number, intent.dryRun)));
  }

  lemma OpenIsNot(s: string)
    requires ToLower(s) == "open"
    ensures s != "merged" && s != "closed"
  {
    assert |s| == 4;
    assert |"merged"| == 6 && |"closed"| == 6;
  }

  lemma CommentIsFound(g: GitHub, n: int, body: string)
    requires n in g.prs
    ensures HasComment(CommentEffect(g, n, body, false).0, n, body)
  {
    var h := CommentEffect(g, n, body, false).0;
    assert SameText(CommentsOf(h, n)[|CommentsOf(g, n)|], body);
  }

  lemma LabelIsFound(g: GitHub, n: int)
    requires n in g.prs
    ensures HasLabel(LabelEffect(g, n, [ACTION_LABEL], false).0, n, ACTION_LABEL)
  {
    assert ACTION_LABEL in [ACTION_LABEL];
    assert ACTION_LABEL in LabelsOf(LabelEffect(g, n, [ACTION_LABEL], false).0, n);
  }

  /** How many writes a successful live call makes. */
  function WriteCost(intent: Intent): nat
  {
    if intent.action.Close? && CloseComment(intent) != "" then 2 else 1
  }

  /** What the mutation does once the checks have passed: its writes, and when a failure leaves one. */
  ghost predicate WritesAsExpected(g: GitHub, intent: Intent, dryRun: bool, h: GitHub, failed: Option<Error>)
    requires intent.number in g.prs
  {
    var pr := g.prs[intent.number];
    && (dryRun ==> SameState(g, h))
    && (!dryRun && failed.None? && !(intent.action.Merge? && pr.merged) ==> h.writes == g.writes + WriteCost(intent))
    && (failed.Some? && !SameState(g, h) <==>
          !dryRun && ((intent.action.Close? && !LacksText(intent) && CloseComment(intent) != "" && pr.merged)
                      || (intent.action.ApplyFix? && pr.state != "open")))
  }

  predicate AtOpen(g: GitHub, intent: Intent)
  {
    !intent.action.NoAction? && intent.number in g.prs && ToLower(g.prs[intent.number].state) == "open"
  }

  lemma ActWrites(g: GitHub, intent: Intent, dryRun: bool)
    requires AtOpen(g, intent)
    ensures WritesAsExpected(g, intent, dryRun, Act(g, intent, dryRun).0, Act(g, intent, dryRun).1)
  {
    match intent.action
    case Merge => ActMergeWrites(g, intent, dryRun);
    case Close => ActCloseWrites(g, intent, dryRun);
    case Comment => ActCommentWrites(g, intent, dryRun);
    case RequestChanges => ActCommentWrites(g, intent, dryRun);
    case Label => LabelIsFound(g, intent.number);
    case ApplyFix =>
    case OtherAction =>
  }

  lemma ActMergeWrites(g: GitHub, intent: Intent, dryRun: bool)
    requires AtOpen(g, intent) && intent.action.Merge?
    ensures WritesAsExpected(g, intent, dryRun, Act(g, intent, dryRun).0, Act(g, intent, dryRun).1)
  {
    OpenIsNot(g.prs[intent.number].state);
  }

  lemma ActCommentWrites(g: GitHub, intent: Intent, dryRun: bool)
    requires AtOpen(g, intent) && (intent.action.Comment? || intent.action.RequestChanges?)
    ensures WritesAsExpected(g, intent, dryRun, ActComment(g, intent, dryRun).0, ActComment(g, intent, dryRun).1)
  {
    CommentIsFound(g, intent.number, FirstString(intent.reasons, "prATC action intent"));
  }

  lemma ActCloseWrites(g: GitHub, intent: Intent, dryRun: bool)
    requires AtOpen(g, intent) && intent.action.Close?
    ensures WritesAsExpected(g, intent, dryRun, ActClose(g, intent, dryRun).0, ActClose(g, intent, dryRun).1)
  {
    var n, body := intent.number, CloseComment(intent);
    OpenIsNot(g.prs[n].state);
    if body != "" && !dryRun {
      CommentIsFound(g, n, body);
      var h := CommentEffect(g, n, body, false).0;
      assert h.prs == g.prs && h.writes == g.writes + 1;
      var k := CloseEffect(h, n, false).0;
      assert CommentsOf(k, n) == CommentsOf(h, n);
    }
  }

  /** What a call does to GitHub is its mutation, if it gets that far. */
  lemma ExecuteGitHub(cfg: Config, intent: Intent, w: World)
    ensures var (w', outcome) := Execute(cfg, intent, w);
            var dryRun := EffectiveDryRun(cfg, intent);
            if Reaches(cfg, intent, w) then
              && AtOpen(w.github, intent) && PolicyError(cfg, intent).None?
              && w'.github == Act(w.github, intent, dryRun).0
              && (outcome == Done(dryRun) <==> Act(w.github, intent, dryRun).1.None?)
              && (outcome.Done? ==> outcome == Done(dryRun)) && !outcome.AlreadyExecuted?
            else w'.github == w.github && !outcome.Done?
  {
    ProposalKeepsExecuted(intent, w);
  }

  /**
   A call that fails, or finds its key executed, leaves pull requests, comments, labels and the
   write count alone, except exactly in the two torn cases.
   */
  lemma FailureLeavesState(cfg: Config, intent: Intent, w: World)
    ensures var (w', outcome) := Execute(cfg, intent, w);
            && (!outcome.Done? && !SameState(w.github, w'.github) <==> TornWrite(cfg, intent, w))
            && (outcome.AlreadyExecuted? ==> w'.github == w.github)
  {
    ExecuteGitHub(cfg, intent, w);
    if Reaches(cfg, intent, w) {
      ActWrites(w.github, intent, EffectiveDryRun(cfg, intent));
    }
  }

  /** A live fix on a pull request whose state reads "Open" passes preflight, is counted as a write, and fails. */
  lemma TornFixWitness(ledger: map<string, History>, key: string)
    requires key != "" && !IsExecuted(ledger, key)
    ensures var pr := FakePR("Open", true, "", false, false, "");
            var g := GitHub(map[1 := pr], map[], map[], [], 0, "success", None, true, 5000);
            var (w', outcome) := Execute(Config(false, Autonomous), Intent(ApplyFix, 1, false, [], key, map[]), World(g, ledger));
            outcome == Failure(VerificationFailed) && w'.github.writes == 1
  {
    var pr := FakePR("Open", true, "", false, false, "");
    var g := GitHub(map[1 := pr], map[], map[], [], 0, "success", None, true, 5000);
    var intent := Intent(ApplyFix, 1, false, [], key, map[]);
    var w := World(g, ledger);
    ProposalKeepsExecuted(intent, w);
    assert ToLower("Open") == ['o', 'p', 'e', 'n'];
    assert "Open"[0] != "open"[0];
  }

  /** A live close whose pull request has the merged flag in an open state: the comment stays, the close fails. */
  lemma TornCloseWitness(ledger: map<string, History>, key: string)
    requires key != "" && !IsExecuted(ledger, key)
    ensures var pr := FakePR("open", true, "", true, false, "");
            var g := GitHub(map[1 := pr], map[], map[], [], 0, "success", None, true, 5000);
            var intent := Intent(Close, 1, false, [], key, map["comment" := Str("x")]);
            var (w', outcome) := Execute(Config(false, Autonomous), intent, World(g, ledger));
            outcome == Failure(PRIsMerged) && w'.github.writes == 1 && CommentsOf(w'.github, 1) == ["x"]
  {
    var pr := FakePR("open", true, "", true, false, "");
    var g := GitHub(map[1 := pr], map[], map[], [], 0, "success", None, true, 5000);
    var intent := Intent(Close, 1, false, [], key, map["comment" := Str("x")]);
    var w := World(g, ledger);
    ProposalKeepsExecuted(intent, w);
    TrimSpaceKeeps("x");
    assert CloseComment(intent) == "x";
    assert ToLower("open") == ['o', 'p', 'e', 'n'];
  }

  // ---------- what the gates guarantee ----------

  /** The profile lets the action change GitHub. */
  predicate ProfileAllows(cfg: Config, intent: Intent)
  {
    cfg.policy.Autonomous? || (cfg.policy.Guarded? && (intent.action.Comment? || intent.action.Label?))
  }

  /** What preflight has established before any action: an open pull request at the expected commit and base. */
  predicate ReadyToAct(g: GitHub, intent: Intent)
  {
    && intent.number in g.prs
    && var pr := g.prs[intent.number];
    var expected, allowed := ExpectedSHA(intent), StringSliceFromPayload(intent.payload, "allowed_branches");
    && ToLower(pr.state) == "open"
    && (expected == "" || pr.headSHA == expected)
    && (allowed == [] || BaseBranchOf(pr) in allowed)
    && g.rateLimitRemaining > 0
  }

  predicate ReadyToMerge(g: GitHub, intent: Intent)
  {
    && ReadyToAct(g, intent)
    && IsGreenCI(if g.ciStatus == "" then "success" else g.ciStatus)
    && (if g.mergeable.Some? then g.mergeable.value else g.prs[intent.number].mergeable)
    && g.prs[intent.number].mergeable && g.requiredReviews
  }

  /** Whatever a call changes on GitHub, its profile allowed, live, on a pull request that passed preflight. */
  lemma WritersAreAllowed(cfg: Config, intent: Intent, w: World)
    ensures var (w', outcome) := Execute(cfg, intent, w);
            !SameState(w.github, w'.github) ==>
              !EffectiveDryRun(cfg, intent) && ProfileAllows(cfg, intent) && ReadyToAct(w.github, intent)
              && intent.key != "" && !IsExecuted(w.ledger, intent.key)
  {
    ExecuteGitHub(cfg, intent, w);
    if Reaches(cfg, intent, w) {
      ActWrites(w.github, intent, EffectiveDryRun(cfg, intent));
    }
  }

  /** A merge that succeeds live was allowed and ready, and has merged this pull request and changed nothing else. */
  lemma LiveMergeGuarded(cfg: Config, intent: Intent, w: World)
    requires intent.action.Merge? && Execute(cfg, intent, w).1 == Done(false)
    ensures cfg.policy.Autonomous? && ReadyToMerge(w.github, intent)
    ensures var g, h, n := w.github, Execute(cfg, intent, w).0.github, intent.number;
            h == g.(prs := g.prs[n := g.prs[n].(merged := true, state := "merged")], writes := g.writes + 1, log := h.log)
  {
    ExecuteGitHub(cfg, intent, w);
    OpenIsNot(w.github.prs[intent.number].state);
  }

  /** On a consistent GitHub a call writes only if it succeeds live, and then what its action costs. */
  lemma ConsistentWrites(cfg: Config, intent: Intent, w: World)
    requires Consistent(w.github)
    ensures !TornWrite(cfg, intent, w)
    ensures var (w', outcome) := Execute(cfg, intent, w);
            if outcome == Done(false) then w'.github.writes == w.github.writes + WriteCost(intent)
            else SameState(w.github, w'.github)
  {
    ExecuteGitHub(cfg, intent, w);
    FailureLeavesState(cfg, intent, w);
    if Reaches(cfg, intent, w) {
      var pr := w.github.prs[intent.number];
      OpenIsNot(pr.state);
      assert ConsistentPR(pr);
      ActWrites(w.github, intent, EffectiveDryRun(cfg, intent));
    }
  }

  // ---------- runs ----------

  /** A call, a registration, a denial by the breaker, or any other change of GitHub between calls. */
  datatype Event =
    | Call(cfg: Config, intent: Intent)
    | Upsert(number: int, pr: FakePR)
    | Deny(key: string)
    | Outside(github: GitHub)

  function Apply(e: Event, w: World): World
  {
    match e
    case Call(cfg, intent) => Execute(cfg, intent, w).0
    case Upsert(n, pr) => w.(github := UpsertEffect(w.github, n, pr))
    case Deny(key) => Note(w, key, CircuitDenied, DeniedSnapshot)
    case Outside(g) => w.(github := g)
  }

  /** The world after the first n events of a run. */
  function Run(w: World, events: seq<Event>, n: nat): World
    requires n <= |events|
  {
    if n == 0 then w else Apply(events[n - 1], Run(w, events, n - 1))
  }

  function OutcomeAt(w: World, events: seq<Event>, i: nat): Outcome
    requires i < |events| && events[i].Call?
  {
    Execute(events[i].cfg, events[i].intent, Run(w, events, i)).1
  }

  // ---------- each key succeeds at most once ----------

  lemma NoteKeepsExecuted(w: World, key: string, t: Transition, s: Snapshot, other: string)
    ensures IsExecuted(Note(w, key, t, s).ledger, other) <==> IsExecuted(w.ledger, other) || (t == Executed && key == other)
  {
    RecordedTransitions(HistoryOf(w.ledger, key), Record(t, s));
  }

  lemma ExecuteMarks(cfg: Config, intent: Intent, w: World, key: string)
    ensures var (w', outcome) := Execute(cfg, intent, w);
            && (IsExecuted(w'.ledger, key) <==> IsExecuted(w.ledger, key) || (outcome.Done? && key == intent.key))
            && (IsExecuted(w.ledger, intent.key) && intent.key != "" ==> outcome == AlreadyExecuted)
            && (outcome.Done? ==> !IsExecuted(w.ledger, intent.key) && intent.key != "")
  {
    if intent.key != "" {
      var k := intent.key;
      var dryRun := EffectiveDryRun(cfg, intent);
      var w1 := AfterProposal(intent, w);
      NoteKeepsExecuted(w, k, Proposed, IntentSnapshot(intent.number, intent.dryRun), key);
      NoteKeepsExecuted(w, k, Proposed, IntentSnapshot(intent.number, intent.dryRun), k);
      if !IsExecuted(w1.ledger, k) {
        var refused := Refusal(cfg, intent, w1);
        if refused.Some? {
          NoteKeepsExecuted(w1, k, Failed, FailureSnapshot(refused.value), key);
        } else {
          NoteKeepsExecuted(w1, k, Preflighted, PreflightPassed(intent.number), key);
          var w2 := Note(w1, k, Preflighted, PreflightPassed(intent.number));
          var (g, failed) := Act(w2.github, intent, dryRun);
          var w3 := w2.(github := g);
          if failed.Some? {
            NoteKeepsExecuted(w3, k, Failed, FailureSnapshot(failed.value), key);
          } else {
            NoteKeepsExecuted(w3, k, Executed, ResultSnapshot(intent.number, dryRun), key);
            NoteKeepsExecuted(Note(w3, k, Executed, ResultSnapshot(intent.number, dryRun)), k, Executed, CompatSnapshot, key);
          }
        }
      }
    }
  }

  lemma ApplyKeepsExecuted(e: Event, w: World, key: string)
    requires IsExecuted(w.ledger, key)
    ensures IsExecuted(Apply(e, w).ledger, key)
  {
    match e
    case Call(cfg, intent) => ExecuteMarks(cfg, intent, w, key);
    case Upsert(_, _) =>
    case Deny(k) => NoteKeepsExecuted(w, k, CircuitDenied, DeniedSnapshot, key);
    case Outside(_) =>
  }

  lemma {:induction false} ExecutedForGood(w: World, events: seq<Event>, i: nat, j: nat, key: string)
    requires i <= j <= |events| && IsExecuted(Run(w, events, i).ledger, key)
    ensures IsExecuted(Run(w, events, j).ledger, key)
    decreases j
  {
    if i < j {
      ExecutedForGood(w, events, i, j - 1, key);
      ApplyKeepsExecuted(events[j - 1], Run(w, events, j - 1), key);
    }
  }

  /**
   In any run, whatever else changes GitHub in between, once a key has succeeded, live or dry, every
   later call with it reports that it was executed already and does not touch GitHub: no key succeeds
   twice.
   */
  lemma AtMostOnce(w: World, events: seq<Event>, i: nat, j: nat)
    requires i < j < |events| && events[i].Call? && events[j].Call?
    requires events[i].intent.key == events[j].intent.key && OutcomeAt(w, events, i).Done?
    ensures OutcomeAt(w, events, j) == AlreadyExecuted
    ensures Run(w, events, j + 1).github == Run(w, events, j).github
  {
    var key := events[i].intent.key;
    ExecuteMarks(events[i].cfg, events[i].intent, Run(w, events, i), key);
    ExecutedForGood(w, events, i + 1, j, key);
    ExecuteMarks(events[j].cfg, events[j].intent, Run(w, events, j), key);
    FailureLeavesState(events[j].cfg, events[j].intent, Run(w, events, j));
  }

  // ---------- modes that may not write ----------

  predicate MayNotWrite(e: Event)
  {
    e.Deny? || (e.Call? && (EffectiveDryRun(e.cfg, e.intent) || !(e.cfg.policy.Guarded? || e.cfg.policy.Autonomous?)))
  }

  predicate MayOnlyAnnotate(e: Event)
  {
    MayNotWrite(e) || (e.Call? && e.cfg.policy.Guarded?)
  }

  /** Equal up to comments, labels, their write count and the log. */
  predicate SamePullRequests(g: GitHub, h: GitHub)
  {
    h == g.(comments := h.comments, labels := h.labels, writes := h.writes, log := h.log)
  }

  lemma DryRunWritesNothing(e: Event, w: World)
    requires MayNotWrite(e)
    ensures SameState(w.github, Apply(e, w).github)
  {
    if e.Call? {
      ExecuteGitHub(e.cfg, e.intent, w);
      if Reaches(e.cfg, e.intent, w) {
        ActWrites(w.github, e.intent, EffectiveDryRun(e.cfg, e.intent));
      }
    }
  }

  lemma GuardedOnlyAnnotates(e: Event, w: World)
    requires MayOnlyAnnotate(e)
    ensures SamePullRequests(w.github, Apply(e, w).github)
  {
    if MayNotWrite(e) {
      DryRunWritesNothing(e, w);
    } else {
      ExecuteGitHub(e.cfg, e.intent, w);
    }
  }

  /** A run of dry-run and advisory calls changes nothing on GitHub but the log. */
  lemma {:induction false} NoWriteRun(w: World, events: seq<Event>, m: nat)
    requires m <= |events|
    requires forall e :: e in events ==> MayNotWrite(e)
    ensures SameState(w.github, Run(w, events, m).github)
  {
    if m > 0 {
      NoWriteRun(w, events, m - 1);
      DryRunWritesNothing(events[m - 1], Run(w, events, m - 1));
    }
  }

  /** A run in which live calls are guarded changes no pull request, only comments and labels. */
  lemma {:induction false} GuardedRun(w: World, events: seq<Event>, m: nat)
    requires m <= |events|
    requires forall e :: e in events ==> MayOnlyAnnotate(e)
    ensures SamePullRequests(w.github, Run(w, events, m).github)
  {
    if m > 0 {
      GuardedRun(w, events, m - 1);
      GuardedOnlyAnnotates(events[m - 1], Run(w, events, m - 1));
    }
  }

  // ---------- pull requests that are merged or closed stay so ----------

  /** Registrations are consistent, and nothing but calls and registrations changes GitHub. */
  predicate RegistersConsistently(e: Event)
  {
    && !e.Outside?
    && (e.Upsert? ==> ConsistentPR(e.pr) || (e.pr.state == "" && !e.pr.merged && !e.pr.closed))
  }

  /** The pull requests after a mutation: at most the one named has been merged or closed. */
  predicate Moved(g: GitHub, n: int, h: GitHub)
    requires n in g.prs
  {
    || h.prs == g.prs
    || (!g.prs[n].closed && h.prs == g.prs[n := g.prs[n].(merged := true, state := "merged")])
    || (!g.prs[n].merged && h.prs == g.prs[n := g.prs[n].(closed := true, state := "closed")])
  }

  lemma ActMoves(g: GitHub, intent: Intent, dryRun: bool)
    requires AtOpen(g, intent)
    ensures Moved(g, intent.number, Act(g, intent, dryRun).0)
  {
    match intent.action
    case Close => ActCloseMoves(g, intent, dryRun);
    case Merge =>
    case Comment =>
    case RequestChanges =>
    case Label =>
    case ApplyFix =>
    case OtherAction =>
  }

  lemma ActCloseMoves(g: GitHub, intent: Intent, dryRun: bool)
    requires intent.number in g.prs
    ensures Moved(g, intent.number, ActClose(g, intent, dryRun).0)
  {
    var n, body := intent.number, CloseComment(intent);
    var h := if body != "" then CommentEffect(g, n, body, dryRun).0 else g;
    assert h.prs == g.prs;
  }

  /** A call changes at most the pull request it names, and that one only out of the open state. */
  lemma CallTouches(cfg: Config, intent: Intent, w: World, n: int)
    requires Consistent(w.github)
    ensures var h := Execute(cfg, intent, w).0.github;
            && Consistent(h) && h.prs.Keys == w.github.prs.Keys
            && (n in h.prs && (n != intent.number || w.github.prs[n].state != "open") ==> h.prs[n] == w.github.prs[n])
  {
    ExecuteGitHub(cfg, intent, w);
    if Reaches(cfg, intent, w) {
      var g := w.github;
      OpenIsNot(g.prs[intent.number].state);
      assert ConsistentPR(g.prs[intent.number]);
      ActMoves(g, intent, EffectiveDryRun(cfg, intent));
      MovedKeeps(g, intent.number, Execute(cfg, intent, w).0.github, n);
    }
  }

  lemma MovedKeeps(g: GitHub, m: int, h: GitHub, n: int)
    requires Consistent(g) && m in g.prs && g.prs[m].state == "open" && Moved(g, m, h)
    ensures Consistent(h) && h.prs.Keys == g.prs.Keys
    ensures n in h.prs && (n != m || g.prs[n].state != "open") ==> h.prs[n] == g.prs[n]
  {
    assert ConsistentPR(g.prs[m]);
    forall k | k in h.prs ensures ConsistentPR(h.prs[k]) {
      assert k in g.prs && ConsistentPR(g.prs[k]);
    }
  }

  lemma ApplyKeepsConsistent(e: Event, w: World)
    requires Consistent(w.github) && RegistersConsistently(e)
    ensures Consistent(Apply(e, w).github)
  {
    if e.Call? { CallTouches(e.cfg, e.intent, w, 0); }
  }

  lemma {:induction false} ConsistentRun(w: World, events: seq<Event>, m: nat)
    requires m <= |events|
    requires Consistent(w.github) && forall e :: e in events ==> RegistersConsistently(e)
    ensures Consistent(Run(w, events, m).github)
  {
    if m > 0 {
      ConsistentRun(w, events, m - 1);
      ApplyKeepsConsistent(events[m - 1], Run(w, events, m - 1));
    }
  }

  lemma ApplyKeepsTerminal(e: Event, w: World, n: int)
    requires Consistent(w.github) && n in w.github.prs && w.github.prs[n].state != "open"
    requires RegistersConsistently(e) && !(e.Upsert? && e.number == n)
    ensures n in Apply(e, w).github.prs && Apply(e, w).github.prs[n] == w.github.prs[n]
  {
    if e.Call? { CallTouches(e.cfg, e.intent, w, n); }
  }

  /** Unless it is registered anew, a merged or closed pull request never changes again. */
  lemma {:induction false} TerminalStatesAbsorb(w: World, events: seq<Event>, m: nat, n: int)
    requires m <= |events|
    requires Consistent(w.github) && n in w.github.prs && w.github.prs[n].state != "open"
    requires forall e :: e in events ==> RegistersConsistently(e) && !(e.Upsert? && e.number == n)
    ensures n in Run(w, events, m).github.prs && Run(w, events, m).github.prs[n] == w.github.prs[n]
  {
    if m > 0 {
      var e := events[m - 1];
      TerminalStatesAbsorb(w, events, m - 1, n);
      ConsistentRun(w, events, m - 1);
      ApplyKeepsTerminal(e, Run(w, events, m - 1), n);
    }
  }

  // ---------- every write is paid for by a successful live call ----------

  predicate SucceedsLive(e: Event, w: World)
  {
    e.Call? && Execute(e.cfg, e.intent, w).1 == Done(false)
  }

  lemma WriteStep(e: Event, w: World)
    requires Consistent(w.github) && RegistersConsistently(e)
    ensures var w' := Apply(e, w);
            if SucceedsLive(e, w) then
              w.github.writes + 1 <= w'.github.writes <= w.github.writes + 2
              && !IsExecuted(w.ledger, e.intent.key) && IsExecuted(w'.ledger, e.intent.key)
            else w'.github.writes == w.github.writes
  {
    if e.Call? {
      ConsistentWrites(e.cfg, e.intent, w);
      ExecuteMarks(e.cfg, e.intent, w, e.intent.key);
    }
  }

  /** The keys that succeeded live. */
  ghost function LiveKeys(w: World, events: seq<Event>, m: nat): set<string>
    requires m <= |events|
  {
    if m == 0 then {}
    else
      LiveKeys(w, events, m - 1)
      + (if SucceedsLive(events[m - 1], Run(w, events, m - 1)) then {events[m - 1].intent.key} else {})
  }

  lemma {:induction false} LiveKeysAreExecuted(w: World, events: seq<Event>, m: nat)
    requires m <= |events| && Consistent(w.github) && forall e :: e in events ==> RegistersConsistently(e)
    ensures forall k :: k in LiveKeys(w, events, m) ==> IsExecuted(Run(w, events, m).ledger, k)
  {
    if m > 0 {
      var e, v := events[m - 1], Run(w, events, m - 1);
      LiveKeysAreExecuted(w, events, m - 1);
      ConsistentRun(w, events, m - 1);
      WriteStep(e, v);
      forall k | k in LiveKeys(w, events, m - 1) ensures IsExecuted(Apply(e, v).ledger, k) {
        ApplyKeepsExecuted(e, v, k);
      }
    }
  }

  lemma StepAccount(e: Event, v: World, keys: set<string>)
    requires Consistent(v.github) && RegistersConsistently(e) && forall k :: k in keys ==> IsExecuted(v.ledger, k)
    ensures var grown := |keys + (if SucceedsLive(e, v) then {e.intent.key} else {})| - |keys|;
            grown <= Apply(e, v).github.writes - v.github.writes <= 2 * grown
  {
    WriteStep(e, v);
    if SucceedsLive(e, v) {
      assert e.intent.key !in keys;
    } else {
      assert keys + {} == keys;
    }
  }

  /** On a consistent GitHub a whole run writes at least once and at most twice per key that succeeded live. */
  lemma {:induction false} WritesAreAccountedFor(w: World, events: seq<Event>, m: nat)
    requires m <= |events| && Consistent(w.github) && forall e :: e in events ==> RegistersConsistently(e)
    ensures var made := Run(w, events, m).github.writes - w.github.writes;
            |LiveKeys(w, events, m)| <= made <= 2 * |LiveKeys(w, events, m)|
  {
    if m > 0 {
      WritesAreAccountedFor(w, events, m - 1);
      RunAccount(w, events, m);
    }
  }

  lemma RunAccount(w: World, events: seq<Event>, m: nat)
    requires 0 < m <= |events| && Consistent(w.github) && forall e :: e in events ==> RegistersConsistently(e)
    ensures var grown := |LiveKeys(w, events, m)| - |LiveKeys(w, events, m - 1)|;
            grown <= Run(w, events, m).github.writes - Run(w, events, m - 1).github.writes <= 2 * grown
  {
    assert events[m - 1] in events;
    LiveKeysAreExecuted(w, events, m - 1);
    ConsistentRun(w, events, m - 1);
    StepAccount(events[m - 1], Run(w, events, m - 1), LiveKeys(w, events, m - 1));
  }

  // ---------- the order of ledger entries ----------

  ghost predicate Ordered(ts: seq<Transition>)
  {
    && Distinct(ts)
    && (forall i :: 0 <= i < |ts| && ts[i] == Preflighted ==> Proposed in ts[..i])
    && (forall i :: 0 <= i < |ts| && ts[i] == Executed ==> Preflighted in ts[..i])
  }

  ghost predicate OrderedLedger(ledger: map<string, History>)
  {
    forall key :: key in ledger ==> Ordered(Transitions(ledger[key]))
  }

  lemma OrderedAppend(ts: seq<Transition>, t: Transition)
    requires Ordered(ts) && t !in ts
    requires (t == Preflighted ==> Proposed in ts) && (t == Executed ==> Preflighted in ts)
    ensures Ordered(ts + [t])
  {
    var all := ts + [t];
    forall i | 0 <= i < |all| ensures all[..i] == if i < |ts| then ts[..i] else ts {}
  }

  lemma NoteOrdered(w: World, key: string, t: Transition, s: Snapshot)
    requires OrderedLedger(w.ledger)
    requires var ts := Transitions(HistoryOf(w.ledger, key));
             (t == Preflighted ==> Proposed in ts) && (t == Executed ==> Preflighted in ts)
    ensures OrderedLedger(Note(w, key, t, s).ledger)
    ensures t in Transitions(HistoryOf(Note(w, key, t, s).ledger, key))
    ensures forall u :: u in Transitions(HistoryOf(w.ledger, key)) ==> u in Transitions(HistoryOf(Note(w, key, t, s).ledger, key))
  {
    var h := HistoryOf(w.ledger, key);
    var ts := Transitions(h);
    RecordedTransitions(h, Record(t, s));
    assert Ordered(ts);
    if t !in ts { OrderedAppend(ts, t); }
  }

  lemma ExecuteOrdered(cfg: Config, intent: Intent, w: World)
    requires OrderedLedger(w.ledger)
    ensures OrderedLedger(Execute(cfg, intent, w).0.ledger)
  {
    if intent.key != "" {
      var k := intent.key;
      var dryRun := EffectiveDryRun(cfg, intent);
      var w1 := AfterProposal(intent, w);
      NoteOrdered(w, k, Proposed, IntentSnapshot(intent.number, intent.dryRun));
      if !IsExecuted(w1.ledger, k) {
        var refused := Refusal(cfg, intent, w1);
        if refused.Some? {
          NoteOrdered(w1, k, Failed, FailureSnapshot(refused.value));
        } else {
          NoteOrdered(w1, k, Preflighted, PreflightPassed(intent.number));
          var w2 := Note(w1, k, Preflighted, PreflightPassed(intent.number));
          var (g, failed) := Act(w2.github, intent, dryRun);
          var w3 := w2.(github := g);
          if failed.Some? {
            NoteOrdered(w3, k, Failed, FailureSnapshot(failed.value));
          } else {
            NoteOrdered(w3, k, Executed, ResultSnapshot(intent.number, dryRun));
            NoteOrdered(Note(w3, k, Executed, ResultSnapshot(intent.number, dryRun)), k, Executed, CompatSnapshot);
          }
        }
      }
    }
  }

  /** From an ordered ledger, such as an empty one, every run keeps each key's history ordered. */
  lemma {:induction false} OrderedRun(w: World, events: seq<Event>, m: nat)
    requires m <= |events|
    requires OrderedLedger(w.ledger)
    ensures OrderedLedger(Run(w, events, m).ledger)
  {
    if m > 0 {
      var e := events[m - 1];
      OrderedRun(w, events, m - 1);
      match e
      case Call(cfg, intent) => ExecuteOrdered(cfg, intent, Run(w, events, m - 1));
      case Upsert(_, _) =>
      case Deny(key) => NoteOrdered(Run(w, events, m - 1), key, CircuitDenied, DeniedSnapshot);
      case Outside(_) =>
    }
  }

  /** In an executed key's history proposed, preflighted and executed occur once each, in this order. */
  lemma ExecutedHistory(w: World, events: seq<Event>, m: nat, key: string) returns (p: nat, q: nat, r: nat)
    requires m <= |events| && OrderedLedger(w.ledger) && IsExecuted(Run(w, events, m).ledger, key)
    ensures var ts := Transitions(HistoryOf(Run(w, events, m).ledger, key));
            && p < q < r < |ts| && ts[p] == Proposed && ts[q] == Preflighted && ts[r] == Executed
            && Distinct(ts)
  {
    OrderedRun(w, events, m);
    var ts := Transitions(HistoryOf(Run(w, events, m).ledger, key));
    assert Ordered(ts);
    r := PositionOf(ts, Executed);
    q := PositionOf(ts[..r], Preflighted);
    p := PositionOf(ts[..q], Proposed);
  }

  lemma PositionOf(ts: seq<Transition>, t: Transition) returns (i: nat)
    requires t in ts
    ensures i < |ts| && ts[i] == t
  {
    i :| 0 <= i < |ts| && ts[i] == t;
  }
}
