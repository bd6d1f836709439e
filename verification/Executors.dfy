/**
 The executor object (internal/executor/executor.go): ExecuteIntent and its checks as methods over
 a GitHub and a ledger object, proved to do what ExecutorModel.Execute says.
 */
module Executors {
  import opened Results
  import opened Text
  import opened GitHubState
  import opened Ledgers
  import opened ActionTypes
  import opened ExecutorModel

  class Executor {
    const cfg: Config
    const mutator: FakeGitHub
    const ledger: MemoryLedger

    constructor (cfg: Config, mutator: FakeGitHub, ledger: MemoryLedger)
      ensures this.cfg == cfg && this.mutator == mutator && this.ledger == ledger
    {
      this.cfg, this.mutator, this.ledger := cfg, mutator, ledger;
    }

    ghost function View(): World
      reads mutator, ledger
    {
      World(mutator.View(), ledger.transitions)
    }

    /** A failed call is noted in the ledger before its error is returned. */
    method FailIntent(intent: Intent, cause: Error) returns (outcome: Outcome)
      modifies ledger
      ensures outcome == Failure(cause)
      ensures View() == Note(old(View()), intent.key, Failed, FailureSnapshot(cause))
    {
      ledger.RecordTransition(intent.key, Record(Failed, FailureSnapshot(cause)));
      return Failure(cause);
    }

    method PolicyAllows(intent: Intent) returns (error: Option<Error>)
      ensures error == PolicyError(cfg, intent)
      ensures (error.None?
               <==> !intent.action.NoAction?
                    && (cfg.dryRun || intent.dryRun || cfg.policy == Autonomous
                        || (cfg.policy == Guarded && intent.action in {Comment, Label})))
    {
      if intent.action.NoAction? {
        return Some(ActionRequired);
      }
      if EffectiveDryRun(cfg, intent) {
        return None;
      }
      match cfg.policy
      case Advisory => return Some(AdvisoryDenies);
      case Unset => return Some(AdvisoryDenies);
      case Guarded =>
        if intent.action.Comment? || intent.action.Label? {
          return None;
        }
        return Some(GuardedDenies);
      case Autonomous => return None;
      case OtherProfile => return Some(UnknownPolicyProfile);
    }

    method CheckBaseBranch(n: int, allowed: seq<string>) returns (ok: bool)
      requires n in mutator.prs
      ensures ok <==> allowed == [] || BaseBranchOf(mutator.prs[n]) in allowed
    {
      if |allowed| == 0 {
        return true;
      }
      var base := BaseBranchOf(mutator.prs[n]);
      for i := 0 to |allowed|
        invariant base !in allowed[..i]
      {
        if base == allowed[i] {
          return true;
        }
      }
      assert allowed[..|allowed|] == allowed;
      return false;
    }

    method CheckMerge(n: int) returns (error: Option<Error>)
      requires n in mutator.prs
      ensures error == MergeChecks(mutator.View(), mutator.prs[n])
    {
      var status := if mutator.ciStatus == "" then "success" else mutator.ciStatus;
      if !IsGreenCI(status) {
        return Some(CINotGreen);
      }
      var mergeable := if mutator.mergeable.Some? then mutator.mergeable.value else mutator.prs[n].mergeable;
      if !mergeable {
        return Some(NotMergeable);
      }
      if !mutator.requiredReviews {
        return Some(ReviewsMissing);
      }
      return None;
    }

    method RunPreflightChecks(intent: Intent) returns (error: Option<Error>)
      ensures error == PreflightError(View(), intent)
    {
      var n := intent.number;
      if n !in mutator.prs {
        return Some(NotFound);
      }
      if ToLower(mutator.prs[n].state) != "open" {
        return Some(NotOpen);
      }
      var expected := ExpectedSHA(intent);
      if expected != "" && mutator.prs[n].headSHA != expected {
        return Some(HeadSHAChanged);
      }
      var baseOk := CheckBaseBranch(n, StringSliceFromPayload(intent.payload, "allowed_branches"));
      if !baseOk {
        return Some(BaseBranchNotAllowed);
      }
      if intent.action.Merge? {
        error := CheckMerge(n);
        if error.Some? {
          return;
        }
      }
      if mutator.rateLimitRemaining <= 0 {
        return Some(RateLimitExhausted);
      }
      var executed := ledger.HasExecuted(intent.key);
      if executed {
        return Some(KeyAlreadyExecuted);
      }
      return None;
    }

    /** VerifyMerge, VerifyClose and VerifyFixApplied compare the state text. */
    method VerifyState(n: int, state: string) returns (ok: bool)
      ensures ok <==> InState(mutator.View(), n, state)
    {
      return n in mutator.prs && mutator.prs[n].state == state;
    }

    method VerifyComment(n: int, body: string) returns (found: bool)
      ensures found <==> HasComment(mutator.View(), n, body)
    {
      if n !in mutator.prs {
        return false;
      }
      found := FindText(if n in mutator.comments then mutator.comments[n] else [], body);
    }

    static method FindText(comments: seq<string>, body: string) returns (found: bool)
      ensures found <==> HasText(comments, body)
    {
      for i := 0 to |comments|
        invariant forall j :: 0 <= j < i ==> !SameText(comments[j], body)
      {
        if TrimSpace(comments[i]) == TrimSpace(body) {
          assert SameText(comments[i], body);
          return true;
        }
      }
      return false;
    }

    method VerifyLabel(n: int, name: string) returns (found: bool)
      ensures found <==> HasLabel(mutator.View(), n, name)
    {
      if n !in mutator.prs {
        return false;
      }
      var labels := if n in mutator.labels then mutator.labels[n] else {};
      assert labels == LabelsOf(mutator.View(), n);
      var existing := set l | l in labels :: ToLower(l);
      return ToLower(name) in existing;
    }

    method PostComment(intent: Intent, dryRun: bool) returns (error: Option<Error>)
      modifies mutator
      ensures (mutator.View(), error) == ActComment(old(mutator.View()), intent, dryRun)
    {
      var body := FirstString(intent.reasons, "prATC action intent");
      var r := mutator.AddComment(intent.number, body, dryRun);
      if r.Err? {
        return Some(r.error);
      }
      if !dryRun {
        var found := VerifyComment(intent.number, body);
        if !found {
          return Some(VerificationFailed);
        }
      }
      return None;
    }

    method CloseWithComment(intent: Intent, dryRun: bool) returns (error: Option<Error>)
      modifies mutator
      ensures (mutator.View(), error) == ActClose(old(mutator.View()), intent, dryRun)
    {
      var n, body := intent.number, CloseComment(intent);
      if LacksText(intent) {
        return Some(TextRequired);
      }
      if body != "" {
        var c := mutator.AddComment(n, body, dryRun);
        if c.Err? {
          return Some(c.error);
        }
      }
      var r := mutator.Close(n, dryRun);
      if r.Err? {
        return Some(r.error);
      }
      if !dryRun {
        var closed := VerifyState(n, "closed");
        if !closed {
          return Some(VerificationFailed);
        }
        if body != "" {
          var found := VerifyComment(n, body);
          if !found {
            return Some(VerificationFailed);
          }
        }
      }
      return None;
    }

    /** The switch over action kinds, each with its verification. */
    method Mutate(intent: Intent, dryRun: bool) returns (error: Option<Error>)
      requires !intent.action.NoAction?
      modifies mutator
      ensures (mutator.View(), error) == Act(old(mutator.View()), intent, dryRun)
    {
      var n := intent.number;
      match intent.action
      case Merge =>
        var r := mutator.Merge(n, dryRun);
        if r.Err? {
          return Some(r.error);
        }
        error := VerifyUnlessDry(n, "merged", dryRun);
      case Close =>
        error := CloseWithComment(intent, dryRun);
      case Comment =>
        error := PostComment(intent, dryRun);
      case RequestChanges =>
        error := PostComment(intent, dryRun);
      case Label =>
        var r := mutator.AddLabels(n, [ACTION_LABEL], dryRun);
        if r.Err? {
          return Some(r.error);
        }
        if !dryRun {
          var found := VerifyLabel(n, ACTION_LABEL);
          if !found {
            return Some(VerificationFailed);
          }
        }
        error := None;
      case ApplyFix =>
        var r := mutator.ApplyFix(n, dryRun);
        if r.Err? {
          return Some(r.error);
        }
        error := VerifyUnlessDry(n, "open", dryRun);
      case OtherAction =>
        error := Some(UnknownAction);
    }

    method VerifyUnlessDry(n: int, state: string, dryRun: bool) returns (error: Option<Error>)
      ensures error == if !dryRun && !InState(mutator.View(), n, state) then Some(VerificationFailed) else None
    {
      if !dryRun {
        var ok := VerifyState(n, state);
        if !ok {
          return Some(VerificationFailed);
        }
      }
      return None;
    }

    method ExecuteIntent(intent: Intent) returns (outcome: Outcome)
      modifies mutator, ledger
      ensures (View(), outcome) == Execute(cfg, intent, old(View()))
    {
      if intent.key == "" {
        return Failure(KeyRequired);
      }
      ledger.RecordTransition(intent.key, Record(Proposed, IntentSnapshot(intent.number, intent.dryRun)));
      var executed := ledger.HasExecuted(intent.key);
      if executed {
        return AlreadyExecuted;
      }
      var denied := PolicyAllows(intent);
      if denied.Some? {
        outcome := FailIntent(intent, denied.value);
        return;
      }
      var refused := RunPreflightChecks(intent);
      if refused.Some? {
        ledger.RecordTransition(intent.key, Record(Failed, FailureSnapshot(refused.value)));
        return Failure(refused.value);
      }
      ledger.RecordTransition(intent.key, Record(Preflighted, PreflightPassed(intent.number)));
      var dryRun := EffectiveDryRun(cfg, intent);
      var failed := Mutate(intent, dryRun);
      if failed == Some(UnknownAction) {
        return Failure(UnknownAction);
      }
      if failed.Some? {
        outcome := FailIntent(intent, failed.value);
        return;
      }
      ledger.RecordTransition(intent.key, Record(Executed, ResultSnapshot(intent.number, dryRun)));
      ledger.RecordTransition(intent.key, Record(Executed, CompatSnapshot));
      return Done(dryRun);
    }
  }
}
