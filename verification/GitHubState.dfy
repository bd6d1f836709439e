/**
 The in-memory GitHub (internal/executor/fake_github.go): its state, the effect of each mutation as
 a function, and the object whose methods have exactly these effects. Timestamps, titles and merge
 options are left out.
 */
module GitHubState {
  import opened Results

  datatype FakePR = FakePR(state: string, mergeable: bool, headSHA: string, merged: bool, closed: bool, baseBranch: string)

  datatype Operation = MergeOp | CloseOp | CommentOp | LabelOp | ApplyFixOp

  datatype LogEntry = LogEntry(op: Operation, number: int, dryRun: bool)

  datatype Error =
    | NotFound | PRIsClosed | PRIsMerged | NotMergeable
    | KeyRequired | ActionRequired | AdvisoryDenies | GuardedDenies | UnknownPolicyProfile
    | NotOpen | HeadSHAChanged | BaseBranchNotAllowed | CINotGreen | ReviewsMissing | RateLimitExhausted
    | KeyAlreadyExecuted | TextRequired | VerificationFailed | UnknownAction

  datatype GitHub = GitHub(
    prs: map<int, FakePR>,
    comments: map<int, seq<string>>,
    labels: map<int, set<string>>,
    log: seq<LogEntry>,
    writes: int,
    ciStatus: string,
    mergeable: Option<bool>,
    requiredReviews: bool,
    rateLimitRemaining: int)

  /** Everything an operator sees except the log. */
  predicate SameState(g: GitHub, h: GitHub)
  {
    h == g.(log := h.log)
  }

  function CommentsOf(g: GitHub, n: int): seq<string>
  {
    if n in g.comments then g.comments[n] else []
  }

  function LabelsOf(g: GitHub, n: int): set<string>
  {
    if n in g.labels then g.labels[n] else {}
  }

  function Logged(g: GitHub, op: Operation, n: int, dryRun: bool): GitHub
  {
    g.(log := g.log + [LogEntry(op, n, dryRun)])
  }

  /** Ok(true) when the pull request was merged already. */
  function MergeEffect(g: GitHub, n: int, dryRun: bool): (GitHub, Result<bool, Error>)
  {
    if n !in g.prs then (g, Err(NotFound))
    else
      var pr := g.prs[n];
      if pr.closed || pr.state == "closed" then (g, Err(PRIsClosed))
      else if pr.merged || pr.state == "merged" then (Logged(g, MergeOp, n, dryRun), Ok(true))
      else if !pr.mergeable then (g, Err(NotMergeable))
      else if dryRun then (Logged(g, MergeOp, n, dryRun), Ok(false))
      else
        (Logged(g.(prs := g.prs[n := pr.(merged := true, state := "merged")], writes := g.writes + 1), MergeOp, n, dryRun),
         Ok(false))
  }

  function CloseEffect(g: GitHub, n: int, dryRun: bool): (GitHub, Result<(), Error>)
  {
    if n !in g.prs then (g, Err(NotFound))
    else
      var pr := g.prs[n];
      if pr.merged || pr.state == "merged" then (g, Err(PRIsMerged))
      else if dryRun then (Logged(g, CloseOp, n, dryRun), Ok(()))
      else
        (Logged(g.(prs := g.prs[n := pr.(closed := true, state := "closed")], writes := g.writes + 1), CloseOp, n, dryRun),
         Ok(()))
  }

  function CommentEffect(g: GitHub, n: int, body: string, dryRun: bool): (GitHub, Result<(), Error>)
  {
    if n !in g.prs then (g, Err(NotFound))
    else if dryRun then (Logged(g, CommentOp, n, dryRun), Ok(()))
    else
      (Logged(g.(comments := g.comments[n := CommentsOf(g, n) + [body]], writes := g.writes + 1), CommentOp, n, dryRun), Ok(()))
  }

  function LabelEffect(g: GitHub, n: int, labels: seq<string>, dryRun: bool): (GitHub, Result<(), Error>)
  {
    if n !in g.prs then (g, Err(NotFound))
    else if dryRun then (Logged(g, LabelOp, n, dryRun), Ok(()))
    else
      (Logged(g.(labels := g.labels[n := LabelsOf(g, n) + (set l | l in labels)], writes := g.writes + 1), LabelOp, n, dryRun),
       Ok(()))
  }

  function ApplyFixEffect(g: GitHub, n: int, dryRun: bool): (GitHub, Result<(), Error>)
  {
    if n !in g.prs then (g, Err(NotFound))
    else
      var logged := Logged(g, ApplyFixOp, n, dryRun);
      (if dryRun then logged else logged.(writes := g.writes + 1), Ok(()))
  }

  /** Registering a pull request; an empty state means open. */
  function UpsertEffect(g: GitHub, n: int, pr: FakePR): GitHub
  {
    g.(prs := g.prs[n := if pr.state == "" then pr.(state := "open") else pr])
  }

  class FakeGitHub {
    var prs: map<int, FakePR>
    var comments: map<int, seq<string>>
    var labels: map<int, set<string>>
    var log: seq<LogEntry>
    var ciStatus: string
    var mergeable: Option<bool>
    var requiredReviews: bool
    var rateLimitRemaining: int
    var writes: int

    ghost function View(): GitHub
      reads this
    {
      GitHub(prs, comments, labels, log, writes, ciStatus, mergeable, requiredReviews, rateLimitRemaining)
    }

    constructor ()
      ensures View() == GitHub(map[], map[], map[], [], 0, "success", None, true, 5000)
    {
      prs, comments, labels, log, writes := map[], map[], map[], [], 0;
      ciStatus, mergeable, requiredReviews, rateLimitRemaining := "success", None, true, 5000;
    }

    method UpsertPR(n: int, pr: FakePR)
      modifies this
      ensures View() == UpsertEffect(old(View()), n, pr)
    {
      var stored := pr;
      if stored.state == "" {
        stored := stored.(state := "open");
      }
      prs := prs[n := stored];
    }

    method AppendLog(op: Operation, n: int, dryRun: bool)
      modifies this`log
      ensures log == old(log) + [LogEntry(op, n, dryRun)]
    {
      log := log + [LogEntry(op, n, dryRun)];
    }

    method Merge(n: int, dryRun: bool) returns (r: Result<bool, Error>)
      modifies this
      ensures (View(), r) == MergeEffect(old(View()), n, dryRun)
    {
      if n !in prs {
        return Err(NotFound);
      }
      var pr := prs[n];
      if pr.closed || pr.state == "closed" {
        return Err(PRIsClosed);
      }
      if pr.merged || pr.state == "merged" {
        AppendLog(MergeOp, n, dryRun);
        return Ok(true);
      }
      if !pr.mergeable {
        return Err(NotMergeable);
      }
      if !dryRun {
        pr := pr.(merged := true, state := "merged");
        prs := prs[n := pr];
        writes := writes + 1;
      }
      AppendLog(MergeOp, n, dryRun);
      return Ok(false);
    }

    method Close(n: int, dryRun: bool) returns (r: Result<(), Error>)
      modifies this
      ensures (View(), r) == CloseEffect(old(View()), n, dryRun)
    {
      if n !in prs {
        return Err(NotFound);
      }
      var pr := prs[n];
      if pr.merged || pr.state == "merged" {
        return Err(PRIsMerged);
      }
      if !dryRun {
        pr := pr.(closed := true, state := "closed");
        prs := prs[n := pr];
        writes := writes + 1;
      }
      AppendLog(CloseOp, n, dryRun);
      return Ok(());
    }

    method AddComment(n: int, body: string, dryRun: bool) returns (r: Result<(), Error>)
      modifies this
      ensures (View(), r) == CommentEffect(old(View()), n, body, dryRun)
    {
      if n !in prs {
        return Err(NotFound);
      }
      if !dryRun {
        comments := comments[n := (if n in comments then comments[n] else []) + [body]];
        writes := writes + 1;
      }
      AppendLog(CommentOp, n, dryRun);
      return Ok(());
    }

    method AddLabels(n: int, added: seq<string>, dryRun: bool) returns (r: Result<(), Error>)
      modifies this
      ensures (View(), r) == LabelEffect(old(View()), n, added, dryRun)
    {
      if n !in prs {
        return Err(NotFound);
      }
      if !dryRun {
        var present := if n in labels then labels[n] else {};
        for i := 0 to |added|
          invariant present == LabelsOf(View(), n) + set l | l in added[..i]
        {
          present := present + {added[i]};
        }
        assert added[..|added|] == added;
        labels := labels[n := present];
        writes := writes + 1;
      }
      AppendLog(LabelOp, n, dryRun);
      return Ok(());
    }

    method ApplyFix(n: int, dryRun: bool) returns (r: Result<(), Error>)
      modifies this
      ensures (View(), r) == ApplyFixEffect(old(View()), n, dryRun)
    {
      if n !in prs {
        return Err(NotFound);
      }
      AppendLog(ApplyFixOp, n, dryRun);
      if !dryRun {
        writes := writes + 1;
      }
      return Ok(());
    }
  }
}
