/**
 The sharded pair scan (internal/planning/pairwise.go, ExecuteSharded) as a state machine: workers
 behind a counting semaphore send conflicts into a bounded channel and metrics into another, a
 closer closes both when all workers are done, and the collector drains them. Every interleaving is
 a sequence of Steps. Cancellation is left out; conflicts travel as index pairs into the sorted input.
 */
module Pairwise {
  import opened Integers
  import opened Sequences
  import opened PullRequests

  // ---------- the configuration ----------

  datatype Config = Config(prs: seq<PR>, shardSize: nat, maxWorkers: nat, buffer: nat, threshold: nat)

  /** ShardConfig.Validate, over a nonempty input. */
  predicate ValidConfig(c: Config)
  {
    c.prs != [] && c.shardSize >= 1 && c.maxWorkers >= 1 && c.buffer >= 1
  }

  function SharedFiles(left: PR, right: PR): set<string>
  {
    set f | f in left.files && f in right.files
  }

  /** Same nonempty base, and shared files or a conflict signal on either side. */
  predicate Overlaps(left: PR, right: PR)
  {
    && left.baseBranch != "" && right.baseBranch != "" && left.baseBranch == right.baseBranch
    && (SharedFiles(left, right) != {} || left.mergeable == "conflicting" || right.mergeable == "conflicting")
  }

  predicate Hit(prs: seq<PR>, i: int, j: int)
  {
    0 <= i < j < |prs| && Overlaps(prs[i], prs[j])
  }

  // ---------- the state ----------

  datatype Phase = Waiting | Scanning | Sending | Reporting | Releasing | Finishing | Done

  /** A goroutine: its rows [start, end), the pair (i, j) it looks at next, and its counters. */
  datatype Worker = Worker(start: nat, end: nat, phase: Phase, i: nat, j: nat, checked: nat, found: nat, early: bool)

  datatype Collector = Receiving | Draining | Finished

  datatype State = State(
    workers: seq<Worker>,
    inUse: nat,
    channel: seq<(int, int)>,
    metrics: nat,
    processed: nat,
    closed: bool,
    collector: Collector,
    collected: seq<(int, int)>)

  /** What a worker does next. */
  datatype Act = Start | Visit | NextRow | Send | StopScan | Report | Release | Finish

  datatype Step = Work(w: nat, act: Act) | Close | Receive | EndReceive | ReceiveMetric | EndMetrics

  /** The jobs loop: rows start, start + shardSize, ... */
  function Shards(n: nat, shardSize: nat, start: nat): seq<Worker>
    requires shardSize >= 1
    decreases n - start
  {
    if start >= n then []
    else
      [Worker(start, Min(start + shardSize, n), Waiting, start, start + 1, 0, 0, false)]
      + Shards(n, shardSize, start + shardSize)
  }

  function Initial(c: Config): State
    requires ValidConfig(c)
  {
    State(Shards(|c.prs|, c.shardSize, 0), 0, [], 0, 0, false, Receiving, [])
  }

  // ---------- the steps ----------

  predicate CanAct(c: Config, s: State, w: Worker, act: Act)
  {
    match act
    case Start => w.phase == Waiting && s.inUse < c.maxWorkers
    case Visit => w.phase == Scanning && w.i < w.end && !w.early && w.j < |c.prs|
    case NextRow => w.phase == Scanning && w.i < w.end && !w.early && w.j >= |c.prs|
    case Send => w.phase == Sending && |s.channel| < c.buffer && !s.closed
    case StopScan => w.phase == Scanning && (w.i >= w.end || w.early)
    case Report => w.phase == Reporting && s.metrics < |s.workers|
    case Release => w.phase == Releasing && s.inUse > 0
    case Finish => w.phase == Finishing
  }

  predicate Enabled(c: Config, s: State, step: Step)
  {
    match step
    case Work(w, act) => w < |s.workers| && CanAct(c, s, s.workers[w], act)
    case Close => !s.closed && forall k :: 0 <= k < |s.workers| ==> s.workers[k].phase == Done
    case Receive => s.collector == Receiving && s.channel != []
    case EndReceive => s.collector == Receiving && s.channel == [] && s.closed
    case ReceiveMetric => s.collector == Draining && s.metrics > 0
    case EndMetrics => s.collector == Draining && s.metrics == 0 && s.closed
  }

  /** The worker after one of its own steps. */
  function Moved(c: Config, w: Worker, act: Act): Worker
  {
    match act
    case Start => w.(phase := Scanning)
    case Visit => if Hit(c.prs, w.i, w.j) then w.(phase := Sending, checked := w.checked + 1)
                  else w.(j := w.j + 1, checked := w.checked + 1)
    case NextRow => w.(i := w.i + 1, j := w.i + 2)
    case Send => w.(phase := Scanning, found := w.found + 1, j := w.j + 1,
                    early := c.threshold > 0 && w.found + 1 >= c.threshold)
    case StopScan => w.(phase := Reporting)
    case Report => w.(phase := Releasing)
    case Release => w.(phase := Finishing)
    case Finish => w.(phase := Done)
  }

  /** What a worker's step does to the shared semaphore, channels and counter. */
  function Shared(s: State, w: Worker, act: Act): State
    requires act == Release ==> s.inUse > 0
  {
    match act
    case Start => s.(inUse := s.inUse + 1)
    case Send => s.(channel := s.channel + [(w.i, w.j)])
    case StopScan => s.(processed := s.processed + w.checked)
    case Report => s.(metrics := s.metrics + 1)
    case Release => s.(inUse := s.inUse - 1)
    case Visit => s
    case NextRow => s
    case Finish => s
  }

  function Next(c: Config, s: State, step: Step): State
    requires Enabled(c, s, step)
  {
    match step
    case Work(k, act) =>
      var w := s.workers[k];
      Shared(s, w, act).(workers := s.workers[k := Moved(c, w, act)])
    case Close => s.(closed := true)
    case Receive => s.(channel := s.channel[1..], collected := s.collected + [s.channel[0]])
    case EndReceive => s.(collector := Draining)
    case ReceiveMetric => s.(metrics := s.metrics - 1)
    case EndMetrics => s.(collector := Finished)
  }

  /** The states of a run: each step enabled and taken. */
  ghost predicate IsRun(c: Config, states: seq<State>, steps: seq<Step>)
  {
    && |states| == |steps| + 1
    && forall i :: 0 <= i < |steps| ==> StepAt(c, states, steps, i)
  }

  ghost predicate StepAt(c: Config, states: seq<State>, steps: seq<Step>, i: nat)
    requires i < |steps| < |states|
  {
    Enabled(c, states[i], steps[i]) && states[i + 1] == Next(c, states[i], steps[i])
  }

  // ---------- sums over workers ----------

  ghost function Total(ws: seq<Worker>, f: Worker -> nat): nat
  {
    if ws == [] then 0 else f(ws[0]) + Total(ws[1..], f)
  }

  lemma {:induction false} TotalUpdate(ws: seq<Worker>, k: nat, w: Worker, f: Worker -> nat)
    requires k < |ws|
    ensures Total(ws[k := w], f) + f(ws[k]) == Total(ws, f) + f(w)
  {
    if k > 0 {
      assert ws[k := w][1..] == ws[1..][k - 1 := w];
      TotalUpdate(ws[1..], k - 1, w, f);
    } else {
      assert ws[k := w][1..] == ws[1..];
    }
  }

  lemma {:induction false} TotalSame(ws: seq<Worker>, f: Worker -> nat, each: nat)
    requires forall k :: 0 <= k < |ws| ==> f(ws[k]) == each
    ensures Total(ws, f) == |ws| * each
  {
    if ws != [] {
      TotalSame(ws[1..], f, each);
      assert (|ws| - 1) * each + each == |ws| * each;
    }
  }

  lemma {:induction false} TotalBound(ws: seq<Worker>, f: Worker -> nat, k: nat)
    requires k < |ws| && f(ws[k]) == 0 && forall m :: 0 <= m < |ws| ==> f(ws[m]) <= 1
    ensures Total(ws, f) < |ws|
  {
    if k > 0 {
      TotalBound(ws[1..], f, k - 1);
    } else {
      TotalAtMost(ws[1..], f);
    }
  }

  lemma {:induction false} TotalAtMost(ws: seq<Worker>, f: Worker -> nat)
    requires forall m :: 0 <= m < |ws| ==> f(ws[m]) <= 1
    ensures Total(ws, f) <= |ws|
  {
    if ws != [] { TotalAtMost(ws[1..], f); }
  }

  /** Whether a worker holds a semaphore slot. */
  function Holds(w: Worker): nat
  {
    if w.phase == Waiting || w.phase == Finishing || w.phase == Done then 0 else 1
  }

  /** Whether a worker has sent its metrics. */
  function Reported(w: Worker): nat
  {
    if w.phase == Releasing || w.phase == Finishing || w.phase == Done then 1 else 0
  }

  /** What a worker has added to the processed count. */
  function Contributed(w: Worker): nat
  {
    if w.phase == Waiting || w.phase == Scanning || w.phase == Sending then 0 else w.checked
  }

  // ---------- the invariant ----------

  /** Pairs in the complete rows from first to i, plus those of row i before j. */
  function Visited(n: nat, first: nat, i: nat, j: nat): int
    decreases i
  {
    if i <= first then j - i - 1 else Visited(n, first, i - 1, n) + (j - i - 1)
  }

  ghost predicate WorkerOk(c: Config, w: Worker)
  {
    var n := |c.prs|;
    && w.start < w.end <= n && w.start <= w.i <= w.end && w.i < w.j
    && (w.j <= n || w.j == w.i + 1) && (w.i == w.end ==> w.j == w.i + 1)
    && (w.phase == Sending ==> w.i < w.end && w.j < n && Hit(c.prs, w.i, w.j) && !w.early)
    && (w.phase == Waiting ==> w.i == w.start && w.j == w.start + 1 && w.checked == 0)
    && (w.phase == Waiting || w.phase == Scanning || w.phase == Sending || w.i == w.end || w.early)
    && w.checked == Visited(n, w.start, w.i, w.j) + (if w.phase == Sending then 1 else 0)
    && (c.threshold > 0 ==> w.found <= c.threshold && (!w.early ==> w.found < c.threshold))
    && (w.early ==> c.threshold > 0 && w.found == c.threshold)
    && (w.phase == Waiting ==> w.found == 0 && !w.early)
  }

  /** The pair has been passed by the worker's cursor. */
  predicate Passed(w: Worker, a: int, b: int)
  {
    w.start <= a < w.end && (a < w.i || (a == w.i && b < w.j))
  }

  /** A conflict some worker has sent: a hit its cursor has passed. */
  ghost predicate Sent(c: Config, ws: seq<Worker>, p: (int, int))
  {
    Hit(c.prs, p.0, p.1) && exists k :: 0 <= k < |ws| && Passed(ws[k], p.0, p.1)
  }

  /** Everything sent is in the channel or collected, once. */
  ghost predicate ContentsOk(c: Config, s: State)
  {
    && Distinct(s.collected + s.channel)
    && forall p :: p in s.collected + s.channel <==> Sent(c, s.workers, p)
  }

  ghost predicate RowsDisjoint(ws: seq<Worker>)
  {
    forall k, m :: 0 <= k < m < |ws| ==> ws[k].end <= ws[m].start
  }

  /** How many of the pairs have their first row in [start, end). */
  function InRows(pairs: seq<(int, int)>, start: int, end: int): nat
  {
    if pairs == [] then 0
    else InRows(pairs[..|pairs| - 1], start, end) + (if start <= pairs[|pairs| - 1].0 < end then 1 else 0)
  }

  /** Each worker's found counter is the number of conflicts sent from its rows. */
  ghost predicate FoundOk(s: State)
  {
    forall k :: 0 <= k < |s.workers| ==>
      s.workers[k].found == InRows(s.collected + s.channel, s.workers[k].start, s.workers[k].end)
  }

  /** The rows of the workers never change. */
  ghost predicate SameRows(c: Config, ws: seq<Worker>)
    requires ValidConfig(c)
  {
    var shards := Shards(|c.prs|, c.shardSize, 0);
    |ws| == |shards| && forall k :: 0 <= k < |ws| ==> ws[k].start == shards[k].start && ws[k].end == shards[k].end
  }

  ghost predicate CountsOk(c: Config, s: State)
  {
    && s.inUse == Total(s.workers, Holds) <= c.maxWorkers
    && s.metrics <= Total(s.workers, Reported)
    && s.processed == Total(s.workers, Contributed)
    && |s.channel| <= c.buffer
    && (s.closed ==> forall k :: 0 <= k < |s.workers| ==> s.workers[k].phase == Done)
    && (s.collector != Receiving ==> s.closed && s.channel == [])
  }

  ghost predicate Inv(c: Config, s: State)
  {
    && (forall k :: 0 <= k < |s.workers| ==> WorkerOk(c, s.workers[k]))
    && RowsDisjoint(s.workers) && CountsOk(c, s) && ContentsOk(c, s) && FoundOk(s)
    && ValidConfig(c) && SameRows(c, s.workers)
  }

  // ---------- every step keeps it ----------

  lemma MovedOk(c: Config, s: State, w: Worker, act: Act)
    requires WorkerOk(c, w) && CanAct(c, s, w, act)
    ensures WorkerOk(c, Moved(c, w, act))
    ensures Moved(c, w, act).start == w.start && Moved(c, w, act).end == w.end
  {
  }

  lemma CountsKept(c: Config, s: State, k: nat, act: Act)
    requires CountsOk(c, s) && k < |s.workers| && CanAct(c, s, s.workers[k], act)
    ensures CountsOk(c, Next(c, s, Work(k, act)))
  {
    var w, v := s.workers[k], Moved(c, s.workers[k], act);
    TotalUpdate(s.workers, k, v, Holds);
    TotalUpdate(s.workers, k, v, Reported);
    TotalUpdate(s.workers, k, v, Contributed);
  }

  /** A worker's step passes no new hit, except that sending passes the pair sent. */
  lemma PassedMoved(c: Config, s: State, w: Worker, act: Act, a: int, b: int)
    requires WorkerOk(c, w) && CanAct(c, s, w, act) && Hit(c.prs, a, b)
    ensures Passed(Moved(c, w, act), a, b) <==> Passed(w, a, b) || (act == Send && a == w.i && b == w.j)
  {
  }

  lemma SentMoved(c: Config, s: State, k: nat, act: Act, p: (int, int))
    requires k < |s.workers| && WorkerOk(c, s.workers[k]) && CanAct(c, s, s.workers[k], act)
    ensures Sent(c, s.workers[k := Moved(c, s.workers[k], act)], p)
       <==> Sent(c, s.workers, p) || (act == Send && p == (s.workers[k].i, s.workers[k].j))
  {
    var w := s.workers[k];
    var ws := s.workers[k := Moved(c, w, act)];
    if Hit(c.prs, p.0, p.1) {
      PassedMoved(c, s, w, act, p.0, p.1);
      forall m | 0 <= m < |ws| && m != k ensures ws[m] == s.workers[m] {}
      if m :| 0 <= m < |s.workers| && Passed(s.workers[m], p.0, p.1) {
        assert Passed(ws[m], p.0, p.1);
      }
      if m :| 0 <= m < |ws| && Passed(ws[m], p.0, p.1) {
        if m != k { assert Passed(s.workers[m], p.0, p.1); }
      }
      if act == Send && p == (w.i, w.j) {
        assert Passed(ws[k], p.0, p.1);
      }
    }
  }

  /** The pair about to be sent has not been sent before, by this worker or another. */
  lemma NotYetSent(c: Config, s: State, k: nat)
    requires k < |s.workers| && WorkerOk(c, s.workers[k]) && s.workers[k].phase == Sending && RowsDisjoint(s.workers)
    requires forall m :: 0 <= m < |s.workers| ==> WorkerOk(c, s.workers[m])
    ensures !Sent(c, s.workers, (s.workers[k].i, s.workers[k].j))
  {
    var w := s.workers[k];
    forall m | 0 <= m < |s.workers| ensures !Passed(s.workers[m], w.i, w.j) {
      if m < k { assert s.workers[m].end <= w.start; }
      if k < m { assert w.end <= s.workers[m].start; }
    }
  }

  lemma ContentsKept(c: Config, s: State, k: nat, act: Act)
    requires Inv(c, s) && k < |s.workers| && CanAct(c, s, s.workers[k], act)
    ensures ContentsOk(c, Next(c, s, Work(k, act)))
  {
    var t := Next(c, s, Work(k, act));
    var w := s.workers[k];
    forall p ensures Sent(c, t.workers, p) <==> Sent(c, s.workers, p) || (act == Send && p == (w.i, w.j)) {
      SentMoved(c, s, k, act, p);
    }
    if act == Send {
      NotYetSent(c, s, k);
      assert t.collected + t.channel == s.collected + s.channel + [(w.i, w.j)];
    } else {
      assert t.collected + t.channel == s.collected + s.channel;
    }
  }

  lemma FoundKept(c: Config, s: State, k: nat, act: Act)
    requires Inv(c, s) && k < |s.workers| && CanAct(c, s, s.workers[k], act)
    ensures FoundOk(Next(c, s, Work(k, act)))
  {
    var t := Next(c, s, Work(k, act));
    var w := s.workers[k];
    assert WorkerOk(c, w);
    var before := s.collected + s.channel;
    if act == Send {
      assert t.collected + t.channel == before + [(w.i, w.j)];
      assert (before + [(w.i, w.j)])[..|before|] == before;
      forall m | 0 <= m < |t.workers|
        ensures t.workers[m].found == InRows(before + [(w.i, w.j)], t.workers[m].start, t.workers[m].end)
      {
        if m < k { assert s.workers[m].end <= w.start; }
        if k < m { assert w.end <= s.workers[m].start; }
      }
    } else {
      assert t.collected + t.channel == before;
    }
  }

  /** The worker that moved is still in order, and so are the others. */
  lemma WorkersKept(c: Config, s: State, k: nat, act: Act)
    requires Inv(c, s) && k < |s.workers| && CanAct(c, s, s.workers[k], act)
    ensures var ws := Next(c, s, Work(k, act)).workers;
            (forall m :: 0 <= m < |ws| ==> WorkerOk(c, ws[m])) && RowsDisjoint(ws) && SameRows(c, ws)
  {
    MovedOk(c, s, s.workers[k], act);
    var ws := Next(c, s, Work(k, act)).workers;
    forall m | 0 <= m < |ws|
      ensures WorkerOk(c, ws[m]) && ws[m].start == s.workers[m].start && ws[m].end == s.workers[m].end
    {
      assert WorkerOk(c, s.workers[m]);
    }
  }

  lemma StepKeepsInv(c: Config, s: State, step: Step)
    requires Inv(c, s) && Enabled(c, s, step)
    ensures Inv(c, Next(c, s, step))
  {
    match step
    case Work(k, act) =>
      WorkersKept(c, s, k, act);
      CountsKept(c, s, k, act);
      ContentsKept(c, s, k, act);
      FoundKept(c, s, k, act);
    case Receive =>
      var t := Next(c, s, step);
      assert t.collected + t.channel == s.collected + s.channel;
    case Close =>
    case EndReceive =>
    case ReceiveMetric =>
    case EndMetrics =>
  }

  predicate FreshWorker(w: Worker, from: nat, n: nat)
  {
    from <= w.start < w.end <= n && w == Worker(w.start, w.end, Waiting, w.start, w.start + 1, 0, 0, false)
  }

  ghost predicate FreshWorkers(ws: seq<Worker>, from: nat, n: nat)
  {
    forall k :: 0 <= k < |ws| ==> FreshWorker(ws[k], from, n)
  }

  lemma FreshPrepended(w: Worker, rest: seq<Worker>, n: nat)
    requires FreshWorker(w, w.start, n) && RowsDisjoint(rest) && FreshWorkers(rest, w.end, n)
    ensures RowsDisjoint([w] + rest) && FreshWorkers([w] + rest, w.start, n)
  {
    forall k | 0 <= k < |rest| ensures FreshWorker(rest[k], w.start, n) && w.end <= rest[k].start {
      assert FreshWorker(rest[k], w.end, n);
    }
  }

  lemma {:induction false} ShardsFacts(n: nat, shardSize: nat, start: nat)
    requires shardSize >= 1
    ensures RowsDisjoint(Shards(n, shardSize, start)) && FreshWorkers(Shards(n, shardSize, start), start, n)
    decreases n - start
  {
    if start < n {
      var rest := Shards(n, shardSize, start + shardSize);
      var w := Worker(start, Min(start + shardSize, n), Waiting, start, start + 1, 0, 0, false);
      ShardsFacts(n, shardSize, start + shardSize);
      if start + shardSize >= n { assert rest == []; }
      FreshPrepended(w, rest, n);
    }
  }

  /** Every row belongs to a shard. */
  lemma {:induction false} ShardOf(n: nat, shardSize: nat, start: nat, a: int) returns (k: nat)
    requires shardSize >= 1 && start <= a < n
    ensures k < |Shards(n, shardSize, start)|
    ensures Shards(n, shardSize, start)[k].start <= a < Shards(n, shardSize, start)[k].end
    decreases n - start
  {
    if a < start + shardSize {
      k := 0;
    } else {
      k := ShardOf(n, shardSize, start + shardSize, a);
      k := k + 1;
    }
  }

  lemma InitialInv(c: Config)
    requires ValidConfig(c)
    ensures Inv(c, Initial(c))
  {
    var s := Initial(c);
    ShardsFacts(|c.prs|, c.shardSize, 0);
    TotalSame(s.workers, Holds, 0);
    TotalSame(s.workers, Reported, 0);
    TotalSame(s.workers, Contributed, 0);
    assert |s.workers| * 0 == 0;
    forall p ensures !Sent(c, s.workers, p) {
      NothingPassed(c, p);
    }
    assert s.collected + s.channel == [];
  }

  lemma NothingPassed(c: Config, p: (int, int))
    requires ValidConfig(c)
    ensures !Sent(c, Initial(c).workers, p)
  {
    var ws := Initial(c).workers;
    ShardsFacts(|c.prs|, c.shardSize, 0);
    forall k | 0 <= k < |ws| && Hit(c.prs, p.0, p.1) ensures !Passed(ws[k], p.0, p.1) {
      assert FreshWorker(ws[k], 0, |c.prs|);
    }
  }

  // ---------- no deadlock ----------

  /** A state that satisfies the invariant and is not final has an enabled step. */
  lemma NeverStuck(c: Config, s: State) returns (step: Step)
    requires ValidConfig(c) && Inv(c, s) && s.collector != Finished
    ensures Enabled(c, s, step)
  {
    if k :| 0 <= k < |s.workers| && Holds(s.workers[k]) == 1 {
      step := HolderMoves(c, s, k);
    } else if k :| 0 <= k < |s.workers| && s.workers[k].phase == Finishing {
      step := Work(k, Finish);
    } else if k :| 0 <= k < |s.workers| && s.workers[k].phase == Waiting {
      TotalSame(s.workers, Holds, 0);
      assert |s.workers| * 0 == 0;
      step := Work(k, Start);
    } else if !s.closed {
      forall k | 0 <= k < |s.workers| ensures s.workers[k].phase == Done {
        assert Holds(s.workers[k]) != 1 && s.workers[k].phase != Finishing && s.workers[k].phase != Waiting;
      }
      step := Close;
    } else if s.collector == Receiving {
      step := if s.channel != [] then Receive else EndReceive;
    } else {
      step := if s.metrics > 0 then ReceiveMetric else EndMetrics;
    }
  }

  lemma HolderMoves(c: Config, s: State, k: nat) returns (step: Step)
    requires ValidConfig(c) && Inv(c, s) && k < |s.workers| && Holds(s.workers[k]) == 1
    ensures Enabled(c, s, step)
  {
    var w := s.workers[k];
    assert WorkerOk(c, w);
    match w.phase
    case Scanning =>
      step := if w.i >= w.end || w.early then Work(k, StopScan)
              else if w.j < |c.prs| then Work(k, Visit)
              else Work(k, NextRow);
    case Sending =>
      // A worker that is not done keeps the channel open, so the collector is still receiving.
      step := if |s.channel| < c.buffer then Work(k, Send) else Receive;
    case Reporting =>
      forall m | 0 <= m < |s.workers| ensures Reported(s.workers[m]) <= 1 {}
      TotalBound(s.workers, Reported, k);
      step := Work(k, Report);
    case Releasing =>
      HolderCounts(s.workers, k);
      step := Work(k, Release);
  }

  lemma {:induction false} HolderCounts(ws: seq<Worker>, k: nat)
    requires k < |ws| && Holds(ws[k]) == 1
    ensures Total(ws, Holds) > 0
  {
    if k > 0 { HolderCounts(ws[1..], k - 1); }
  }

  // ---------- every run ends ----------

  /** How many pairs and row ends a worker still has before it. */
  function Remaining(n: nat, w: Worker): nat
  {
    if w.i >= w.end || w.j > n then 0 else (w.end - w.i) * (n + 1) + (n - w.j)
  }

  function Potential(n: nat, w: Worker): nat
  {
    match w.phase
    case Waiting => 3 * Remaining(n, w) + 8
    case Scanning => 3 * Remaining(n, w) + 7
    case Sending => 3 * Remaining(n, w) + 6
    case Reporting => 4
    case Releasing => 2
    case Finishing => 1
    case Done => 0
  }

  function PotentialIn(n: nat): Worker -> nat
  {
    (w: Worker) => Potential(n, w)
  }

  ghost function Measure(c: Config, s: State): nat
  {
    Total(s.workers, PotentialIn(|c.prs|)) + |s.channel| + s.metrics + (if s.closed then 0 else 1)
    + (match s.collector case Receiving => 2 case Draining => 1 case Finished => 0)
  }

  lemma MovedPotential(c: Config, s: State, w: Worker, act: Act)
    requires WorkerOk(c, w) && CanAct(c, s, w, act)
    ensures var n := |c.prs|;
            Potential(n, Moved(c, w, act)) + (if act == Send || act == Report then 1 else 0) < Potential(n, w)
  {
    if act == NextRow {
      assert (w.end - w.i) * (|c.prs| + 1) == (w.end - w.i - 1) * (|c.prs| + 1) + (|c.prs| + 1);
    }
  }

  lemma StepDecreases(c: Config, s: State, step: Step)
    requires Inv(c, s) && Enabled(c, s, step)
    ensures Measure(c, Next(c, s, step)) < Measure(c, s)
  {
    if step.Work? {
      var w := s.workers[step.w];
      MovedPotential(c, s, w, step.act);
      TotalUpdate(s.workers, step.w, Moved(c, w, step.act), PotentialIn(|c.prs|));
    }
  }

  /** Every run keeps the invariant, and no run is longer than the initial measure. */
  lemma {:induction false} RunIsBounded(c: Config, states: seq<State>, steps: seq<Step>, i: nat)
    requires ValidConfig(c) && IsRun(c, states, steps) && states[0] == Initial(c) && i <= |steps|
    ensures Inv(c, states[i])
    ensures Measure(c, states[i]) + i <= Measure(c, Initial(c))
  {
    if i == 0 {
      InitialInv(c);
    } else {
      RunIsBounded(c, states, steps, i - 1);
      assert StepAt(c, states, steps, i - 1);
      StepKeepsInv(c, states[i - 1], steps[i - 1]);
      StepDecreases(c, states[i - 1], steps[i - 1]);
    }
  }

  // ---------- what a finished run has computed ----------

  /** The number of pairs of m items. */
  function Choose2(m: int): int
  {
    if m <= 1 then 0 else (m - 1) + Choose2(m - 1)
  }

  lemma {:induction false} Choose2Formula(m: nat)
    ensures 2 * Choose2(m) == m * (m - 1)
  {
    if m > 1 {
      Choose2Formula(m - 1);
      assert (m - 1) * (m - 2) + 2 * (m - 1) == m * (m - 1);
    }
  }

  lemma {:induction false} VisitedRows(n: nat, first: nat, i: nat)
    requires first <= i <= n
    ensures Visited(n, first, i, i + 1) == Choose2(n - first) - Choose2(n - i)
  {
    if first < i {
      VisitedRows(n, first, i - 1);
    }
  }

  lemma {:induction false} ShardsVisited(n: nat, shardSize: nat, start: nat, ws: seq<Worker>)
    requires shardSize >= 1
    requires var shards := Shards(n, shardSize, start);
             |ws| == |shards| && forall k :: 0 <= k < |ws| ==>
               ws[k].start == shards[k].start && ws[k].end == shards[k].end
               && Contributed(ws[k]) == Choose2(n - ws[k].start) - Choose2(n - ws[k].end)
    ensures Total(ws, Contributed) == Choose2(n - start)
    decreases n - start
  {
    if start < n {
      var shards := Shards(n, shardSize, start);
      assert shards[1..] == Shards(n, shardSize, start + shardSize);
      ShardsVisited(n, shardSize, start + shardSize, ws[1..]);
      if start + shardSize >= n { assert Choose2(n - start - shardSize) == 0; }
    }
  }

  ghost predicate FinalRun(c: Config, states: seq<State>, steps: seq<Step>)
  {
    ValidConfig(c) && IsRun(c, states, steps) && states[0] == Initial(c) && states[|steps|].collector == Finished
  }

  /** At the end all workers are done and the channel is empty. */
  lemma AtTheEnd(c: Config, states: seq<State>, steps: seq<Step>)
    requires FinalRun(c, states, steps)
    ensures var s := states[|steps|];
            && Inv(c, s) && s.closed && s.channel == []
            && (forall k :: 0 <= k < |s.workers| ==> s.workers[k].phase == Done)
            && (forall k :: 0 <= k < |s.workers| ==> s.workers[k].i == s.workers[k].end || s.workers[k].early)
            && (c.threshold == 0 ==> forall k :: 0 <= k < |s.workers| ==> s.workers[k].i == s.workers[k].end)
  {
    RunIsBounded(c, states, steps, |steps|);
    var s := states[|steps|];
    forall k | 0 <= k < |s.workers|
      ensures s.workers[k].i == s.workers[k].end || (s.workers[k].early && c.threshold > 0)
    {
      assert WorkerOk(c, s.workers[k]) && s.workers[k].phase == Done;
    }
  }

  /** Without early exit every pair i < j is looked at exactly once. */
  lemma AllPairsProcessed(c: Config, states: seq<State>, steps: seq<Step>)
    requires FinalRun(c, states, steps) && c.threshold == 0
    ensures 2 * states[|steps|].processed == |c.prs| * (|c.prs| - 1)
  {
    AtTheEnd(c, states, steps);
    var n, s := |c.prs|, states[|steps|];
    forall k | 0 <= k < |s.workers|
      ensures Contributed(s.workers[k]) == Choose2(n - s.workers[k].start) - Choose2(n - s.workers[k].end)
    {
      assert WorkerOk(c, s.workers[k]);
      VisitedRows(n, s.workers[k].start, s.workers[k].end);
    }
    ShardsVisited(n, c.shardSize, 0, s.workers);
    Choose2Formula(n);
  }

  /** Without early exit the collector has every conflict once; with it, only conflicts, and few from each shard. */
  lemma CollectedConflicts(c: Config, states: seq<State>, steps: seq<Step>)
    requires FinalRun(c, states, steps)
    ensures var s := states[|steps|];
            && Distinct(s.collected)
            && (forall p: (int, int) :: p in s.collected ==> Hit(c.prs, p.0, p.1))
            && (c.threshold == 0 ==> forall p: (int, int) :: p in s.collected <==> Hit(c.prs, p.0, p.1))
            && (c.threshold > 0 ==> forall k :: 0 <= k < |s.workers| ==>
                  InRows(s.collected, s.workers[k].start, s.workers[k].end) <= c.threshold)
  {
    AtTheEnd(c, states, steps);
    var s := states[|steps|];
    assert s.collected + s.channel == s.collected;
    forall k | 0 <= k < |s.workers| && c.threshold > 0
      ensures InRows(s.collected, s.workers[k].start, s.workers[k].end) <= c.threshold
    {
      assert WorkerOk(c, s.workers[k]);
    }
    forall p: (int, int) | Hit(c.prs, p.0, p.1) && c.threshold == 0 ensures p in s.collected {
      var k := ShardOf(|c.prs|, c.shardSize, 0, p.0);
      assert s.workers[k].start <= p.0 < s.workers[k].end;
      assert Passed(s.workers[k], p.0, p.1);
      assert Sent(c, s.workers, p);
    }
  }

  /** Every run from the initial state can be continued until the collector has finished. */
  lemma {:induction false} RunExtends(c: Config, states: seq<State>, steps: seq<Step>)
    returns (states': seq<State>, steps': seq<Step>)
    requires ValidConfig(c) && IsRun(c, states, steps) && states[0] == Initial(c)
    ensures FinalRun(c, states', steps') && states <= states' && steps <= steps'
    decreases Measure(c, states[|steps|])
  {
    var last := states[|steps|];
    RunIsBounded(c, states, steps, |steps|);
    if last.collector == Finished {
      states', steps' := states, steps;
    } else {
      var step := NeverStuck(c, last);
      var next := Next(c, last, step);
      StepDecreases(c, last, step);
      RunAppend(c, states, steps, step);
      states', steps' := RunExtends(c, states + [next], steps + [step]);
    }
  }

  lemma RunAppend(c: Config, states: seq<State>, steps: seq<Step>, step: Step)
    requires IsRun(c, states, steps) && Enabled(c, states[|steps|], step)
    ensures IsRun(c, states + [Next(c, states[|steps|], step)], steps + [step])
  {
    var longer, more := states + [Next(c, states[|steps|], step)], steps + [step];
    forall i | 0 <= i < |more| ensures StepAt(c, longer, more, i) {
      if i < |steps| { assert StepAt(c, states, steps, i); }
    }
  }

  /** Every valid configuration has a finished run. */
  lemma FinishedRunExists(c: Config) returns (states: seq<State>, steps: seq<Step>)
    requires ValidConfig(c)
    ensures FinalRun(c, states, steps)
  {
    states, steps := RunExtends(c, [Initial(c)], []);
  }
}
