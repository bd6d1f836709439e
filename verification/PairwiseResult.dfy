/**
 What ExecuteSharded returns (internal/planning/pairwise.go): the collected conflicts as records,
 sorted by source and target number, compared with the list a plain double loop builds.
 */
module PairwiseResult {
  import opened Integers
  import opened Sequences
  import opened Sorting
  import opened PullRequests
  import opened Pairwise

  /** types.ConflictPair without severity and reason; the shared files stand for their sorted list. */
  datatype ConflictPair = ConflictPair(source: int, target: int, fileOverlap: bool, files: set<string>)

  predicate PairLess(a: ConflictPair, b: ConflictPair)
  {
    if a.source != b.source then a.source < b.source else a.target < b.target
  }

  predicate InRange(prs: seq<PR>, p: (int, int))
  {
    0 <= p.0 < |prs| && 0 <= p.1 < |prs|
  }

  function RecordOf(prs: seq<PR>, p: (int, int)): ConflictPair
    requires InRange(prs, p)
  {
    var files := SharedFiles(prs[p.0], prs[p.1]);
    ConflictPair(prs[p.0].number, prs[p.1].number, files != {}, files)
  }

  function Records(prs: seq<PR>, pairs: seq<(int, int)>): (r: seq<ConflictPair>)
    requires forall k :: 0 <= k < |pairs| ==> InRange(prs, pairs[k])
    ensures |r| == |pairs| && forall k :: 0 <= k < |pairs| ==> r[k] == RecordOf(prs, pairs[k])
  {
    seq(|pairs|, k requires 0 <= k < |pairs| => RecordOf(prs, pairs[k]))
  }

  /** Conflicts in ExecuteSharded's result. */
  function ResultOf(prs: seq<PR>, collected: seq<(int, int)>): seq<ConflictPair>
    requires forall k :: 0 <= k < |collected| ==> InRange(prs, collected[k])
  {
    Sort(PairLess, Records(prs, collected))
  }

  // ---------- the plain double loop ----------

  /** The conflicts of the rows before end, from the pair (i, j) on. */
  function ScanRows(prs: seq<PR>, i: nat, j: nat, end: nat): (r: seq<(int, int)>)
    requires end <= |prs|
    ensures forall k :: 0 <= k < |r| ==> InRange(prs, r[k])
    decreases end - i, |prs| - j
  {
    if i >= end then []
    else if j >= |prs| then ScanRows(prs, i + 1, i + 2, end)
    else (if Hit(prs, i, j) then [(i, j)] else []) + ScanRows(prs, i, j + 1, end)
  }

  /** for i { for j > i { if they conflict, append } }: no shards, no goroutines, no sort. */
  function DoubleLoop(prs: seq<PR>): seq<ConflictPair>
  {
    Records(prs, ScanRows(prs, 0, 1, |prs|))
  }

  predicate IndexLess(p: (int, int), q: (int, int))
  {
    if p.0 != q.0 then p.0 < q.0 else p.1 < q.1
  }

  /** hits are the conflicts of the rows before end that do not come before from, in order. */
  ghost predicate IsScan(prs: seq<PR>, from: (int, int), end: nat, hits: seq<(int, int)>)
  {
    && SortedBy(IndexLess, hits)
    && forall p: (int, int) :: p in hits <==> Hit(prs, p.0, p.1) && !IndexLess(p, from) && p.0 < end
  }

  lemma {:induction false} ScanFacts(prs: seq<PR>, i: nat, j: nat, end: nat)
    requires i < j && end <= |prs|
    ensures IsScan(prs, (i, j), end, ScanRows(prs, i, j, end))
    decreases end - i, |prs| - j
  {
    if i >= end {
    } else if j >= |prs| {
      ScanFacts(prs, i + 1, i + 2, end);
      forall p: (int, int) | Hit(prs, p.0, p.1)
        ensures IndexLess(p, (i, j)) <==> IndexLess(p, (i + 1, i + 2))
      {
      }
    } else {
      ScanFacts(prs, i, j + 1, end);
      ScanHere(prs, i, j, end, ScanRows(prs, i, j + 1, end));
    }
  }

  /** The pair (i, j) goes before everything the scan finds after it. */
  lemma ScanHere(prs: seq<PR>, i: nat, j: nat, end: nat, rest: seq<(int, int)>)
    requires i < j < |prs| && i < end && IsScan(prs, (i, j + 1), end, rest)
    ensures IsScan(prs, (i, j), end, (if Hit(prs, i, j) then [(i, j)] else []) + rest)
  {
    var here: seq<(int, int)> := if Hit(prs, i, j) then [(i, j)] else [];
    forall k | 0 <= k < |rest| ensures IndexLess((i, j), rest[k]) {
      assert rest[k] in rest;
    }
    forall p: (int, int) ensures p in here + rest <==> Hit(prs, p.0, p.1) && !IndexLess(p, (i, j)) && p.0 < end {
      assert p in here + rest <==> p in here || p in rest;
    }
  }

  // ---------- the two agree ----------

  ghost predicate AllHits(prs: seq<PR>, pairs: seq<(int, int)>)
  {
    forall k :: 0 <= k < |pairs| ==> Hit(prs, pairs[k].0, pairs[k].1)
  }

  /** Over numbers in increasing order, records compare as their index pairs do. */
  lemma RecordOrder(prs: seq<PR>, p: (int, int), q: (int, int))
    requires SortedBy(ByNumber, prs) && InRange(prs, p) && InRange(prs, q)
    ensures PairLess(RecordOf(prs, p), RecordOf(prs, q)) <==> IndexLess(p, q)
    ensures p != q ==> RecordOf(prs, p) != RecordOf(prs, q)
  {
    forall a, b | 0 <= a < b < |prs| ensures prs[a].number < prs[b].number {
      assert ByNumber(prs[a], prs[b]);
    }
  }

  lemma RecordsSorted(prs: seq<PR>, pairs: seq<(int, int)>)
    requires SortedBy(ByNumber, prs) && AllHits(prs, pairs) && SortedBy(IndexLess, pairs)
    ensures SortedBy(PairLess, Records(prs, pairs))
  {
    var r := Records(prs, pairs);
    forall a, b | 0 <= a < b < |r| ensures PairLess(r[a], r[b]) {
      assert IndexLess(pairs[a], pairs[b]);
      RecordOrder(prs, pairs[a], pairs[b]);
    }
  }

  /** Distinct index pairs give distinct, comparable records, so the final sort has one outcome. */
  lemma RecordsComparable(prs: seq<PR>, pairs: seq<(int, int)>)
    requires SortedBy(ByNumber, prs) && AllHits(prs, pairs) && Distinct(pairs)
    ensures Distinct(Records(prs, pairs)) && TotalOn(PairLess, Records(prs, pairs))
  {
    var r := Records(prs, pairs);
    forall a, b | 0 <= a < |r| && 0 <= b < |r| && a != b
      ensures r[a] != r[b] && (PairLess(r[a], r[b]) || PairLess(r[b], r[a]))
    {
      assert pairs[a] != pairs[b];
      RecordOrder(prs, pairs[a], pairs[b]);
      RecordOrder(prs, pairs[b], pairs[a]);
    }
  }

  lemma RecordsMembers(prs: seq<PR>, pairs: seq<(int, int)>, others: seq<(int, int)>)
    requires AllHits(prs, pairs) && AllHits(prs, others) && forall p: (int, int) :: p in pairs ==> p in others
    ensures forall x :: x in Records(prs, pairs) ==> x in Records(prs, others)
  {
    forall x | x in Records(prs, pairs) ensures x in Records(prs, others) {
      var a :| 0 <= a < |pairs| && Records(prs, pairs)[a] == x;
      assert pairs[a] in others;
      var b :| 0 <= b < |others| && others[b] == pairs[a];
      assert Records(prs, others)[b] == x;
    }
  }

  lemma ResultSorted(prs: seq<PR>, collected: seq<(int, int)>)
    requires SortedBy(ByNumber, prs) && AllHits(prs, collected) && Distinct(collected)
    ensures SortedBy(PairLess, ResultOf(prs, collected))
    ensures forall x :: x in ResultOf(prs, collected) <==> x in Records(prs, collected)
    ensures |ResultOf(prs, collected)| == |collected|
  {
    RecordsComparable(prs, collected);
    assert StrictOrder(PairLess);
    SortSorted(PairLess, Records(prs, collected));
  }

  lemma MembersAreHits(prs: seq<PR>, pairs: seq<(int, int)>)
    requires forall p: (int, int) :: p in pairs ==> Hit(prs, p.0, p.1)
    ensures AllHits(prs, pairs)
  {
    forall k | 0 <= k < |pairs| ensures Hit(prs, pairs[k].0, pairs[k].1) {
      assert pairs[k] in pairs;
    }
  }

  /** A finished run's list: sorted, without repetition, and only what the double loop finds. */
  lemma ResultIsPart(input: seq<PR>, c: Config, states: seq<State>, steps: seq<Step>)
    requires DistinctNumbers(input) && c.prs == SortedByNumber(input) && FinalRun(c, states, steps)
    ensures AllHits(c.prs, states[|steps|].collected)
    ensures var r := ResultOf(c.prs, states[|steps|].collected);
            SortedBy(PairLess, r) && |r| == |states[|steps|].collected| && forall x :: x in r ==> x in DoubleLoop(c.prs)
  {
    var collected, scan := states[|steps|].collected, ScanRows(c.prs, 0, 1, |c.prs|);
    SortedByNumberFacts(input);
    CollectedConflicts(c, states, steps);
    ScanFacts(c.prs, 0, 1, |c.prs|);
    MembersAreHits(c.prs, scan);
    MembersAreHits(c.prs, collected);
    ResultSorted(c.prs, collected);
    RecordsMembers(c.prs, collected, scan);
  }

  /**
   Whatever the shard size, the worker count, the buffer and the interleaving: without early exit
   the result is the double loop's list.
   */
  lemma ShardedIsDoubleLoop(input: seq<PR>, c: Config, states: seq<State>, steps: seq<Step>)
    requires DistinctNumbers(input) && c.prs == SortedByNumber(input)
    requires FinalRun(c, states, steps) && c.threshold == 0
    ensures AllHits(c.prs, states[|steps|].collected)
    ensures ResultOf(c.prs, states[|steps|].collected) == DoubleLoop(c.prs)
  {
    var collected, scan := states[|steps|].collected, ScanRows(c.prs, 0, 1, |c.prs|);
    ResultIsPart(input, c, states, steps);
    SortedByNumberFacts(input);
    CollectedConflicts(c, states, steps);
    ScanFacts(c.prs, 0, 1, |c.prs|);
    MembersAreHits(c.prs, scan);
    ResultSorted(c.prs, collected);
    RecordsSorted(c.prs, scan);
    RecordsMembers(c.prs, scan, collected);
    assert StrictOrder(PairLess);
    SortedUnique(PairLess, ResultOf(c.prs, collected), DoubleLoop(c.prs));
  }

  // ---------- early exit ----------

  lemma {:induction false} InRowsSplit(pairs: seq<(int, int)>, start: int, middle: int, end: int)
    requires start <= middle <= end
    ensures InRows(pairs, start, end) == InRows(pairs, start, middle) + InRows(pairs, middle, end)
  {
    if pairs != [] { InRowsSplit(pairs[..|pairs| - 1], start, middle, end); }
  }

  lemma {:induction false} InRowsAll(pairs: seq<(int, int)>, n: int)
    requires forall k :: 0 <= k < |pairs| ==> 0 <= pairs[k].0 < n
    ensures InRows(pairs, 0, n) == |pairs|
  {
    if pairs != [] { InRowsAll(pairs[..|pairs| - 1], n); }
  }

  ghost predicate BoundedRows(pairs: seq<(int, int)>, ws: seq<Worker>, shards: seq<Worker>, t: nat)
  {
    |ws| == |shards| && forall k :: 0 <= k < |ws| ==>
      ws[k].start == shards[k].start && ws[k].end == shards[k].end && InRows(pairs, ws[k].start, ws[k].end) <= t
  }

  lemma {:induction false} ShardBound(pairs: seq<(int, int)>, n: nat, shardSize: nat, start: nat, ws: seq<Worker>, t: nat)
    requires shardSize >= 1 && start <= n && BoundedRows(pairs, ws, Shards(n, shardSize, start), t)
    ensures InRows(pairs, start, n) <= |ws| * t
    decreases n - start
  {
    if start < n {
      var end := Min(start + shardSize, n);
      InRowsSplit(pairs, start, end, n);
      var shards := Shards(n, shardSize, start);
      assert shards[0].start == start && shards[0].end == end;
      assert shards[1..] == Shards(n, shardSize, start + shardSize);
      if end == n { InRowsEmpty(pairs, n); } else { ShardBound(pairs, n, shardSize, end, ws[1..], t); }
      assert t + (|ws| - 1) * t == |ws| * t;
      assert (|ws| - 1) * t >= 0;
    } else {
      InRowsEmpty(pairs, n);
    }
  }

  lemma {:induction false} InRowsEmpty(pairs: seq<(int, int)>, n: int)
    ensures InRows(pairs, n, n) == 0
  {
    if pairs != [] { InRowsEmpty(pairs[..|pairs| - 1], n); }
  }

  /** With a threshold the result is a sorted part of that list, at most the threshold for each shard. */
  lemma EarlyExitIsSubset(input: seq<PR>, c: Config, states: seq<State>, steps: seq<Step>)
    requires DistinctNumbers(input) && c.prs == SortedByNumber(input)
    requires FinalRun(c, states, steps) && c.threshold > 0
    ensures AllHits(c.prs, states[|steps|].collected)
    ensures var r := ResultOf(c.prs, states[|steps|].collected);
            && SortedBy(PairLess, r)
            && (forall x :: x in r ==> x in DoubleLoop(c.prs))
            && |r| <= |Shards(|c.prs|, c.shardSize, 0)| * c.threshold
  {
    var s := states[|steps|];
    ResultIsPart(input, c, states, steps);
    CollectedConflicts(c, states, steps);
    AtTheEnd(c, states, steps);
    forall k | 0 <= k < |s.collected| ensures 0 <= s.collected[k].0 < |c.prs| {
      assert Hit(c.prs, s.collected[k].0, s.collected[k].1);
    }
    InRowsAll(s.collected, |c.prs|);
    ShardBound(s.collected, |c.prs|, c.shardSize, 0, s.workers, c.threshold);
  }

  // ---------- the result does not depend on the interleaving ----------

  /** With a threshold, a shard's scan stops after that many conflicts. */
  function ShardHits(c: Config, start: nat, end: nat): (r: seq<(int, int)>)
    requires end <= |c.prs|
    ensures forall k :: 0 <= k < |r| ==> InRange(c.prs, r[k])
  {
    var all := ScanRows(c.prs, start, start + 1, end);
    if c.threshold == 0 || |all| <= c.threshold then all else all[..c.threshold]
  }

  /** One shard after the other, each scanned alone. */
  function FirstHits(c: Config, start: nat): (r: seq<(int, int)>)
    requires c.shardSize >= 1
    ensures forall k :: 0 <= k < |r| ==> InRange(c.prs, r[k])
    decreases |c.prs| - start
  {
    if start >= |c.prs| then []
    else ShardHits(c, start, Min(start + c.shardSize, |c.prs|)) + FirstHits(c, start + c.shardSize)
  }

  lemma {:induction false} PairsSize(pairs: seq<(int, int)>, start: int, end: int, rows: set<(int, int)>)
    requires Distinct(pairs) && forall p: (int, int) :: p in rows <==> p in pairs && start <= p.0 < end
    ensures InRows(pairs, start, end) == |rows|
  {
    if pairs == [] {
      assert rows == {};
    } else {
      var init, last := pairs[..|pairs| - 1], pairs[|pairs| - 1];
      assert pairs == init + [last] && last !in init;
      PairsSize(init, start, end, rows - {last});
      assert InRows(pairs, start, end) == InRows(init, start, end) + (if last in rows then 1 else 0);
    }
  }

  /** Of the list sorted by index, the worker's cursor has passed a prefix. */
  lemma {:induction false} PassedPrefix(w: Worker, all: seq<(int, int)>) returns (m: nat)
    requires SortedBy(IndexLess, all) && forall k :: 0 <= k < |all| ==> w.start <= all[k].0 < w.end
    ensures m <= |all| && forall k :: 0 <= k < |all| ==> (k < m <==> Passed(w, all[k].0, all[k].1))
  {
    if all == [] || !Passed(w, all[0].0, all[0].1) {
      m := 0;
    } else {
      m := PassedPrefix(w, all[1..]);
      m := m + 1;
    }
  }

  /** What has been collected from a shard's rows is what the cursor has passed of them. */
  lemma CollectedInRows(c: Config, s: State, k: nat, p: (int, int))
    requires Inv(c, s) && s.channel == [] && k < |s.workers| && s.workers[k].start <= p.0 < s.workers[k].end
    ensures p in s.collected <==> Hit(c.prs, p.0, p.1) && Passed(s.workers[k], p.0, p.1)
  {
    assert s.collected + s.channel == s.collected;
    forall m | 0 <= m < |s.workers| && m != k ensures !Passed(s.workers[m], p.0, p.1) {
      if m < k { assert s.workers[m].end <= s.workers[k].start; }
      if k < m { assert s.workers[k].end <= s.workers[m].start; }
    }
  }

  /** hits are what has been collected from the rows [start, end), in order. */
  ghost predicate CollectsRows(prs: seq<PR>, collected: seq<(int, int)>, start: nat, end: nat, hits: seq<(int, int)>)
  {
    && SortedBy(IndexLess, hits)
    && (forall p: (int, int) :: p in hits ==> Hit(prs, p.0, p.1) && start <= p.0 < end)
    && (forall p: (int, int) | start <= p.0 < end :: p in collected <==> p in hits)
  }

  /** A worker that is done has sent its shard's first hits. */
  lemma ShardCollected(c: Config, s: State, k: nat)
    requires Inv(c, s) && s.channel == [] && k < |s.workers|
    requires s.workers[k].i == s.workers[k].end || s.workers[k].early
    ensures var w := s.workers[k];
            w.end <= |c.prs| && CollectsRows(c.prs, s.collected, w.start, w.end, ShardHits(c, w.start, w.end))
  {
    var w := s.workers[k];
    assert WorkerOk(c, w);
    var all := ScanRows(c.prs, w.start, w.start + 1, w.end);
    ScanFacts(c.prs, w.start, w.start + 1, w.end);
    forall a | 0 <= a < |all| ensures w.start <= all[a].0 < w.end { assert all[a] in all; }
    var m := PassedPrefix(w, all);
    var sent := all[..m];
    forall p: (int, int) ensures p in sent <==> p in s.collected && w.start <= p.0 < w.end {
      SentPrefix(c, s, k, all, m, p);
    }
    SentCount(c, s, k, sent);
    if w.i == w.end && !w.early {
      if m < |all| { assert Passed(w, all[m].0, all[m].1); }
      assert sent == all;
    }
    assert sent == ShardHits(c, w.start, w.end);
    forall p: (int, int) | p in sent ensures p in all {}
  }

  lemma SentPrefix(c: Config, s: State, k: nat, all: seq<(int, int)>, m: nat, p: (int, int))
    requires Inv(c, s) && s.channel == [] && k < |s.workers|
    requires forall q: (int, int) :: q in all <==>
               Hit(c.prs, q.0, q.1) && s.workers[k].start <= q.0 < s.workers[k].end
    requires m <= |all| && forall a :: 0 <= a < |all| ==> (a < m <==> Passed(s.workers[k], all[a].0, all[a].1))
    ensures p in all[..m] <==> p in s.collected && s.workers[k].start <= p.0 < s.workers[k].end
  {
    var w := s.workers[k];
    if w.start <= p.0 < w.end {
      CollectedInRows(c, s, k, p);
      if p in all {
        var a :| 0 <= a < |all| && all[a] == p;
        if a < m { assert all[..m][a] == p; }
      }
    }
    if p in all[..m] {
      var a :| 0 <= a < m && all[..m][a] == p;
      assert all[a] in all;
    }
  }

  /** The worker's counter is the number of pairs sent. */
  lemma SentCount(c: Config, s: State, k: nat, sent: seq<(int, int)>)
    requires Inv(c, s) && s.channel == [] && k < |s.workers| && SortedBy(IndexLess, sent)
    requires forall p: (int, int) :: p in sent <==> p in s.collected && s.workers[k].start <= p.0 < s.workers[k].end
    ensures s.workers[k].found == |sent|
  {
    var w := s.workers[k];
    assert s.collected + s.channel == s.collected;
    PairsSize(s.collected, w.start, w.end, Elements(sent));
    forall a, b | 0 <= a < b < |sent| ensures sent[a] != sent[b] { assert IndexLess(sent[a], sent[b]); }
    DistinctSize(sent);
  }

  ghost predicate CollectsShards(c: Config, collected: seq<(int, int)>, shards: seq<Worker>)
  {
    forall k :: 0 <= k < |shards| ==>
      shards[k].end <= |c.prs|
      && CollectsRows(c.prs, collected, shards[k].start, shards[k].end, ShardHits(c, shards[k].start, shards[k].end))
  }

  lemma {:induction false} FirstHitsFacts(c: Config, start: nat, collected: seq<(int, int)>)
    requires c.shardSize >= 1 && CollectsShards(c, collected, Shards(|c.prs|, c.shardSize, start))
    ensures CollectsRows(c.prs, collected, start, |c.prs|, FirstHits(c, start))
    decreases |c.prs| - start
  {
    if start < |c.prs| {
      var end, next := Min(start + c.shardSize, |c.prs|), start + c.shardSize;
      var shards := Shards(|c.prs|, c.shardSize, start);
      assert shards[0].start == start && shards[0].end == end && shards[1..] == Shards(|c.prs|, c.shardSize, next);
      FirstHitsFacts(c, next, collected);
      RowsJoined(c.prs, collected, start, end, ShardHits(c, start, end), FirstHits(c, next));
    }
  }

  lemma RowsJoined(prs: seq<PR>, collected: seq<(int, int)>, start: nat, middle: nat,
                   here: seq<(int, int)>, rest: seq<(int, int)>)
    requires start <= middle <= |prs|
    requires CollectsRows(prs, collected, start, middle, here) && CollectsRows(prs, collected, middle, |prs|, rest)
    ensures CollectsRows(prs, collected, start, |prs|, here + rest)
  {
    forall a, b | 0 <= a < |here| && 0 <= b < |rest| ensures IndexLess(here[a], rest[b]) {
      assert here[a] in here && rest[b] in rest;
    }
    forall p: (int, int) ensures p in here + rest <==> p in here || p in rest {}
  }

  lemma AllCollected(c: Config, states: seq<State>, steps: seq<Step>)
    requires FinalRun(c, states, steps)
    ensures CollectsRows(c.prs, states[|steps|].collected, 0, |c.prs|, FirstHits(c, 0))
  {
    AtTheEnd(c, states, steps);
    var s, shards := states[|steps|], Shards(|c.prs|, c.shardSize, 0);
    forall k | 0 <= k < |shards|
      ensures shards[k].end <= |c.prs|
      ensures CollectsRows(c.prs, s.collected, shards[k].start, shards[k].end,
                           ShardHits(c, shards[k].start, shards[k].end))
    {
      ShardCollected(c, s, k);
    }
    FirstHitsFacts(c, 0, s.collected);
  }

  /**
   Every finished run, whatever its interleaving, returns what scanning the shards one after the
   other returns, each up to the threshold.
   */
  lemma ResultIsFirstHits(input: seq<PR>, c: Config, states: seq<State>, steps: seq<Step>)
    requires DistinctNumbers(input) && c.prs == SortedByNumber(input) && FinalRun(c, states, steps)
    ensures AllHits(c.prs, states[|steps|].collected)
    ensures ResultOf(c.prs, states[|steps|].collected) == Records(c.prs, FirstHits(c, 0))
  {
    CollectedConflicts(c, states, steps);
    AllCollected(c, states, steps);
    MembersAreHits(c.prs, states[|steps|].collected);
    SameHits(input, c.prs, states[|steps|].collected, FirstHits(c, 0));
  }

  lemma SameHits(input: seq<PR>, prs: seq<PR>, collected: seq<(int, int)>, hits: seq<(int, int)>)
    requires DistinctNumbers(input) && prs == SortedByNumber(input)
    requires AllHits(prs, collected) && Distinct(collected) && CollectsRows(prs, collected, 0, |prs|, hits)
    ensures AllHits(prs, hits) && ResultOf(prs, collected) == Records(prs, hits)
  {
    SortedByNumberFacts(input);
    MembersAreHits(prs, hits);
    ResultSorted(prs, collected);
    RecordsSorted(prs, hits);
    forall p: (int, int) | p in collected ensures p in hits {
      assert Hit(prs, p.0, p.1);
    }
    RecordsMembers(prs, hits, collected);
    RecordsMembers(prs, collected, hits);
    assert StrictOrder(PairLess);
    SortedUnique(PairLess, ResultOf(prs, collected), Records(prs, hits));
  }

  /** Two finished runs, even with other worker counts and buffers, return the same list. */
  lemma ResultIsDeterministic(input: seq<PR>, c: Config, states: seq<State>, steps: seq<Step>,
                              c': Config, states': seq<State>, steps': seq<Step>)
    requires DistinctNumbers(input) && c.prs == SortedByNumber(input)
    requires c'.prs == c.prs && c'.shardSize == c.shardSize && c'.threshold == c.threshold
    requires FinalRun(c, states, steps) && FinalRun(c', states', steps')
    ensures AllHits(c.prs, states[|steps|].collected) && AllHits(c.prs, states'[|steps'|].collected)
    ensures ResultOf(c.prs, states[|steps|].collected) == ResultOf(c.prs, states'[|steps'|].collected)
  {
    ResultIsFirstHits(input, c, states, steps);
    ResultIsFirstHits(input, c', states', steps');
    SameFirstHits(c, c', 0);
  }

  lemma {:induction false} SameFirstHits(c: Config, c': Config, start: nat)
    requires c.shardSize >= 1 && c'.prs == c.prs && c'.shardSize == c.shardSize && c'.threshold == c.threshold
    ensures FirstHits(c, start) == FirstHits(c', start)
    decreases |c.prs| - start
  {
    if start < |c.prs| { SameFirstHits(c, c', start + c.shardSize); }
  }

  // ---------- each pair is looked at once ----------

  /** The worker has looked at the pair, whether or not it has dealt with it. */
  predicate Looked(w: Worker, p: (int, int))
  {
    Passed(w, p.0, p.1) || (w.phase == Sending && p == (w.i, w.j))
  }

  ghost predicate SomeoneLooked(ws: seq<Worker>, p: (int, int))
  {
    exists k :: 0 <= k < |ws| && Looked(ws[k], p)
  }

  /** The step is a worker's look at this pair. */
  predicate LooksAt(s: State, step: Step, p: (int, int))
  {
    step.Work? && step.act == Visit && step.w < |s.workers| && p == (s.workers[step.w].i, s.workers[step.w].j)
  }

  /** How often the pair has been looked at in the first m steps of a run. */
  ghost function Looks(states: seq<State>, steps: seq<Step>, m: nat, p: (int, int)): nat
    requires m <= |steps| < |states|
  {
    if m == 0 then 0
    else Looks(states, steps, m - 1, p) + (if LooksAt(states[m - 1], steps[m - 1], p) then 1 else 0)
  }

  predicate IsPair(n: nat, p: (int, int))
  {
    0 <= p.0 < p.1 < n
  }

  lemma LookedMoved(c: Config, s: State, w: Worker, act: Act, p: (int, int))
    requires WorkerOk(c, w) && CanAct(c, s, w, act) && IsPair(|c.prs|, p)
    ensures Looked(Moved(c, w, act), p) <==> Looked(w, p) || (act == Visit && p == (w.i, w.j))
    ensures act == Visit && p == (w.i, w.j) ==> !Looked(w, p)
  {
  }

  /** Rows are disjoint, so a pair in one worker's rows is nobody else's. */
  lemma OneOwner(c: Config, s: State, k: nat, m: nat, p: (int, int))
    requires Inv(c, s) && k < |s.workers| && m < |s.workers| && k != m
    requires s.workers[k].start <= p.0 < s.workers[k].end
    ensures !Looked(s.workers[m], p)
  {
    assert WorkerOk(c, s.workers[m]);
    if m < k { assert s.workers[m].end <= s.workers[k].start; }
    if k < m { assert s.workers[k].end <= s.workers[m].start; }
  }

  /** Only worker k changes, and it then has looked at the pair if it had or does so now. */
  lemma OneLooked(ws: seq<Worker>, vs: seq<Worker>, k: nat, p: (int, int), now: bool)
    requires |ws| == |vs| && k < |ws| && forall m :: 0 <= m < |ws| && m != k ==> vs[m] == ws[m]
    requires Looked(vs[k], p) <==> Looked(ws[k], p) || now
    ensures SomeoneLooked(vs, p) <==> SomeoneLooked(ws, p) || now
  {
    if m :| 0 <= m < |ws| && Looked(ws[m], p) { assert Looked(vs[m], p); }
    if m :| 0 <= m < |vs| && Looked(vs[m], p) { assert m != k ==> Looked(ws[m], p); }
  }

  lemma LooksMoved(c: Config, s: State, step: Step, p: (int, int))
    requires Inv(c, s) && Enabled(c, s, step) && IsPair(|c.prs|, p)
    ensures SomeoneLooked(Next(c, s, step).workers, p) <==> SomeoneLooked(s.workers, p) || LooksAt(s, step, p)
    ensures LooksAt(s, step, p) ==> !SomeoneLooked(s.workers, p)
  {
    if step.Work? {
      var k, now := step.w, LooksAt(s, step, p);
      assert WorkerOk(c, s.workers[k]);
      LookedMoved(c, s, s.workers[k], step.act, p);
      OneLooked(s.workers, Next(c, s, step).workers, k, p, now);
      forall m | now && 0 <= m < |s.workers| && m != k ensures !Looked(s.workers[m], p) {
        OneOwner(c, s, k, m, p);
      }
    }
  }

  lemma {:induction false} LooksCounted(c: Config, states: seq<State>, steps: seq<Step>, m: nat, p: (int, int))
    requires ValidConfig(c) && IsRun(c, states, steps) && states[0] == Initial(c) && m <= |steps| && IsPair(|c.prs|, p)
    ensures Looks(states, steps, m, p) == if SomeoneLooked(states[m].workers, p) then 1 else 0
  {
    if m == 0 {
      var ws := states[0].workers;
      ShardsFacts(|c.prs|, c.shardSize, 0);
      forall k | 0 <= k < |ws| ensures !Looked(ws[k], p) {
        assert FreshWorker(ws[k], 0, |c.prs|);
      }
    } else {
      LooksCounted(c, states, steps, m - 1, p);
      RunIsBounded(c, states, steps, m - 1);
      assert StepAt(c, states, steps, m - 1);
      LooksMoved(c, states[m - 1], steps[m - 1], p);
    }
  }

  /** No run looks at a pair twice, and without early exit a finished run has looked at each once. */
  lemma EachPairOnce(c: Config, states: seq<State>, steps: seq<Step>, p: (int, int))
    requires FinalRun(c, states, steps) && IsPair(|c.prs|, p)
    ensures Looks(states, steps, |steps|, p) <= 1
    ensures c.threshold == 0 ==> Looks(states, steps, |steps|, p) == 1
  {
    LooksCounted(c, states, steps, |steps|, p);
    if c.threshold == 0 {
      AtTheEnd(c, states, steps);
      var s := states[|steps|];
      var k := ShardOf(|c.prs|, c.shardSize, 0, p.0);
      assert s.workers[k].start <= p.0 < s.workers[k].end;
      assert Looked(s.workers[k], p);
    }
  }
}
