/** The in-memory ledger (internal/executor/ledger.go): per key, one record for each transition. */
module Ledgers {
  import opened GitHubState

  datatype Transition = Proposed | Preflighted | Executed | Failed | CircuitDenied

  /** What a transition's snapshot text is made from; the text itself and the timestamp are left out. */
  datatype Snapshot =
    | IntentSnapshot(number: int, dryRun: bool)
    | PreflightPassed(number: int)
    | FailureSnapshot(error: Error)
    | ResultSnapshot(number: int, dryRun: bool)
    | CompatSnapshot
    | DeniedSnapshot

  datatype Record = Record(transition: Transition, snapshot: Snapshot)

  type History = seq<Record>

  function HistoryOf(ledger: map<string, History>, key: string): History
  {
    if key in ledger then ledger[key] else []
  }

  /** Replaces the first record of the same transition, or appends. */
  function Recorded(h: History, r: Record): History
  {
    if h == [] then [r]
    else if h[0].transition == r.transition then [r] + h[1..]
    else [h[0]] + Recorded(h[1..], r)
  }

  lemma {:induction false} RecordedAt(h: History, r: Record, i: nat)
    requires i < |h| && h[i].transition == r.transition && forall j :: 0 <= j < i ==> h[j].transition != r.transition
    ensures Recorded(h, r) == h[i := r]
  {
    if i > 0 {
      RecordedAt(h[1..], r, i - 1);
    }
  }

  lemma {:induction false} RecordedNew(h: History, r: Record)
    requires forall j :: 0 <= j < |h| ==> h[j].transition != r.transition
    ensures Recorded(h, r) == h + [r]
  {
    if h != [] {
      RecordedNew(h[1..], r);
    }
  }

  function RecordEffect(ledger: map<string, History>, key: string, r: Record): map<string, History>
  {
    ledger[key := Recorded(HistoryOf(ledger, key), r)]
  }

  /** The transitions of a history, in order. */
  function Transitions(h: History): seq<Transition>
  {
    if h == [] then [] else [h[0].transition] + Transitions(h[1..])
  }

  predicate IsExecuted(ledger: map<string, History>, key: string)
  {
    Executed in Transitions(HistoryOf(ledger, key))
  }

  /** Recording a transition leaves the order of the others alone. */
  lemma {:induction false} RecordedTransitions(h: History, r: Record)
    ensures Transitions(Recorded(h, r))
         == if r.transition in Transitions(h) then Transitions(h) else Transitions(h) + [r.transition]
  {
    if h != [] && h[0].transition != r.transition {
      RecordedTransitions(h[1..], r);
    }
  }

  lemma {:induction false} TransitionsAt(h: History)
    ensures |Transitions(h)| == |h|
    ensures forall i :: 0 <= i < |h| ==> Transitions(h)[i] == h[i].transition
  {
    if h != [] { TransitionsAt(h[1..]); }
  }

  class MemoryLedger {
    var transitions: map<string, History>

    constructor ()
      ensures transitions == map[]
    {
      transitions := map[];
    }

    method RecordTransition(key: string, r: Record)
      modifies this
      ensures transitions == RecordEffect(old(transitions), key, r)
    {
      var history := HistoryOf(transitions, key);
      for i := 0 to |history|
        invariant transitions == old(transitions)
        invariant forall j :: 0 <= j < i ==> history[j].transition != r.transition
      {
        if history[i].transition == r.transition {
          RecordedAt(history, r, i);
          history := history[i := r];
          transitions := transitions[key := history];
          return;
        }
      }
      RecordedNew(history, r);
      transitions := transitions[key := history + [r]];
    }

    method HasExecuted(key: string) returns (executed: bool)
      ensures executed == IsExecuted(transitions, key)
    {
      if key !in transitions {
        return false;
      }
      var history := transitions[key];
      TransitionsAt(history);
      for i := 0 to |history|
        invariant forall j :: 0 <= j < i ==> history[j].transition != Executed
      {
        if history[i].transition == Executed {
          assert Transitions(history)[i] == Executed;
          return true;
        }
      }
      return false;
    }
  }
}
