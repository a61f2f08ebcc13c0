/** The per-project judge breaker, characterised by the trace of its calls. */
module CircuitBreaker {

  datatype Outcome = Success | Failure

  datatype Event = Recorded(outcome: Outcome) | RunComplete(anyJudgeFailure: bool)

  datatype State = State(consecutiveFailures: nat, open: bool)

  const CLOSED := State(0, false)

  // ---- Meaning of a trace ----

  /** The outcomes recorded since the last clean run. */
  ghost function SinceClean(trace: seq<Event>): seq<Outcome> {
    if trace == [] then []
    else
      var before := SinceClean(trace[..|trace| - 1]);
      match trace[|trace| - 1]
      case Recorded(outcome) => before + [outcome]
      case RunComplete(anyJudgeFailure) => if anyJudgeFailure then before else []
  }

  /** c is the number of failures after the last success. */
  ghost predicate FailuresSinceSuccess(s: seq<Outcome>, c: nat) {
    && c <= |s|
    && (forall k :: |s| - c <= k < |s| ==> s[k] == Failure)
    && (c < |s| ==> s[|s| - c - 1] == Success)
  }

  ghost predicate FailureRun(s: seq<Outcome>, k: nat, m: nat) {
    k + m <= |s| && forall j :: k <= j < k + m ==> s[j] == Failure
  }

  /** Somewhere, m failures in a row. */
  ghost predicate Tripped(s: seq<Outcome>, m: nat) {
    exists k: nat :: FailureRun(s, k, m)
  }

  /** A limit below one trips on the first failure. */
  function Limit(maxConsecutiveFailures: int): (m: nat)
    ensures m >= 1 && (maxConsecutiveFailures >= 1 ==> m == maxConsecutiveFailures)
  {
    if maxConsecutiveFailures < 1 then 1 else maxConsecutiveFailures
  }

  ghost predicate Describes(state: State, trace: seq<Event>, m: nat) {
    && FailuresSinceSuccess(SinceClean(trace), state.consecutiveFailures)
    && (state.open <==> Tripped(SinceClean(trace), m))
  }

  lemma RunIsFailing(s: seq<Outcome>, k: nat, m: nat, j: nat)
    requires FailureRun(s, k, m) && k <= j < k + m
    ensures s[j] == Failure
  {
  }

  lemma TrippedBySuccess(s: seq<Outcome>, m: nat)
    requires m >= 1
    ensures Tripped(s + [Success], m) <==> Tripped(s, m)
  {
    var t := s + [Success];
    if Tripped(t, m) {
      var k: nat :| FailureRun(t, k, m);
      assert k + m <= |s| by {
        if k + m == |t| { RunIsFailing(t, k, m, |s|); }
      }
      assert FailureRun(s, k, m) by {
        assert forall j :: k <= j < k + m ==> s[j] == t[j];
      }
    }
    if Tripped(s, m) {
      var k: nat :| FailureRun(s, k, m);
      assert FailureRun(t, k, m);
    }
  }

  lemma TrippedByFailure(s: seq<Outcome>, c: nat, m: nat)
    requires m >= 1 && FailuresSinceSuccess(s, c)
    ensures Tripped(s + [Failure], m) <==> Tripped(s, m) || c + 1 >= m
  {
    var t := s + [Failure];
    if Tripped(t, m) && c + 1 < m {
      var k: nat :| FailureRun(t, k, m);
      assert k + m <= |s| by {
        if k + m == |t| { RunIsFailing(t, k, m, |s| - c - 1); }
      }
      assert FailureRun(s, k, m) by {
        assert forall j :: k <= j < k + m ==> s[j] == t[j];
      }
    }
    if Tripped(s, m) {
      var k: nat :| FailureRun(s, k, m);
      assert FailureRun(t, k, m);
    }
    if c + 1 >= m {
      assert FailureRun(t, |t| - m, m);
    }
  }

  /** Failures in a row since the last clean run decide the breaker; a success never closes it. */
  lemma RecordSuccess(state: State, trace: seq<Event>, m: nat)
    requires m >= 1 && Describes(state, trace, m)
    ensures Describes(State(0, state.open), trace + [Recorded(Success)], m)
  {
    var next := trace + [Recorded(Success)];
    assert next[..|next| - 1] == trace;
    TrippedBySuccess(SinceClean(trace), m);
  }

  lemma RecordFailure(state: State, trace: seq<Event>, m: nat)
    requires m >= 1 && Describes(state, trace, m)
    ensures Describes(State(state.consecutiveFailures + 1, state.open || state.consecutiveFailures + 1 >= m),
                      trace + [Recorded(Failure)], m)
  {
    var next := trace + [Recorded(Failure)];
    assert next[..|next| - 1] == trace;
    TrippedByFailure(SinceClean(trace), state.consecutiveFailures, m);
  }

  lemma CompleteRun(state: State, trace: seq<Event>, anyJudgeFailure: bool, m: nat)
    requires m >= 1 && Describes(state, trace, m)
    ensures Describes(if anyJudgeFailure then state else CLOSED, trace + [RunComplete(anyJudgeFailure)], m)
  {
    var next := trace + [RunComplete(anyJudgeFailure)];
    assert next[..|next| - 1] == trace;
  }

  class ReconciliationCircuitBreaker {
    const maxConsecutiveFailures: int
    var projects: map<string, State>
    ghost var traces: map<string, seq<Event>>

    ghost function Trace(projectId: string): seq<Event>
      reads this
    {
      if projectId in traces then traces[projectId] else []
    }

    function StateOf(projectId: string): State
      reads this
    {
      if projectId in projects then projects[projectId] else CLOSED
    }

    ghost predicate Valid()
      reads this
    {
      forall p :: Describes(StateOf(p), Trace(p), Limit(maxConsecutiveFailures))
    }

    constructor (maxConsecutiveFailures: int)
      ensures Valid() && traces == map[] && this.maxConsecutiveFailures == maxConsecutiveFailures
    {
      this.maxConsecutiveFailures := maxConsecutiveFailures;
      projects, traces := map[], map[];
    }

    /** Open exactly when, since the project's last clean run, the limit was reached by failures in a row. */
    method IsOpen(projectId: string) returns (open: bool)
      requires Valid()
      ensures open <==> Tripped(SinceClean(Trace(projectId)), Limit(maxConsecutiveFailures))
    {
      assert Describes(StateOf(projectId), Trace(projectId), Limit(maxConsecutiveFailures));
      if projectId !in projects { return false; }
      return projects[projectId].open;
    }

    method Record(projectId: string, outcome: Outcome)
      requires Valid()
      modifies this
      ensures Valid()
      ensures traces == old(traces)[projectId := old(Trace(projectId)) + [Recorded(outcome)]]
      ensures Trace(projectId) == old(Trace(projectId)) + [Recorded(outcome)]
      ensures forall p :: p != projectId ==> Trace(p) == old(Trace(p))
    {
      var state := StateOf(projectId);
      ghost var trace := Trace(projectId);
      assert Describes(state, trace, Limit(maxConsecutiveFailures));
      var next: State;
      if outcome == Success {
        RecordSuccess(state, trace, Limit(maxConsecutiveFailures));
        next := State(0, state.open);
      } else {
        RecordFailure(state, trace, Limit(maxConsecutiveFailures));
        var count := state.consecutiveFailures + 1;
        next := State(count, state.open || count >= maxConsecutiveFailures);
      }
      SetState(projectId, next, trace + [Recorded(outcome)]);
    }

    /** Replaces one project's state and trace; the others keep theirs. */
    method SetState(projectId: string, state: State, ghost trace: seq<Event>)
      requires Valid() && Describes(state, trace, Limit(maxConsecutiveFailures))
      modifies this
      ensures Valid()
      ensures traces == old(traces)[projectId := trace] && Trace(projectId) == trace
      ensures forall p :: p != projectId ==> Trace(p) == old(Trace(p))
    {
      projects := projects[projectId := state];
      traces := traces[projectId := trace];
      forall p ensures Describes(StateOf(p), Trace(p), Limit(maxConsecutiveFailures)) {
        if p != projectId { assert StateOf(p) == old(StateOf(p)) && Trace(p) == old(Trace(p)); }
      }
    }

    method OnRunComplete(projectId: string, anyJudgeFailure: bool)
      requires Valid()
      modifies this
      ensures Valid()
      ensures traces == old(traces)[projectId := old(Trace(projectId)) + [RunComplete(anyJudgeFailure)]]
      ensures Trace(projectId) == old(Trace(projectId)) + [RunComplete(anyJudgeFailure)]
      ensures forall p :: p != projectId ==> Trace(p) == old(Trace(p))
    {
      assert Describes(StateOf(projectId), Trace(projectId), Limit(maxConsecutiveFailures));
      CompleteRun(StateOf(projectId), Trace(projectId), anyJudgeFailure, Limit(maxConsecutiveFailures));
      if !anyJudgeFailure {
        projects := projects[projectId := CLOSED];
      }
      traces := traces[projectId := Trace(projectId) + [RunComplete(anyJudgeFailure)]];
      forall p | p != projectId ensures StateOf(p) == old(StateOf(p)) && Trace(p) == old(Trace(p)) {
      }
    }
  }
}
