/** Pipeline runs: slot hand-off, run outcome, buffer clear discipline and breaker feedback. */
module Ingestion {
  import opened MemoryTypes
  import BufferStore
  import Watcher
  import Breaker = CircuitBreaker
  import Storage
  import VectorCache
  import Commits
  import Cosine
  import Reconciler

  // ---- The slots ----

  /** acquireSemaphore and releaseSemaphore; tickets number the runs in order of arrival. */
  class Semaphore {
    const limit: int
    var activeCount: int
    var waitQueue: seq<nat>
    var arrived: nat
    ghost var holders: set<nat>
    ghost var granted: nat

    ghost predicate Valid()
      reads this
    {
      && activeCount == |holders|
      && (activeCount <= limit || activeCount == 0)
      // Slots are granted strictly in order of arrival, and somebody waits only while none is free.
      && granted <= arrived
      && |waitQueue| == arrived - granted && (forall i :: 0 <= i < |waitQueue| ==> waitQueue[i] == granted + i)
      && (forall t :: t in holders ==> t < granted)
      && (waitQueue != [] ==> activeCount >= limit)
    }

    constructor (limit: int)
      ensures Valid() && holders == {} && arrived == 0 && granted == 0 && this.limit == limit
    {
      this.limit := limit;
      activeCount, waitQueue, arrived, holders, granted := 0, [], 0, {}, 0;
    }

    method Acquire() returns (ticket: nat, immediately: bool)
      requires Valid()
      modifies this
      ensures Valid() && ticket == old(arrived) && arrived == old(arrived) + 1
      ensures immediately <==> old(activeCount) < limit
      ensures immediately ==> holders == old(holders) + {ticket} && waitQueue == [] && granted == arrived
      ensures !immediately ==> holders == old(holders) && waitQueue == old(waitQueue) + [ticket]
    {
      ticket, arrived := arrived, arrived + 1;
      if activeCount < limit {
        activeCount, holders, granted := activeCount + 1, holders + {ticket}, granted + 1;
        return ticket, true;
      }
      waitQueue := waitQueue + [ticket];
      immediately := false;
    }

    /** The slot goes to the longest waiting run, or becomes free. */
    method Release(ghost ticket: nat) returns (next: Option<nat>)
      requires Valid() && ticket in holders
      modifies this
      ensures Valid() && arrived == old(arrived) && ticket !in holders
      ensures next == if old(waitQueue) == [] then None else Some(old(waitQueue)[0])
      ensures holders == old(holders) - {ticket} + if next.Some? then {next.value} else {}
      ensures waitQueue == if next.Some? then old(waitQueue)[1..] else []
    {
      holders := holders - {ticket};
      if |waitQueue| > 0 {
        next := Some(waitQueue[0]);
        waitQueue := waitQueue[1..];
        holders, granted := holders + {next.value}, granted + 1;
      } else {
        activeCount := activeCount - 1;
        next := None;
      }
    }
  }

  // ---- One run ----

  datatype Config = Config(
    reconciliationEnabled: bool,
    intraBatchThreshold: real,
    neighborThreshold: real,
    neighborPoolMaxSize: int)

  /** Where a direct commit is made to fail: at a candidate's record or at its embedding. */
  datatype DirectFault = OnRecord(at: nat) | OnEmbedding(at: nat)

  /** The answers of everything a run calls: I/O faults, the extraction stage, and the world reconciliation meets. */
  datatype Script = Script(
    snapshotFault: bool,
    clearFault: bool,
    candidates: Option<seq<CandidateMemory>>,
    directFault: Option<DirectFault>,
    env: Reconciler.Environment,
    summaryIds: nat -> string,
    now: string)

  ghost predicate NoJudge(calls: seq<Breaker.Event>) {
    forall k :: 0 <= k < |calls| ==> !calls[k].Recorded?
  }

  ghost predicate JudgeFailed(calls: seq<Breaker.Event>) {
    Breaker.Recorded(Breaker.Failure) in calls
  }

  /** Judge outcomes, then one completion that says whether any of them failed. */
  ghost predicate Completes(calls: seq<Breaker.Event>) {
    && calls != [] && calls[|calls| - 1] == Breaker.RunComplete(JudgeFailed(calls))
    && forall k :: 0 <= k < |calls| - 1 ==> calls[k].Recorded?
  }

  // ---- The direct commit ----

  ghost predicate Repeated(candidates: seq<CandidateMemory>, k: nat)
    requires k < |candidates|
  {
    exists j :: 0 <= j < k && candidates[j].recordId == candidates[k].recordId
  }

  /** Candidate k cannot be committed as it stands: its id is taken, or storage fails at it. */
  ghost predicate Refused(closed: bool, rows: map<string, Storage.Row>, candidates: seq<CandidateMemory>,
                          fault: Option<DirectFault>, k: nat)
    requires k < |candidates|
  {
    || closed || fault == Some(OnRecord(k)) || (fault == Some(OnEmbedding(k)) && candidates[k].embedding.Some?)
    || candidates[k].recordId in rows || Repeated(candidates, k)
  }

  /** Some candidate cannot be committed. */
  ghost predicate Faults(closed: bool, rows: map<string, Storage.Row>, candidates: seq<CandidateMemory>,
                         fault: Option<DirectFault>)
  {
    exists k: nat :: k < |candidates| && Refused(closed, rows, candidates, fault, k)
  }

  /** No event lost its evidence on the way, and the record of the past is intact. */
  ghost predicate EvidenceSafe(before: Commits.Snapshot, after: Commits.Snapshot) {
    && Commits.Sound(after.rows, after.ever)
    && forall event :: Storage.Evident(before.rows, event) ==> Storage.Evident(after.rows, event)
  }

  /** Evidence that was complete before is complete after. */
  ghost predicate Preserves(before: Commits.Snapshot, after: Commits.Snapshot) {
    Commits.Sound(before.rows, before.ever) ==> EvidenceSafe(before, after)
  }

  /** Every stored row stays as it is. */
  ghost predicate Grown(before: map<string, Storage.Row>, after: map<string, Storage.Row>) {
    forall id :: id in before ==> id in after && after[id] == before[id]
  }

  /** The candidate is stored under its own id, as it was extracted and with its embedding. */
  ghost predicate Landed(rows: map<string, Storage.Row>, c: CandidateMemory, now: string) {
    Commits.Carries(rows, c, now)
  }

  /** The candidate's record is stored, but its embedding is not. */
  ghost predicate HalfLanded(rows: map<string, Storage.Row>, c: CandidateMemory, now: string) {
    && c.recordId in rows && Commits.Mirrors(rows[c.recordId].record, c, now)
    && rows[c.recordId].embedding.None?
  }

  ghost function Ids(candidates: seq<CandidateMemory>): set<string> {
    set c | c in candidates :: c.recordId
  }

  ghost predicate AllLanded(rows: map<string, Storage.Row>, candidates: seq<CandidateMemory>, n: nat, now: string)
    requires n <= |candidates|
  {
    forall x :: 0 <= x < n ==> Landed(rows, candidates[x], now)
  }

  lemma GrownAlready(rows: map<string, Storage.Row>)
    ensures Grown(rows, rows)
  {
  }

  lemma RecordLands(before: map<string, Storage.Row>, after: map<string, Storage.Row>, c: CandidateMemory, now: string)
    requires c.recordId !in before
    requires after == before[c.recordId := Storage.Row(Commits.ToMemoryRecord(c, now), None)]
    ensures Grown(before, after) && after.Keys == before.Keys + {c.recordId}
    ensures HalfLanded(after, c, now) && (c.embedding.None? ==> Landed(after, c, now))
  {
  }

  lemma EmbeddingLands(before: map<string, Storage.Row>, between: map<string, Storage.Row>,
                       after: map<string, Storage.Row>, c: CandidateMemory, now: string)
    requires c.recordId !in before
    requires between == before[c.recordId := Storage.Row(Commits.ToMemoryRecord(c, now), None)]
    requires after == between[c.recordId := between[c.recordId].(embedding := c.embedding)]
    ensures Grown(before, after) && after.Keys == before.Keys + {c.recordId} && Landed(after, c, now)
  {
  }

  /** Either the namespace is out of the cache, or neither rows nor cache moved. */
  ghost predicate NothingStale(namespace: string, before: map<string, Storage.Row>, after: map<string, Storage.Row>,
                               cached: map<string, VectorCache.Index>, cached': map<string, VectorCache.Index>)
  {
    cached' == cached - {namespace} || (cached' == cached && after == before)
  }

  lemma NotStaleYet(namespace: string, rows: map<string, Storage.Row>, cached: map<string, VectorCache.Index>)
    ensures NothingStale(namespace, rows, rows, cached, cached)
  {
  }

  lemma StillNotStale(namespace: string, first: map<string, Storage.Row>, before: map<string, Storage.Row>,
                      after: map<string, Storage.Row>, cached: map<string, VectorCache.Index>,
                      cached': map<string, VectorCache.Index>, cached'': map<string, VectorCache.Index>)
    requires NothingStale(namespace, first, before, cached, cached')
    requires NothingStale(namespace, before, after, cached', cached'')
    ensures NothingStale(namespace, first, after, cached, cached'')
  {
    WithoutTwice(cached, namespace);
  }

  lemma WithoutTwice<V>(m: map<string, V>, k: string)
    ensures m - {k} - {k} == m - {k}
  {
  }

  lemma IdsSnoc(candidates: seq<CandidateMemory>, n: nat)
    requires n < |candidates|
    ensures Ids(candidates[..n + 1]) == Ids(candidates[..n]) + {candidates[n].recordId}
    ensures Repeated(candidates, n) <==> candidates[n].recordId in Ids(candidates[..n])
    ensures candidates[n].recordId in Ids(candidates)
  {
    assert candidates[..n + 1] == candidates[..n] + [candidates[n]];
    if Repeated(candidates, n) {
      var j :| 0 <= j < n && candidates[j].recordId == candidates[n].recordId;
      assert candidates[j] in candidates[..n];
    }
    if candidates[n].recordId in Ids(candidates[..n]) {
      var c :| c in candidates[..n] && c.recordId == candidates[n].recordId;
      var j :| 0 <= j < n && candidates[..n][j] == c;
      assert candidates[j].recordId == candidates[n].recordId;
    }
  }

  // ---- The first n candidates, written one after another ----

  /** Exactly the first n candidates are in, none of them refused, and all evidence is where it was. */
  ghost predicate Written(first: Commits.Snapshot, current: Commits.Snapshot, closed: bool,
                          candidates: seq<CandidateMemory>, fault: Option<DirectFault>, n: nat, now: string)
  {
    && n <= |candidates|
    && (forall k :: 0 <= k < n ==> !Refused(closed, first.rows, candidates, fault, k))
    && Grown(first.rows, current.rows) && AllLanded(current.rows, candidates, n, now)
    && current.rows.Keys == first.rows.Keys + Ids(candidates[..n])
    && Preserves(first, current)
  }

  lemma NothingWritten(first: Commits.Snapshot, closed: bool, candidates: seq<CandidateMemory>,
                       fault: Option<DirectFault>, now: string)
    ensures Written(first, first, closed, candidates, fault, 0, now)
  {
    Unmoved(first);
    assert Ids(candidates[..0]) == {};
  }

  /** Whether the next candidate is refused shows in the rows as the ones before it left them. */
  lemma WrittenNext(first: Commits.Snapshot, current: Commits.Snapshot, closed: bool,
                    candidates: seq<CandidateMemory>, fault: Option<DirectFault>, n: nat, now: string)
    requires n < |candidates| && Written(first, current, closed, candidates, fault, n, now)
    ensures Refused(closed, first.rows, candidates, fault, n) <==>
            || closed || fault == Some(OnRecord(n)) || (fault == Some(OnEmbedding(n)) && candidates[n].embedding.Some?)
            || candidates[n].recordId in current.rows
    ensures candidates[n].recordId in current.rows <==>
            candidates[n].recordId in first.rows || Repeated(candidates, n)
  {
    IdsSnoc(candidates, n);
    assert candidates[n].recordId in current.rows <==> candidates[n].recordId in current.rows.Keys;
    assert candidates[n].recordId in first.rows <==> candidates[n].recordId in first.rows.Keys;
  }

  lemma WrittenOne(first: Commits.Snapshot, before: Commits.Snapshot, after: Commits.Snapshot, closed: bool,
                   candidates: seq<CandidateMemory>, fault: Option<DirectFault>, n: nat, now: string)
    requires n < |candidates| && Written(first, before, closed, candidates, fault, n, now)
    requires !Refused(closed, first.rows, candidates, fault, n)
    requires Grown(before.rows, after.rows) && Landed(after.rows, candidates[n], now)
    requires after.rows.Keys == before.rows.Keys + {candidates[n].recordId}
    requires Preserves(before, after)
    ensures Written(first, after, closed, candidates, fault, n + 1, now)
  {
    hide Refused, Landed, Ids;
    IdsSnoc(candidates, n);
    SafeTwice(first, before, after);
    forall x | 0 <= x < n ensures Landed(after.rows, candidates[x], now) {
      StillLanded(before.rows, after.rows, candidates[x], now);
    }
  }

  lemma StillLanded(before: map<string, Storage.Row>, after: map<string, Storage.Row>, c: CandidateMemory, now: string)
    requires Grown(before, after) && Landed(before, c, now)
    ensures Landed(after, c, now)
  {
  }

  /** The commit that stops at candidate n. */
  lemma WrittenPart(first: Commits.Snapshot, before: Commits.Snapshot, after: Commits.Snapshot, closed: bool,
                    candidates: seq<CandidateMemory>, fault: Option<DirectFault>, n: nat, now: string)
    requires n < |candidates| && Written(first, before, closed, candidates, fault, n, now)
    requires Refused(closed, first.rows, candidates, fault, n) && Grown(before.rows, after.rows)
    requires after.rows.Keys <= before.rows.Keys + {candidates[n].recordId}
    requires Preserves(before, after)
    ensures Faults(closed, first.rows, candidates, fault)
    ensures forall k :: 0 <= k < n ==> !Refused(closed, first.rows, candidates, fault, k)
    ensures Grown(first.rows, after.rows) && AllLanded(after.rows, candidates, n, now)
    ensures after.rows.Keys <= first.rows.Keys + Ids(candidates)
    ensures Preserves(first, after)
  {
    hide Refused, Landed;
    IdsSnoc(candidates, n);
    SafeTwice(first, before, after);
    assert forall c :: c in candidates[..n] ==> c in candidates;
    forall x | 0 <= x < n ensures Landed(after.rows, candidates[x], now) {
      StillLanded(before.rows, after.rows, candidates[x], now);
    }
  }

  lemma WrittenAll(first: Commits.Snapshot, current: Commits.Snapshot, closed: bool,
                   candidates: seq<CandidateMemory>, fault: Option<DirectFault>, now: string)
    requires Written(first, current, closed, candidates, fault, |candidates|, now)
    ensures !Faults(closed, first.rows, candidates, fault)
    ensures forall k :: 0 <= k < |candidates| ==> !Refused(closed, first.rows, candidates, fault, k)
    ensures Grown(first.rows, current.rows) && AllLanded(current.rows, candidates, |candidates|, now)
    ensures current.rows.Keys <= first.rows.Keys + Ids(candidates)
    ensures Preserves(first, current)
  {
    assert candidates[..|candidates|] == candidates;
  }

  /** New embeddings touch no evidence. */
  lemma SameRecordsAreSafe(before: Commits.Snapshot, after: Commits.Snapshot)
    requires after.ever == before.ever && after.rows.Keys == before.rows.Keys
    requires forall id :: id in before.rows ==> after.rows[id].record == before.rows[id].record
    ensures Preserves(before, after)
  {
    forall event | Storage.Evident(before.rows, event) ensures Storage.Evident(after.rows, event) {
      var id :| id in before.rows && event in before.rows[id].record.sourceEventIds;
      assert id in after.rows && event in after.rows[id].record.sourceEventIds;
    }
  }

  /** One more row, whatever the id was used for before, endangers no evidence. */
  lemma LandingIsSafe(before: Commits.Snapshot, after: Commits.Snapshot, record: MemoryRecord)
    requires Commits.Sound(before.rows, before.ever) && Storage.FromHistory(after.rows, after.ever)
    requires Grown(before.rows, after.rows) && after.ever == before.ever[record.recordId := record]
    requires record.recordId in after.rows && after.rows[record.recordId].record == record
    ensures EvidenceSafe(before, after)
  {
    Commits.AddKeepsEvidence(before.rows, after.rows, before.ever, after.ever);
    GrownKeepsEvident(before.rows, after.rows);
  }

  lemma PutIsSafe(before: Commits.Snapshot, after: Commits.Snapshot, record: MemoryRecord)
    requires record.recordId !in before.rows && Storage.FromHistory(after.rows, after.ever)
    requires after.rows == before.rows[record.recordId := Storage.Row(record, None)]
    requires after.ever == before.ever[record.recordId := record]
    ensures Preserves(before, after)
  {
    hide Storage.FromHistory, Storage.EvidenceKept, EvidenceSafe;
    if Commits.Sound(before.rows, before.ever) { LandingIsSafe(before, after, record); }
  }

  lemma GrownKeepsEvident(before: map<string, Storage.Row>, after: map<string, Storage.Row>)
    requires Grown(before, after)
    ensures forall event :: Storage.Evident(before, event) ==> Storage.Evident(after, event)
  {
    forall event | Storage.Evident(before, event) ensures Storage.Evident(after, event) {
      var id :| id in before && event in before[id].record.sourceEventIds;
      assert id in after;
    }
  }

  // ---- What a run amounts to ----

  /** How far a run gets and along which path; a direct commit may hit a candidate it cannot write. */
  datatype Route = Unread | Idle | Unextracted | Direct(faults: bool) | Judged

  ghost function Processing(script: Script, judging: bool, closed: bool, rows: map<string, Storage.Row>): Route {
    if script.candidates.None? then Unextracted
    else if script.candidates.value != [] && judging then Judged
    else Direct(Faults(closed, rows, script.candidates.value, script.directFault))
  }

  ghost const NO_RUN := Reconciler.History([], [], [], [], [Reconciler.NOTHING], [[]])

  /** The counts a reconciliation ended with. */
  ghost function LastCounts(run: Reconciler.History): Reconciler.Counts {
    if run.counts == [] then Reconciler.NOTHING else run.counts[|run.counts| - 1]
  }

  /** What a run reports, None standing for a throw, and what the breaker hears of it. */
  ghost predicate Ends(route: Route, script: Script, run: Reconciler.History, report: Option<bool>,
                       calls: seq<Breaker.Event>) {
    match route
    case Unread => report == None && calls == []
    case Idle => report == Cleared(script) && calls == Completion(report, [])
    case Unextracted => report == Some(false) && calls == []
    case Direct(faults) => report == (if faults then None else Cleared(script)) && calls == Completion(report, [])
    case Judged =>
      && report == Verdict(script, run)
      && calls == Reconciler.Events(Reconciler.LastSessions(run)) + Completion(report, Reconciler.LastSessions(run))
  }

  /**
   * What becomes of the store, and which reconciliation was run. Off the two committing routes nothing is touched. A
   * direct commit adds candidates only, each one up to the first refused. A judged run is the reconciliation of the
   * candidates.
   */
  ghost predicate Stores(sqrt: real -> real, cfg: Reconciler.Config, route: Route, script: Script,
                         run: Reconciler.History, before: Commits.Snapshot, after: Commits.Snapshot)
    requires Cosine.IsSqrt(sqrt)
  {
    match route
    case Direct(_) =>
      script.candidates.Some? && run == NO_RUN && CommitsDirectly(script, before, after) && Preserves(before, after)
    case Judged =>
      && script.candidates.Some?
      && Reconciler.IsRun(sqrt, cfg, script.candidates.value, script.env, script.summaryIds, run, before, after)
    case _ => run == NO_RUN && after == before
  }

  ghost predicate CommitsDirectly(script: Script, before: Commits.Snapshot, after: Commits.Snapshot)
    requires script.candidates.Some?
  {
    var candidates := script.candidates.value;
    && Grown(before.rows, after.rows) && after.rows.Keys <= before.rows.Keys + Ids(candidates)
    && forall k: nat :: Accepted(before, candidates, script.directFault, k) ==>
         Landed(after.rows, candidates[k], script.now)
  }

  /** Neither candidate k nor any before it is refused. */
  ghost predicate Accepted(before: Commits.Snapshot, candidates: seq<CandidateMemory>, fault: Option<DirectFault>,
                           k: nat)
  {
    k < |candidates| && forall j :: 0 <= j <= k ==> !Refused(before.closed, before.rows, candidates, fault, j)
  }

  ghost function Cleared(script: Script): Option<bool> {
    if script.clearFault then None else Some(true)
  }

  ghost function Completion(report: Option<bool>, sessions: seq<Breaker.Outcome>): seq<Breaker.Event> {
    if report.Some? then [Breaker.RunComplete(Breaker.Failure in sessions)] else []
  }

  /** A judged run fails when every cluster failed, and otherwise clears the buffer. */
  ghost function Verdict(script: Script, run: Reconciler.History): Option<bool> {
    if AllFailed(run) then Some(false) else Cleared(script)
  }

  ghost predicate AllFailed(run: Reconciler.History) {
    LastCounts(run).clustersFailed == |run.batches|
  }

  /** The runs that end in a throw: unreadable or unclearable buffers, and direct commits of a refused candidate. */
  ghost predicate Throws(route: Route, script: Script, run: Reconciler.History) {
    match route
    case Unread => true
    case Idle => script.clearFault
    case Unextracted => false
    case Direct(faults) => faults || script.clearFault
    case Judged => script.clearFault && !AllFailed(run)
  }

  /**
   * A run reports exactly when it does not throw. A judge is asked on the judged route only, and every report past
   * extraction tells the breaker, once and last, whether a judge failed.
   */
  lemma EndsCompletes(route: Route, script: Script, run: Reconciler.History, report: Option<bool>,
                      calls: seq<Breaker.Event>)
    requires Ends(route, script, run, report, calls)
    ensures report.None? <==> Throws(route, script, run)
    ensures report == Some(false) <==> route.Unextracted? || (route.Judged? && AllFailed(run))
    ensures !route.Judged? ==> NoJudge(calls)
    ensures report.Some? && !route.Unextracted? ==> Completes(calls)
    ensures route.Judged? ==> (JudgeFailed(calls) <==> Breaker.Failure in Reconciler.LastSessions(run))
  {
    if route.Judged? {
      var sessions := Reconciler.LastSessions(run);
      EventsFail(sessions, Completion(report, sessions));
      if report.Some? { CompletesEvents(sessions, Breaker.Failure in sessions); }
    }
  }

  lemma EventsFail(sessions: seq<Breaker.Outcome>, tail: seq<Breaker.Event>)
    requires NoJudge(tail)
    ensures JudgeFailed(Reconciler.Events(sessions) + tail) <==> Breaker.Failure in sessions
  {
    var calls := Reconciler.Events(sessions) + tail;
    if Breaker.Failure in sessions {
      var i :| 0 <= i < |sessions| && sessions[i] == Breaker.Failure;
      assert calls[i] == Breaker.Recorded(Breaker.Failure);
    }
    if JudgeFailed(calls) {
      var i :| 0 <= i < |calls| && calls[i] == Breaker.Recorded(Breaker.Failure);
      assert i < |sessions|;
    }
  }

  lemma CompletesEvents(sessions: seq<Breaker.Outcome>, anyFailed: bool)
    requires anyFailed <==> Breaker.Failure in sessions
    ensures Completes(Reconciler.Events(sessions) + [Breaker.RunComplete(anyFailed)])
  {
    EventsFail(sessions, [Breaker.RunComplete(anyFailed)]);
  }

  /** A completion without judge failures wipes the breaker's memory. */
  lemma ClosedByCompletion(trace: seq<Breaker.Event>, calls: seq<Breaker.Event>, limit: int)
    requires NoJudge(calls) && Completes(calls)
    ensures !Breaker.Tripped(Breaker.SinceClean(trace + calls), Breaker.Limit(limit))
  {
    assert |calls| > 1 ==> calls[0].Recorded?;
    assert calls == [Breaker.RunComplete(false)];
    assert (trace + calls)[..|trace + calls| - 1] == trace;
  }

  ghost function Reports(report: Option<bool>): seq<Watcher.Event> {
    if report.Some? then [Watcher.Reported(report.value)] else []
  }

  /** After the run of an extraction in flight another may be fired exactly when the run reported and did not latch. */
  lemma MayFireAfter(trace: seq<Watcher.Event>, limit: int, report: Option<bool>)
    requires Watcher.InFlight(trace)
    ensures Watcher.MayFire(trace + Reports(report), limit) <==>
            report == Some(true) || (report == Some(false) && Watcher.Failures(trace) + 1 < limit)
  {
    if report.Some? {
      assert (trace + Reports(report))[..|trace|] == trace;
    } else {
      assert trace + Reports(report) == trace;
    }
  }

  /** What follows for the judge breaker and the watcher from the way a run ended. */
  lemma RunMeans(route: Route, script: Script, run: Reconciler.History, report: Option<bool>, calls: seq<Breaker.Event>,
                 trace: seq<Breaker.Event>, judgeLimit: int, fired: seq<Watcher.Event>, limit: int)
    requires Ends(route, script, run, report, calls)
    ensures report.None? <==> Throws(route, script, run)
    ensures !route.Judged? ==> NoJudge(calls)
    ensures !route.Judged? && report.Some? && !route.Unextracted? ==>
              !Breaker.Tripped(Breaker.SinceClean(trace + calls), Breaker.Limit(judgeLimit))
    ensures Watcher.InFlight(fired) ==>
              (Watcher.MayFire(fired + Reports(report), limit) <==>
               !Throws(route, script, run) && (report == Some(true) || Watcher.Failures(fired) + 1 < limit))
  {
    EndsCompletes(route, script, run, report, calls);
    if !route.Judged? && report.Some? && !route.Unextracted? { ClosedByCompletion(trace, calls, judgeLimit); }
    if Watcher.InFlight(fired) { MayFireAfter(fired, limit, report); }
  }

  /** No route loses evidence; a judged run needs an environment that recalls the past of its namespace. */
  lemma StoresKeepEvidence(sqrt: real -> real, cfg: Reconciler.Config, route: Route, script: Script, width: nat,
                           run: Reconciler.History, before: Commits.Snapshot, after: Commits.Snapshot)
    requires Cosine.IsSqrt(sqrt) && Stores(sqrt, cfg, route, script, run, before, after)
    requires route.Judged? ==>
               Reconciler.FreshBatch(cfg, script.candidates.value, script.summaryIds, width, before.ever)
    ensures (route.Judged? ==> Reconciler.Recalls(script.env, before.ever, cfg.namespace)) ==> Preserves(before, after)
  {
    hide Reconciler.FreshBatch, Reconciler.Recalls, Reconciler.OthersSpared;
    if route.Judged? {
      if Commits.Sound(before.rows, before.ever) && Reconciler.Recalls(script.env, before.ever, cfg.namespace) {
        Reconciler.RunConserves(sqrt, cfg, script.candidates.value, script.env, script.summaryIds, width, run,
                                before, after);
      }
    } else {
      Unmoved(before);
    }
  }

  /** One such run: the database refuses the first record of a direct commit, and the project stays wedged. */
  lemma ThrowingRun(script: Script, c: CandidateMemory, limit: int, later: seq<Watcher.Event>)
    requires script.candidates == Some([c]) && script.directFault == Some(OnRecord(0))
    ensures Processing(script, false, false, map[]) == Direct(true)
    ensures Throws(Direct(true), script, NO_RUN)
    ensures var wedged := [Watcher.Fired] + Reports(None);
            Watcher.Disciplined(wedged + later, limit) && later != [] ==> later[0].Reported?
  {
    assert Refused(false, map[], [c], script.directFault, 0);
    assert [Watcher.Fired] + Reports(None) == [Watcher.Fired];
    if Watcher.Disciplined([Watcher.Fired] + later, limit) { Watcher.UnreportedWedges([Watcher.Fired], later, limit); }
  }

  class IngestionPipeline {
    const config: Config
    const sqrt: real -> real
    const width: nat   // of every embedding
    const semaphore: Semaphore
    const buffer: BufferStore.Store
    const watcher: Watcher.BufferWatcher
    const breaker: Breaker.ReconciliationCircuitBreaker
    const storage: Storage.SqliteStorage
    const cache: VectorCache.NamespaceVectorCache

    ghost predicate Ready()
      reads buffer, watcher, breaker, storage, cache
    {
      && Cosine.IsSqrt(sqrt)
      && buffer.Valid() && watcher.Valid() && breaker.Valid() && storage.Valid() && cache.Valid()
    }

    constructor (config: Config, sqrt: real -> real, width: nat, semaphore: Semaphore, buffer: BufferStore.Store,
                 watcher: Watcher.BufferWatcher, breaker: Breaker.ReconciliationCircuitBreaker,
                 storage: Storage.SqliteStorage, cache: VectorCache.NamespaceVectorCache)
      ensures this.config == config && this.sqrt == sqrt && this.width == width
      ensures this.semaphore == semaphore && this.buffer == buffer && this.watcher == watcher
      ensures this.breaker == breaker && this.storage == storage && this.cache == cache
    {
      this.config, this.sqrt, this.width := config, sqrt, width;
      this.semaphore, this.buffer, this.watcher := semaphore, buffer, watcher;
      this.breaker, this.storage, this.cache := breaker, storage, cache;
    }

    function ReconcilerConfig(projectId: string, namespace: string): Reconciler.Config {
      Reconciler.Config(namespace, projectId, config.intraBatchThreshold, config.neighborThreshold,
                        config.neighborPoolMaxSize)
    }

    /** The namespace of the buffered entries, which is that of the first. */
    ghost function NamespaceOf(projectId: string): string
      reads buffer
    {
      if buffer.Buffered(projectId) == [] then "" else buffer.Buffered(projectId)[0].namespace
    }

    /** The settings a run's reconciliation works with. */
    ghost function ConfigOf(projectId: string): Reconciler.Config
      reads buffer
    {
      ReconcilerConfig(projectId, NamespaceOf(projectId))
    }

    ghost predicate OpenAt(trace: seq<Breaker.Event>)
      reads breaker
    {
      Breaker.Tripped(Breaker.SinceClean(trace), Breaker.Limit(breaker.maxConsecutiveFailures))
    }

    /** Whether the next run of a project may use the judge. */
    ghost predicate Judging(projectId: string)
      reads breaker
    {
      config.reconciliationEnabled && !OpenAt(breaker.Trace(projectId))
    }

    /** The way a run takes from the present state. */
    ghost function RouteOf(projectId: string, script: Script): Route
      reads buffer, breaker, storage
    {
      if script.snapshotFault || !BufferStore.Safe(projectId) then Unread
      else if buffer.Buffered(projectId) == [] then Idle
      else Processing(script, Judging(projectId), storage.closed, storage.rows)
    }

    /** The run gets as far as candidates. */
    ghost predicate Extracted(projectId: string, script: Script)
      reads buffer
    {
      && !script.snapshotFault && BufferStore.Safe(projectId) && buffer.Buffered(projectId) != []
      && script.candidates.Some?
    }

    /** A judge is asked about candidates, when the setting allows it and the breaker is closed. */
    ghost predicate Asks(projectId: string, script: Script)
      reads buffer, breaker
    {
      && Extracted(projectId, script) && script.candidates.value != []
      && config.reconciliationEnabled && !OpenAt(breaker.Trace(projectId))
    }

    /** What a judged run needs: ids never used before, one namespace, one embedding width. */
    ghost predicate Prepared(projectId: string, namespace: string, script: Script)
      reads storage
    {
      && script.candidates.Some?
      && Reconciler.FreshBatch(ReconcilerConfig(projectId, namespace), script.candidates.value, script.summaryIds,
                               width,
                               storage.ever)
      && Reconciler.Admissible(script.env, script.summaryIds, width)
    }

    /** Every index the environment answers lists past records of the run's namespace. */
    ghost predicate Recalled(projectId: string, script: Script)
      reads buffer, storage
    {
      Reconciler.Recalls(script.env, storage.ever, NamespaceOf(projectId))
    }

    /** How every completed run ends: clear on success only, one report, then the breaker hears of it. */
    method Conclude(projectId: string, success: bool, anyJudgeFailure: bool, clearFault: bool)
      returns (report: Option<bool>)
      requires buffer.Valid() && watcher.Valid() && breaker.Valid() && BufferStore.Safe(projectId)
      modifies buffer`files, watcher, breaker
      ensures buffer.Valid() && watcher.Valid() && breaker.Valid()
      ensures report == if success && clearFault then None else Some(success)
      ensures buffer.files == if report == Some(true) then old(buffer.files) - {projectId} else old(buffer.files)
      ensures watcher.Trace(projectId) == old(watcher.Trace(projectId)) + Reports(report)
      ensures breaker.Trace(projectId) == old(breaker.Trace(projectId)) +
                if report.Some? then [Breaker.RunComplete(anyJudgeFailure)] else []
      ensures forall p :: p != projectId ==>
                watcher.Trace(p) == old(watcher.Trace(p)) && breaker.Trace(p) == old(breaker.Trace(p))
    {
      if success {
        if clearFault { return None; }
        var _ := buffer.Clear(projectId);
      }
      watcher.NotifyExtractionResult(projectId, success);
      breaker.OnRunComplete(projectId, anyJudgeFailure);
      report := Some(success);
    }

    /**
     * The legacy write sequence: record, invalidate, embedding, invalidate. It throws at the first refused candidate
     * and exactly then; the records before it stay, and nothing stale stays cached.
     */
    method DirectCommit(namespace: string, candidates: seq<CandidateMemory>, now: string, fault: Option<DirectFault>)
      returns (threw: bool, committed: nat)
      requires storage.Valid() && cache.Valid()
      modifies storage`rows, storage`fts, storage`ever, cache`cache, cache`totalBytes, cache`epochs
      ensures storage.Valid() && cache.Valid()
      ensures threw <==> Faults(storage.closed, old(storage.rows), candidates, fault)
      ensures committed <= |candidates| && (threw <==> committed < |candidates|)
      ensures threw ==> Refused(storage.closed, old(storage.rows), candidates, fault, committed)
      ensures forall k :: 0 <= k < committed ==> !Refused(storage.closed, old(storage.rows), candidates, fault, k)
      ensures Grown(old(storage.rows), storage.rows) && AllLanded(storage.rows, candidates, committed, now)
      ensures storage.rows.Keys <= old(storage.rows.Keys) + Ids(candidates)
      // An embedding that cannot be written leaves its record behind.
      ensures threw && !storage.closed && fault != Some(OnRecord(committed))
              && candidates[committed].recordId !in old(storage.rows) && !Repeated(candidates, committed) ==>
                HalfLanded(storage.rows, candidates[committed], now)
      ensures NothingStale(namespace, old(storage.rows), storage.rows, old(cache.cache), cache.cache)
      ensures Preserves(old(Commits.Now(storage)), Commits.Now(storage))
    {
      hide Storage.Indexed, Storage.FromHistory, Written, Refused, Faults, Landed, HalfLanded, Repeated;
      hide Grown, EvidenceSafe, Commits.Sound, NothingStale;
      hide VectorCache.CachedEntries, VectorCache.BytesOf;
      committed := 0;
      ghost var first, closed := Commits.Now(storage), storage.closed;
      NothingWritten(first, closed, candidates, fault, now);
      NotStaleYet(namespace, first.rows, cache.cache);
      while committed < |candidates|
        invariant 0 <= committed <= |candidates| && storage.Valid() && cache.Valid() && storage.closed == closed
        invariant Written(first, Commits.Now(storage), closed, candidates, fault, committed, now)
        invariant NothingStale(namespace, first.rows, storage.rows, old(cache.cache), cache.cache)
      {
        ghost var before := Commits.Now(storage);
        ghost var cached := cache.cache;
        WrittenNext(first, before, closed, candidates, fault, committed, now);
        var ok := CommitOne(namespace, candidates[committed], now, fault == Some(OnRecord(committed)),
                            fault == Some(OnEmbedding(committed)));
        StillNotStale(namespace, first.rows, before.rows, storage.rows, old(cache.cache), cached, cache.cache);
        if !ok {
          WrittenPart(first, before, Commits.Now(storage), closed, candidates, fault, committed, now);
          return true, committed;
        }
        WrittenOne(first, before, Commits.Now(storage), closed, candidates, fault, committed, now);
        committed := committed + 1;
      }
      WrittenAll(first, Commits.Now(storage), closed, candidates, fault, now);
      threw := false;
    }

    /** One candidate: its record, then its embedding; a failed embedding leaves the record behind. */
    method CommitOne(namespace: string, candidate: CandidateMemory, now: string, recordFault: bool,
                     embeddingFault: bool)
      returns (ok: bool)
      requires storage.Valid() && cache.Valid()
      modifies storage`rows, storage`fts, storage`ever, cache`cache, cache`totalBytes, cache`epochs
      ensures storage.Valid() && cache.Valid()
      ensures ok <==> !storage.closed && !recordFault && !(embeddingFault && candidate.embedding.Some?)
                      && candidate.recordId !in old(storage.rows)
      ensures Grown(old(storage.rows), storage.rows)
      ensures storage.rows.Keys <= old(storage.rows.Keys) + {candidate.recordId}
      ensures ok ==> Landed(storage.rows, candidate, now)
      ensures !ok && !storage.closed && !recordFault && candidate.recordId !in old(storage.rows) ==>
                HalfLanded(storage.rows, candidate, now)
      ensures ok ==> storage.rows.Keys == old(storage.rows.Keys) + {candidate.recordId}
      ensures NothingStale(namespace, old(storage.rows), storage.rows, old(cache.cache), cache.cache)
      ensures Preserves(old(Commits.Now(storage)), Commits.Now(storage))
    {
      hide Storage.Indexed, Storage.FromHistory, Preserves, Commits.Effect, Grown, Landed, HalfLanded;
      hide VectorCache.CachedEntries, VectorCache.BytesOf;
      ghost var before := Commits.Now(storage);
      Unmoved(before);
      GrownAlready(before.rows);
      if recordFault { return false; }
      var record := Commits.ToMemoryRecord(candidate, now);
      ok := PutRecord(namespace, record);
      if !ok { return false; }
      RecordLands(before.rows, storage.rows, candidate, now);
      if candidate.embedding.Some? {
        if embeddingFault { return false; }
        ghost var between := Commits.Now(storage);
        WithoutTwice(old(cache.cache), namespace);
        PutEmbedding(namespace, candidate.recordId, candidate.embedding.value);
        EmbeddingLands(before.rows, between.rows, storage.rows, candidate, now);
        SafeTwice(before, between, Commits.Now(storage));
      }
    }

    method PutRecord(namespace: string, record: MemoryRecord) returns (ok: bool)
      requires storage.Valid() && cache.Valid()
      modifies storage`rows, storage`fts, storage`ever, cache`cache, cache`totalBytes, cache`epochs
      ensures storage.Valid() && cache.Valid()
      ensures ok <==> !storage.closed && record.recordId !in old(storage.rows)
      ensures storage.rows ==
                if ok then old(storage.rows)[record.recordId := Storage.Row(record, None)] else old(storage.rows)
      ensures cache.cache == if ok then old(cache.cache) - {namespace} else old(cache.cache)
      ensures Preserves(old(Commits.Now(storage)), Commits.Now(storage))
      ensures ok && record.recordId !in old(storage.ever) ==>
                Commits.Effect(Commits.Land(record), old(Commits.Now(storage)), Commits.Now(storage))
    {
      hide Storage.Indexed, Storage.FromHistory, Preserves;
      ghost var before := Commits.Now(storage);
      Unmoved(before);
      ok := storage.PutMemoryRecord(record);
      if !ok { return false; }
      PutIsSafe(before, Commits.Now(storage), record);
      cache.Invalidate(namespace);
    }

    method PutEmbedding(namespace: string, id: string, vec: Vec)
      requires storage.Valid() && cache.Valid() && !storage.closed && id in storage.rows
      modifies storage`rows, storage`fts, storage`ever, cache`cache, cache`totalBytes, cache`epochs
      ensures storage.Valid() && cache.Valid()
      ensures storage.rows == old(storage.rows)[id := old(storage.rows)[id].(embedding := Some(vec))]
      ensures cache.cache == old(cache.cache) - {namespace}
      ensures Preserves(old(Commits.Now(storage)), Commits.Now(storage))
      ensures Commits.Effect(Commits.Attach(id, vec), old(Commits.Now(storage)), Commits.Now(storage))
    {
      hide Storage.Indexed, Storage.FromHistory, Commits.Sound, EvidenceSafe;
      ghost var before := Commits.Now(storage);
      var embed := [Storage.Embed(id, vec)];
      Commits.RunOne(Storage.Tables(storage.rows, storage.fts), embed[0]);
      var _ := storage.WithTransaction(embed, None);
      SameRecordsAreSafe(before, Commits.Now(storage));
      cache.Invalidate(namespace);
    }

    /** The end of a run no judge was asked in. */
    method ConcludeQuietly(projectId: string, clearFault: bool)
      returns (report: Option<bool>, ghost calls: seq<Breaker.Event>)
      requires buffer.Valid() && watcher.Valid() && breaker.Valid() && BufferStore.Safe(projectId)
      modifies buffer`files, watcher, breaker
      ensures buffer.Valid() && watcher.Valid() && breaker.Valid()
      ensures report == if clearFault then None else Some(true)
      ensures buffer.files == if report == Some(true) then old(buffer.files) - {projectId} else old(buffer.files)
      ensures watcher.Trace(projectId) == old(watcher.Trace(projectId)) + Reports(report)
      ensures breaker.Trace(projectId) == old(breaker.Trace(projectId)) + calls
      ensures calls == Completion(report, [])
      ensures forall p :: p != projectId ==>
                watcher.Trace(p) == old(watcher.Trace(p)) && breaker.Trace(p) == old(breaker.Trace(p))
    {
      report := Conclude(projectId, true, false, clearFault);
      calls := Completion(report, []);
    }

    /** Reconciles the batch; the run has failed when every cluster did. */
    method RunReconciliation(projectId: string, namespace: string, script: Script)
      returns (failed: bool, anyJudgeFailure: bool, ghost run: Reconciler.History)
      requires Ready() && Prepared(projectId, namespace, script) && script.candidates.value != []
      modifies breaker, storage`rows, storage`fts, storage`ever, cache`cache, cache`totalBytes, cache`epochs
      ensures Ready()
      ensures Stores(sqrt, ReconcilerConfig(projectId, namespace), Judged, script, run, old(Commits.Now(storage)),
                     Commits.Now(storage))
      ensures failed <==> AllFailed(run)
      ensures anyJudgeFailure <==> Breaker.Failure in Reconciler.LastSessions(run)
      ensures breaker.Trace(projectId) == old(breaker.Trace(projectId)) +
                Reconciler.Events(Reconciler.LastSessions(run))
      ensures forall p :: p != projectId ==> breaker.Trace(p) == old(breaker.Trace(p))
    {
      hide Storage.Indexed, Storage.FromHistory, Commits.Sound, Breaker.Describes, Breaker.Tripped, Breaker.SinceClean;
      hide Reconciler.StepOf, Reconciler.FreshBatch, Reconciler.Admissible, Reconciler.Recalls;
      hide Reconciler.Conserves, Reconciler.AnsweredBy, Reconciler.Batched;
      var cfg := ReconcilerConfig(projectId, namespace);
      var outcome;
      outcome, run := Reconciler.Reconcile(sqrt, cfg, script.candidates.value, script.env, script.summaryIds, width,
                                           storage, cache, breaker);
      Reconciler.CountersAddUp(sqrt, cfg, script.summaryIds, run, |run.batches|);
      assert LastCounts(run) == outcome.Totals();
      var anyCommitted := outcome.summaryRecordsCommitted > 0 || outcome.keepSeparateCommitted > 0;
      failed := outcome.clustersFailed > 0 && !anyCommitted;
      anyJudgeFailure := outcome.anyJudgeFailure;
    }

    /** The judged path: only a run in which every cluster failed is a failure. */
    method ReconcileAndConclude(projectId: string, namespace: string, script: Script)
      returns (report: Option<bool>, ghost calls: seq<Breaker.Event>, ghost run: Reconciler.History)
      requires Ready() && BufferStore.Safe(projectId) && Prepared(projectId, namespace, script)
      requires script.candidates.value != []
      modifies buffer`files, watcher, breaker, storage`rows, storage`fts, storage`ever
      modifies cache`cache, cache`totalBytes, cache`epochs
      ensures Ready()
      ensures watcher.Trace(projectId) == old(watcher.Trace(projectId)) + Reports(report)
      ensures buffer.files == if report == Some(true) then old(buffer.files) - {projectId} else old(buffer.files)
      ensures breaker.Trace(projectId) == old(breaker.Trace(projectId)) + calls
      ensures Ends(Judged, script, run, report, calls)
      ensures Stores(sqrt, ReconcilerConfig(projectId, namespace), Judged, script, run, old(Commits.Now(storage)),
                     Commits.Now(storage))
      ensures forall p :: p != projectId ==>
                watcher.Trace(p) == old(watcher.Trace(p)) && breaker.Trace(p) == old(breaker.Trace(p))
    {
      hide Storage.Indexed, Storage.FromHistory, Commits.Sound, EvidenceSafe;
      hide BufferStore.LineCodec, BufferStore.WholeLines;
      hide BufferStore.Entries, Watcher.Describes, Breaker.Describes, Breaker.Tripped, Breaker.SinceClean;
      hide Reconciler.IsRun, Reconciler.LastSessions, AllFailed, Prepared;
      var failed, anyJudgeFailure;
      failed, anyJudgeFailure, run := RunReconciliation(projectId, namespace, script);
      calls := Reconciler.Events(Reconciler.LastSessions(run));
      report := Conclude(projectId, !failed, anyJudgeFailure, script.clearFault);
      ghost var completion := Completion(report, Reconciler.LastSessions(run));
      BufferStore.Associates(old(breaker.Trace(projectId)), calls, completion);
      calls := calls + completion;
    }

    /** The direct path; with no candidates it commits nothing, which is the fast path. */
    method CommitAndConclude(projectId: string, namespace: string, candidates: seq<CandidateMemory>, script: Script)
      returns (report: Option<bool>, ghost calls: seq<Breaker.Event>)
      requires Ready() && BufferStore.Safe(projectId) && script.candidates == Some(candidates)
      modifies buffer`files, watcher, breaker, storage`rows, storage`fts, storage`ever
      modifies cache`cache, cache`totalBytes, cache`epochs
      ensures Ready()
      ensures watcher.Trace(projectId) == old(watcher.Trace(projectId)) + Reports(report)
      ensures buffer.files == if report == Some(true) then old(buffer.files) - {projectId} else old(buffer.files)
      ensures breaker.Trace(projectId) == old(breaker.Trace(projectId)) + calls
      ensures forall p :: p != projectId ==>
                watcher.Trace(p) == old(watcher.Trace(p)) && breaker.Trace(p) == old(breaker.Trace(p))
      ensures report.None? <==>
                Faults(storage.closed, old(storage.rows), candidates, script.directFault) || script.clearFault
      ensures report.Some? ==> report == Some(true)
      ensures calls == Completion(report, [])
      ensures CommitsDirectly(script, old(Commits.Now(storage)), Commits.Now(storage))
      ensures Preserves(old(Commits.Now(storage)), Commits.Now(storage))
    {
      hide Storage.Indexed, Storage.FromHistory, Commits.Sound, EvidenceSafe;
      hide BufferStore.LineCodec, BufferStore.WholeLines;
      hide BufferStore.Entries, Watcher.Describes, Breaker.Describes, Breaker.Tripped, Breaker.SinceClean;
      hide Grown, AllLanded, Ids, Refused, Faults, NothingStale, CommitsDirectly, VectorCache.CachedEntries;
      ghost var before := Commits.Now(storage);
      var threw, committed := DirectCommit(namespace, candidates, script.now, script.directFault);
      UpToRefusal(script, candidates, before, Commits.Now(storage), committed);
      if threw { return None, []; }
      report, calls := ConcludeQuietly(projectId, script.clearFault);
    }

    /** The run once the buffer was found non-empty: extraction, then the direct path or reconciliation. */
    method ProcessEntries(projectId: string, namespace: string, script: Script)
      returns (report: Option<bool>, ghost calls: seq<Breaker.Event>, ghost run: Reconciler.History)
      requires Ready() && BufferStore.Safe(projectId)
      requires Processing(script, Judging(projectId), storage.closed, storage.rows).Judged? ==>
                Prepared(projectId, namespace, script)
      modifies buffer`files, watcher, breaker, storage`rows, storage`fts, storage`ever
      modifies cache`cache, cache`totalBytes, cache`epochs
      ensures Ready()
      ensures watcher.Trace(projectId) == old(watcher.Trace(projectId)) + Reports(report)
      ensures buffer.files == if report == Some(true) then old(buffer.files) - {projectId} else old(buffer.files)
      ensures breaker.Trace(projectId) == old(breaker.Trace(projectId)) + calls
      ensures forall p :: p != projectId ==>
                watcher.Trace(p) == old(watcher.Trace(p)) && breaker.Trace(p) == old(breaker.Trace(p))
      ensures Ends(old(Processing(script, Judging(projectId), storage.closed, storage.rows)), script, run, report,
                   calls)
      ensures Stores(sqrt, ReconcilerConfig(projectId, namespace),
                     old(Processing(script, Judging(projectId), storage.closed, storage.rows)), script, run,
                     old(Commits.Now(storage)), Commits.Now(storage))
    {
      hide Storage.Indexed, Storage.FromHistory, Preserves, CommitsDirectly;
      hide BufferStore.LineCodec, BufferStore.WholeLines;
      hide BufferStore.Entries, Watcher.Describes, Breaker.Describes, Breaker.Tripped, Breaker.SinceClean;
      hide Faults, Reconciler.IsRun, Prepared, VectorCache.CachedEntries;
      calls, run := [], NO_RUN;
      var open := breaker.IsOpen(projectId);
      if script.candidates.None? {
        watcher.NotifyExtractionResult(projectId, false);
        return Some(false), calls, run;
      }
      var candidates := script.candidates.value;
      if |candidates| > 0 && config.reconciliationEnabled && !open {
        report, calls, run := ReconcileAndConclude(projectId, namespace, script);
      } else {
        report, calls := CommitAndConclude(projectId, namespace, candidates, script);
      }
    }

    /** Everything between acquiring the slot and releasing it. */
    method Body(projectId: string, script: Script)
      returns (report: Option<bool>, ghost calls: seq<Breaker.Event>, ghost run: Reconciler.History)
      requires Ready() && (RouteOf(projectId, script).Judged? ==> Prepared(projectId, NamespaceOf(projectId), script))
      modifies buffer`files, watcher, breaker, storage`rows, storage`fts, storage`ever
      modifies cache`cache, cache`totalBytes, cache`epochs
      ensures Ready()
      // A normal return reports exactly once, a throw never; the buffer is cleared exactly on a reported success.
      ensures watcher.Trace(projectId) == old(watcher.Trace(projectId)) + Reports(report)
      ensures buffer.files == if report == Some(true) then old(buffer.files) - {projectId} else old(buffer.files)
      ensures breaker.Trace(projectId) == old(breaker.Trace(projectId)) + calls
      ensures forall p :: p != projectId ==>
                watcher.Trace(p) == old(watcher.Trace(p)) && breaker.Trace(p) == old(breaker.Trace(p))
      ensures Ends(old(RouteOf(projectId, script)), script, run, report, calls)
      ensures Stores(sqrt, old(ConfigOf(projectId)), old(RouteOf(projectId, script)), script, run,
                     old(Commits.Now(storage)), Commits.Now(storage))
    {
      hide Storage.Indexed, Storage.FromHistory, Preserves, CommitsDirectly;
      hide BufferStore.LineCodec, BufferStore.WholeLines;
      hide BufferStore.Entries, Watcher.Describes, Breaker.Describes, Breaker.Tripped, Breaker.SinceClean;
      hide Faults, Reconciler.IsRun, Prepared;
      calls, run := [], NO_RUN;
      if script.snapshotFault { return None, calls, run; }
      var read := buffer.SnapshotWithSize(projectId);
      if read.Threw? { return None, calls, run; }
      if |read.value.entries| == 0 {
        report, calls := ConcludeQuietly(projectId, script.clearFault);
      } else {
        report, calls, run := ProcessEntries(projectId, read.value.entries[0].namespace, script);
      }
    }

    /** A run with its slot: whatever happens inside, the slot is released exactly once. */
    method DoRun(projectId: string, script: Script, ghost ticket: nat)
      returns (report: Option<bool>, ghost calls: seq<Breaker.Event>, ghost run: Reconciler.History, next: Option<nat>)
      requires Ready() && semaphore.Valid() && ticket in semaphore.holders
      requires RouteOf(projectId, script).Judged? ==> Prepared(projectId, NamespaceOf(projectId), script)
      modifies semaphore, buffer`files, watcher, breaker, storage`rows, storage`fts, storage`ever
      modifies cache`cache, cache`totalBytes, cache`epochs
      ensures Ready() && semaphore.Valid()
      ensures semaphore.holders == old(semaphore.holders) - {ticket} + if next.Some? then {next.value} else {}
      ensures next == if old(semaphore.waitQueue) == [] then None else Some(old(semaphore.waitQueue)[0])
      ensures watcher.Trace(projectId) == old(watcher.Trace(projectId)) + Reports(report)
      ensures breaker.Trace(projectId) == old(breaker.Trace(projectId)) + calls
      ensures buffer.files == if report == Some(true) then old(buffer.files) - {projectId} else old(buffer.files)
      ensures forall p :: p != projectId ==>
                watcher.Trace(p) == old(watcher.Trace(p)) && breaker.Trace(p) == old(breaker.Trace(p))
      // Report, breaker and store are those of the route taken, on the judged one of the reconciliation run there.
      ensures Ends(old(RouteOf(projectId, script)), script, run, report, calls)
      ensures Stores(sqrt, old(ConfigOf(projectId)), old(RouteOf(projectId, script)), script, run,
                     old(Commits.Now(storage)), Commits.Now(storage))
      // It reports exactly when it does not throw, and an extraction in flight ends, so that another may be fired,
      // exactly when it reported and the failures in a row stay below the limit.
      // With candidates, reconciliation switched on and the breaker closed, the candidates are reconciled.
      ensures old(Asks(projectId, script)) ==>
                Reconciler.IsRun(sqrt, Reconciler.Config(old(buffer.Buffered(projectId))[0].namespace, projectId,
                                                         config.intraBatchThreshold, config.neighborThreshold,
                                                         config.neighborPoolMaxSize),
                                 script.candidates.value, script.env, script.summaryIds, run,
                                 old(Commits.Now(storage)), Commits.Now(storage))
      // Otherwise no judge is asked: candidates are committed directly, and without any the store stays as it is.
      ensures !old(Asks(projectId, script)) ==> NoJudge(calls) && run == NO_RUN
      ensures !old(Asks(projectId, script)) && old(Extracted(projectId, script)) ==>
                && CommitsDirectly(script, old(Commits.Now(storage)), Commits.Now(storage))
                && (report.None? <==> script.clearFault || Faults(old(storage.closed), old(storage.rows),
                                                                  script.candidates.value, script.directFault))
      ensures !old(Extracted(projectId, script)) ==> Commits.Now(storage) == old(Commits.Now(storage))
      ensures !config.reconciliationEnabled ==> NoJudge(calls)
      ensures report.None? <==> Throws(old(RouteOf(projectId, script)), script, run)
      ensures old(Watcher.InFlight(watcher.Trace(projectId))) ==>
                (Watcher.MayFire(watcher.Trace(projectId), watcher.config.maxConsecutiveFailures) <==>
                 !Throws(old(RouteOf(projectId, script)), script, run) && (report == Some(true) ||
                 old(Watcher.Failures(watcher.Trace(projectId))) + 1 < watcher.config.maxConsecutiveFailures))
      // A run that starts with the breaker open asks no judge and, returning normally past extraction, closes it.
      ensures OpenAt(old(breaker.Trace(projectId))) ==> NoJudge(calls)
      ensures OpenAt(old(breaker.Trace(projectId))) && report.Some? && !old(RouteOf(projectId, script)).Unextracted? ==>
                !OpenAt(breaker.Trace(projectId))
      // No evidence is lost on any route, on the judged one in an environment that recalls the past.
      ensures old(RouteOf(projectId, script).Judged? ==> Recalled(projectId, script)) ==>
                Preserves(old(Commits.Now(storage)), Commits.Now(storage))
    {
      hide Storage.Indexed, Storage.FromHistory, Preserves, Stores, Recalled, ConfigOf, Asks, Extracted;
      hide Reconciler.IsRun, CommitsDirectly, Faults;
      hide BufferStore.LineCodec, BufferStore.WholeLines;
      hide BufferStore.Entries, Watcher.Describes, Watcher.MayFire, Watcher.InFlight;
      hide Watcher.Failures, Breaker.Describes;
      hide Breaker.Tripped, Breaker.SinceClean, Ends, RouteOf, NoJudge, Completes;
      hide Throws, NamespaceOf, Prepared, Reconciler.FreshBatch, Reconciler.Recalls;
      hide VectorCache.CachedEntries, VectorCache.BytesOf;
      ghost var route, trace, fired := RouteOf(projectId, script), breaker.Trace(projectId), watcher.Trace(projectId);
      ghost var before, cfg := Commits.Now(storage), ConfigOf(projectId);
      PreparedIsFresh(projectId, script);
      OpenSkipsJudge(projectId, script);
      RoutePlainly(projectId, script);
      report, calls, run := Body(projectId, script);
      RunMeans(route, script, run, report, calls, trace, breaker.maxConsecutiveFailures, fired,
               watcher.config.maxConsecutiveFailures);
      StoresKeepEvidence(sqrt, cfg, route, script, width, run, before, Commits.Now(storage));
      StoresPlainly(sqrt, cfg, route, script, run, before, Commits.Now(storage), report, calls);
      next := semaphore.Release(ticket);
    }

    lemma PreparedIsFresh(projectId: string, script: Script)
      requires RouteOf(projectId, script).Judged? ==> Prepared(projectId, NamespaceOf(projectId), script)
      ensures RouteOf(projectId, script).Judged? ==> script.candidates.Some?
      ensures RouteOf(projectId, script).Judged? ==>
                Reconciler.FreshBatch(ConfigOf(projectId), script.candidates.value, script.summaryIds, width,
                                      storage.ever)
      ensures Recalled(projectId, script) <==>
                Reconciler.Recalls(script.env, storage.ever, ConfigOf(projectId).namespace)
    {
    }

    lemma RoutePlainly(projectId: string, script: Script)
      ensures RouteOf(projectId, script).Judged? <==> Asks(projectId, script)
      ensures Asks(projectId, script) ==> Extracted(projectId, script) && config.reconciliationEnabled
      ensures RouteOf(projectId, script).Direct? <==> Extracted(projectId, script) && !Asks(projectId, script)
      ensures RouteOf(projectId, script).Direct? ==>
                RouteOf(projectId, script) == Direct(Faults(storage.closed, storage.rows, script.candidates.value,
                                                            script.directFault))
      ensures Extracted(projectId, script) ==>
                ConfigOf(projectId) ==
                Reconciler.Config(buffer.Buffered(projectId)[0].namespace, projectId, config.intraBatchThreshold,
                                  config.neighborThreshold, config.neighborPoolMaxSize)
    {
    }

    lemma OpenSkipsJudge(projectId: string, script: Script)
      ensures OpenAt(breaker.Trace(projectId)) ==> !RouteOf(projectId, script).Judged?
    {
    }
  }

  lemma StoresPlainly(sqrt: real -> real, cfg: Reconciler.Config, route: Route, script: Script,
                      run: Reconciler.History, before: Commits.Snapshot, after: Commits.Snapshot,
                      report: Option<bool>, calls: seq<Breaker.Event>)
    requires Cosine.IsSqrt(sqrt) && Stores(sqrt, cfg, route, script, run, before, after)
    requires Ends(route, script, run, report, calls)
    ensures route.Judged? ==>
              && script.candidates.Some?
              && Reconciler.IsRun(sqrt, cfg, script.candidates.value, script.env, script.summaryIds, run, before, after)
    ensures !route.Judged? ==> run == NO_RUN && NoJudge(calls)
    ensures route.Direct? ==> script.candidates.Some? && CommitsDirectly(script, before, after)
    ensures route.Direct? ==> (report.None? <==> script.clearFault || route.faults)
    ensures !route.Judged? && !route.Direct? ==> after == before
  {
    hide Reconciler.IsRun, CommitsDirectly;
  }

  lemma Unmoved(now: Commits.Snapshot)
    ensures Preserves(now, now)
  {
  }

  lemma UpToRefusal(script: Script, candidates: seq<CandidateMemory>, before: Commits.Snapshot, after: Commits.Snapshot,
                    committed: nat)
    requires script.candidates == Some(candidates) && committed <= |candidates|
    requires committed < |candidates| ==> Refused(before.closed, before.rows, candidates, script.directFault, committed)
    requires Grown(before.rows, after.rows) && after.rows.Keys <= before.rows.Keys + Ids(candidates)
    requires AllLanded(after.rows, candidates, committed, script.now)
    ensures CommitsDirectly(script, before, after)
  {
    hide Refused, Landed, Grown, Ids;
  }

  lemma SafeTwice(first: Commits.Snapshot, before: Commits.Snapshot, after: Commits.Snapshot)
    requires Preserves(first, before)
    requires Preserves(before, after)
    ensures Preserves(first, after)
  {
  }
}
