/** The reconciliation stage: cluster a batch, judge each cluster against its stored neighbours, commit the verdicts. */
module Reconciler {
  import opened MemoryTypes
  import opened Ordering
  import opened Cosine
  import opened Clustering
  import opened Storage
  import opened Search
  import opened MergeDecision
  import opened VectorCache
  import opened Commits
  import Breaker = CircuitBreaker

  datatype Config = Config(
    namespace: string,
    projectId: string,
    intraBatchThreshold: real,
    neighborThreshold: real,
    neighborPoolMaxSize: int)

  /** How one judge session ends. */
  datatype Attempt = Reply(response: JudgeResponse) | TimedOut | Unparsable

  /** What the outside world answers while one cluster is processed. */
  datatype World = World(
    index: Option<seq<Entry>>,
    first: Attempt,
    second: Attempt,
    summaryEmbedding: Option<Vec>,
    now: string,
    faultAt: Option<nat>)

  /**
   * The outside world of a whole run: its answers to cluster x, given the rows as they were at the start and after each
   * cluster so far. An index may be of any of these states, or older still.
   */
  type Environment = (nat, seq<map<string, Row>>) -> World

  // ---- invokeJudgeWithRetry ----

  /** The last reply, if there was one: only an unparsable first attempt earns a second. */
  ghost function Answer(w: World): Option<JudgeResponse> {
    var last := if w.first.Unparsable? then w.second else w.first;
    if last.Reply? then Some(last.response) else None
  }

  /** One outcome per session: failures, then at most one success that ends the sessions. */
  ghost function Outcomes(w: World): seq<Breaker.Outcome> {
    (if w.first.Unparsable? then [Breaker.Failure] else []) +
        [if Answer(w).Some? then Breaker.Success else Breaker.Failure]
  }

  method InvokeJudgeWithRetry(w: World) returns (response: Option<JudgeResponse>, outcomes: seq<Breaker.Outcome>)
    ensures response == Answer(w) && outcomes == Outcomes(w)
    ensures w.first.Reply? ==> response == Some(w.first.response) && outcomes == [Breaker.Success]
    // A timeout is terminal: no second session.
    ensures w.first.TimedOut? ==> response == None && outcomes == [Breaker.Failure]
    ensures w.first.Unparsable? && w.second.Reply? ==>
              response == Some(w.second.response) && outcomes == [Breaker.Failure, Breaker.Success]
    ensures w.first.Unparsable? && !w.second.Reply? ==>
              response == None && outcomes == [Breaker.Failure, Breaker.Failure]
  {
    outcomes := [];
    var attempt := 0;
    while attempt < 2
      invariant 0 <= attempt <= 2 && |outcomes| == attempt
      invariant attempt >= 1 ==> w.first.Unparsable? && outcomes[0] == Breaker.Failure
      invariant attempt == 2 ==> w.second.Unparsable? && outcomes[1] == Breaker.Failure
    {
      match if attempt == 0 then w.first else w.second {
        case Reply(r) => return Some(r), outcomes + [Breaker.Success];
        case TimedOut => return None, outcomes + [Breaker.Failure];
        case Unparsable => outcomes := outcomes + [Breaker.Failure];
      }
      attempt := attempt + 1;
    }
    response := None;
  }

  // ---- What one cluster does to the store ----

  /** A cluster's candidates and its centroid. */
  datatype Batch = Batch(group: seq<CandidateMemory>, centroid: Option<Vec>)

  datatype Ending = Direct | KeptSeparate | Collapsed(cited: seq<Cited>) | Failed

  /** The neighbours shown to the judge (none when it was not asked) and how the cluster ended. */
  datatype Verdict = Verdict(neighbors: seq<Neighbor>, ending: Ending)

  /** The entries are records of the namespace that were committed at some time. */
  ghost predicate FromPast(index: seq<Entry>, ever: map<string, MemoryRecord>, namespace: string) {
    forall i :: 0 <= i < |index| ==>
      && index[i].record.recordId in ever && ever[index[i].record.recordId] == index[i].record
      && index[i].record.namespace == namespace
  }

  /** The entries are records of the namespace as they are stored now. */
  ghost predicate Reflects(index: seq<Entry>, rows: map<string, Row>, namespace: string) {
    forall i :: 0 <= i < |index| ==>
      && index[i].record.recordId in rows && rows[index[i].record.recordId].record == index[i].record
      && index[i].record.namespace == namespace
  }

  /** The neighbours are the best of the indexed records near the centroid. */
  ghost predicate Pool(sqrt: real -> real, config: Config, centroid: Vec, index: seq<Entry>, neighbors: seq<Neighbor>)
    requires IsSqrt(sqrt)
  {
    && SameWidth(centroid, index)
    && IsTop(neighbors, Within(sqrt, index, centroid, config.neighborThreshold), config.neighborPoolMaxSize, Nearer)
  }

  /** What the judge's answer asks for, as far as it can be followed. */
  ghost predicate AsksToMerge(w: World, group: seq<CandidateMemory>, neighbors: seq<Neighbor>) {
    Answer(w).Some? && Answer(w).value.Merge?
    && !KnowsNone(Answer(w).value.decision.mergedRecordIds, group, neighbors)
  }

  /** What the store is like after the commit that ends a judged cluster. */
  ghost predicate EndsAs(config: Config, group: seq<CandidateMemory>, w: World, summaryId: string,
                         neighbors: seq<Neighbor>, before: Snapshot, after: Snapshot, ending: Ending)
  {
    match ending
    case Failed => after == before
    case Direct => AllKept(group, w.now, before, after)
    case KeptSeparate => !AsksToMerge(w, group, neighbors) && AllKept(group, w.now, before, after)
    case Collapsed(cited) =>
      && AsksToMerge(w, group, neighbors)
      && Merges(config.namespace, Answer(w).value.decision, group, neighbors, cited, summaryId, before, after)
      && after.rows[summaryId].embedding == w.summaryEmbedding && after.rows[summaryId].record.createdAt == w.now
  }

  /** Whether this cluster is compared with stored records at all. */
  predicate Looks(config: Config, batch: Batch) {
    batch.centroid.Some? && config.neighborPoolMaxSize > 0
  }

  /** What makes a cluster fail: an index that cannot be built, a closed store, a fault inside the transaction. */
  predicate Fails(config: Config, batch: Batch, w: World, closed: bool) {
    (Looks(config, batch) && w.index.None?) || closed || w.faultAt.Some?
  }

  ghost predicate Settles(sqrt: real -> real, config: Config, batch: Batch, w: World, summaryId: string,
                          before: Snapshot, after: Snapshot, verdict: Verdict)
    requires IsSqrt(sqrt)
  {
    // The pool holds the nearest indexed records, unless none is asked for or the index cannot be built.
    && (if Looks(config, batch) && w.index.Some?
        then Pool(sqrt, config, batch.centroid.value, w.index.value, verdict.neighbors) else verdict.neighbors == [])
    && (verdict.ending.Failed? <==> Fails(config, batch, w, before.closed))
    && after.closed == before.closed
    && (verdict.ending.Direct? ==> verdict.neighbors == [])
    && (verdict.ending.KeptSeparate? || verdict.ending.Collapsed? ==> verdict.neighbors != [])
    && EndsAs(config, batch.group, w, summaryId, verdict.neighbors, before, after, verdict.ending)
  }

  lemma SumCount<V>(m: map<string, V>, k: map<string, V>)
    requires m.Keys !! k.Keys
    ensures |m + k| == |m| + |k|
  {
    assert (m + k).Keys == m.Keys + k.Keys;
  }

  lemma KeepingCounts(group: seq<CandidateMemory>, now: string, before: Snapshot, after: Snapshot)
    requires FromHistory(before.rows, before.ever) && Unwritten(group, before.ever)
    requires AllKept(group, now, before, after)
    ensures |after.rows| == |before.rows| + |group| && |after.ever| == |before.ever| + |group|
  {
    KeptAreNew(group, now, before.ever);
    KeptCount(group, now);
    SumCount(before.rows, KeptRows(group, now));
    SumCount(before.ever, KeptRecords(group, now));
  }

  function Landed(group: seq<CandidateMemory>, verdict: Verdict): nat {
    if verdict.ending.Direct? || verdict.ending.KeptSeparate? then |group| else 0
  }

  function Written(verdict: Verdict): nat {
    if verdict.ending.Collapsed? then 1 else 0
  }

  function Removed(verdict: Verdict): nat {
    if verdict.ending.Collapsed? then |ToDelete(verdict.ending.cited)| else 0
  }

  /** The rows this cluster's deletions hit: cited neighbours that were still stored. */
  ghost function Vanished(before: Snapshot, verdict: Verdict): nat {
    if verdict.ending.Collapsed? then |Present(ToDelete(verdict.ending.cited), before.rows)| else 0
  }

  /** Every neighbour this cluster deletes is still there to delete. */
  ghost predicate Hits(before: Snapshot, verdict: Verdict) {
    verdict.ending.Collapsed? ==> forall id :: id in ToDelete(verdict.ending.cited) ==> id in before.rows
  }

  /** A cluster's commit as any other writer would see it. */
  ghost function CallOf(config: Config, batch: Batch, w: World, summaryId: string, verdict: Verdict): Call
    requires verdict.ending.Collapsed? ==> Answer(w).Some? && Answer(w).value.Merge?
  {
    match verdict.ending
    case Collapsed(cited) =>
      Collapse(config.namespace, Answer(w).value.decision, batch.group, verdict.neighbors, cited, summaryId)
    case _ => Keep(batch.group, w.now)
  }

  /** A cluster that does not fail makes exactly one commit of the kind every writer makes. */
  lemma SettlingIsCall(sqrt: real -> real, config: Config, batch: Batch, w: World, summaryId: string,
                       before: Snapshot, after: Snapshot, verdict: Verdict)
    requires IsSqrt(sqrt) && Unwritten(batch.group, before.ever) && summaryId !in before.ever
    requires Settles(sqrt, config, batch, w, summaryId, before, after, verdict)
    ensures verdict.ending.Failed? ==> after == before
    ensures verdict.ending.Collapsed? ==> Answer(w).Some? && Answer(w).value.Merge?
    ensures !verdict.ending.Failed? ==> Effect(CallOf(config, batch, w, summaryId, verdict), before, after)
  {
    hide Pool, Merges, AllKept, Unwritten, KnowsNone;
  }

  lemma {:induction false} WithinFromIndex(sqrt: real -> real, index: seq<Entry>, centroid: Vec, threshold: real)
    requires IsSqrt(sqrt) && SameWidth(centroid, index)
    ensures forall n :: n in Within(sqrt, index, centroid, threshold) ==>
              exists i :: 0 <= i < |index| && index[i].record == n.record
  {
    if index == [] {
    } else {
      var rest := index[..|index| - 1];
      WithinFromIndex(sqrt, rest, centroid, threshold);
      forall n | n in Within(sqrt, index, centroid, threshold)
        ensures exists i :: 0 <= i < |index| && index[i].record == n.record
      {
        if n in Within(sqrt, rest, centroid, threshold) {
          var i :| 0 <= i < |rest| && rest[i].record == n.record;
          assert index[i].record == n.record;
        } else {
          assert index[|index| - 1].record == n.record;
        }
      }
    }
  }

  lemma PoolFromIndex(sqrt: real -> real, config: Config, centroid: Vec, index: seq<Entry>, neighbors: seq<Neighbor>)
    requires IsSqrt(sqrt) && Pool(sqrt, config, centroid, index, neighbors)
    ensures forall n :: n in neighbors ==> exists i :: 0 <= i < |index| && index[i].record == n.record
  {
    var all := Within(sqrt, index, centroid, config.neighborThreshold);
    WithinFromIndex(sqrt, index, centroid, config.neighborThreshold);
    var rest :| Separates(neighbors, rest, all, Nearer);
    SameElements(neighbors + rest, all);
    forall n | n in neighbors ensures n in all {
      assert n in neighbors + rest;
    }
  }

  /** Neighbours drawn from an index of past records are past records. */
  lemma NeighborsAreKnown(sqrt: real -> real, config: Config, batch: Batch, w: World, summaryId: string,
                          before: Snapshot, after: Snapshot, verdict: Verdict)
    requires IsSqrt(sqrt) && Settles(sqrt, config, batch, w, summaryId, before, after, verdict)
    requires w.index.Some? ==> FromPast(w.index.value, before.ever, config.namespace)
    ensures Known(verdict.neighbors, before.ever, config.namespace)
  {
    if Looks(config, batch) && w.index.Some? {
      PoolFromIndex(sqrt, config, batch.centroid.value, w.index.value, verdict.neighbors);
    }
  }

  /** Whatever the judge and the store do, one cluster keeps all evidence, even if its neighbours are long gone. */
  lemma SettlingIsSound(sqrt: real -> real, config: Config, batch: Batch, w: World, summaryId: string,
                        before: Snapshot, after: Snapshot, verdict: Verdict)
    requires IsSqrt(sqrt) && Sound(before.rows, before.ever)
    requires Unwritten(batch.group, before.ever) && summaryId !in before.ever
    requires Settles(sqrt, config, batch, w, summaryId, before, after, verdict)
    requires w.index.Some? ==> FromPast(w.index.value, before.ever, config.namespace)
    ensures Sound(after.rows, after.ever) && Remembers(before.ever, after.ever)
    ensures forall event :: Evident(before.rows, event) ==> Evident(after.rows, event)
  {
    hide Settles, Sound, Effect, Known, Evident, FromPast;
    SettlingIsCall(sqrt, config, batch, w, summaryId, before, after, verdict);
    if !verdict.ending.Failed? {
      NeighborsAreKnown(sqrt, config, batch, w, summaryId, before, after, verdict);
      CallKeepsEvidence(CallOf(config, batch, w, summaryId, verdict), before, after);
    }
  }

  /** The cluster brings what this candidate vouches for: it was kept, or merged by a judge that cited it. */
  ghost predicate Brings(w: World, verdict: Verdict, c: CandidateMemory) {
    verdict.ending.Direct? || verdict.ending.KeptSeparate? || (verdict.ending.Collapsed? && CitesId(w, c.recordId))
  }

  ghost predicate BringsEvent(batch: Batch, w: World, verdict: Verdict, event: string) {
    exists c :: c in batch.group && Brings(w, verdict, c) && event in c.sourceEventIds
  }

  /** After a cluster exactly those events are evident that were before or that it brings. */
  lemma SettlingEvidence(sqrt: real -> real, config: Config, batch: Batch, w: World, summaryId: string,
                         before: Snapshot, after: Snapshot, verdict: Verdict, event: string)
    requires IsSqrt(sqrt) && Sound(before.rows, before.ever)
    requires Unwritten(batch.group, before.ever) && summaryId !in before.ever
    requires Settles(sqrt, config, batch, w, summaryId, before, after, verdict)
    requires w.index.Some? ==> FromPast(w.index.value, before.ever, config.namespace)
    ensures Evident(after.rows, event) <==>
            Evident(before.rows, event) || BringsEvent(batch, w, verdict, event)
  {
    NeighborsAreKnown(sqrt, config, batch, w, summaryId, before, after, verdict);
    hide Pool, EvidenceKept, Known, FromPast, Evident, Merges, AllKept, KnowsNone, DistinctGroup;
    match verdict.ending
    case Failed =>
    case Direct => KeptEvidence(batch.group, w.now, before, after, event);
    case KeptSeparate => KeptEvidence(batch.group, w.now, before, after, event);
    case Collapsed(cited) =>
      MergedEvidence(config.namespace, Answer(w).value.decision, batch.group, verdict.neighbors, cited, summaryId,
                     before, after, event);
  }

  /** A candidate whose cluster was kept has its record, as it was extracted. */
  lemma SettlingCarries(sqrt: real -> real, config: Config, batch: Batch, w: World, summaryId: string,
                        before: Snapshot, after: Snapshot, verdict: Verdict)
    requires IsSqrt(sqrt) && Unwritten(batch.group, before.ever)
    requires Settles(sqrt, config, batch, w, summaryId, before, after, verdict)
    ensures verdict.ending.Direct? || verdict.ending.KeptSeparate? ==>
              forall c :: c in batch.group ==> Carries(after.rows, c, w.now)
  {
    hide Pool, AllKept, Carries;
    if verdict.ending.Direct? || verdict.ending.KeptSeparate? { KeptCarries(batch.group, w.now, before, after); }
  }

  /** Rows and history move by exactly what one cluster kept, wrote and found to delete. */
  lemma SettlingCounts(sqrt: real -> real, config: Config, batch: Batch, w: World, summaryId: string,
                       before: Snapshot, after: Snapshot, verdict: Verdict)
    requires IsSqrt(sqrt) && FromHistory(before.rows, before.ever)
    requires Unwritten(batch.group, before.ever) && summaryId !in before.ever
    requires Settles(sqrt, config, batch, w, summaryId, before, after, verdict)
    ensures |after.rows| + Vanished(before, verdict) == |before.rows| + Landed(batch.group, verdict) + Written(verdict)
    ensures |after.ever| == |before.ever| + Landed(batch.group, verdict) + Written(verdict)
    ensures Vanished(before, verdict) <= Removed(verdict)
    ensures Vanished(before, verdict) == Removed(verdict) <==> Hits(before, verdict)
  {
    hide Pool, FromHistory, Unwritten, Merges, AllKept, Present, KnowsNone, ToDelete;
    match verdict.ending
    case Failed =>
    case Direct => KeepingCounts(batch.group, w.now, before, after);
    case KeptSeparate => KeepingCounts(batch.group, w.now, before, after);
    case Collapsed(cited) =>
      MergingCounts(config.namespace, Answer(w).value.decision, batch.group, verdict.neighbors, cited, summaryId,
                    before, after);
  }

  lemma MergingCounts(namespace: string, decision: JudgeMerge, group: seq<CandidateMemory>, neighbors: seq<Neighbor>,
                      cited: seq<Cited>, summaryId: string, before: Snapshot, after: Snapshot)
    requires summaryId !in before.ever
    requires Merges(namespace, decision, group, neighbors, cited, summaryId, before, after)
    ensures |after.rows| + |Present(ToDelete(cited), before.rows)| == |before.rows| + 1
    ensures |after.ever| == |before.ever| + 1
    ensures |Present(ToDelete(cited), before.rows)| <= |ToDelete(cited)|
    ensures |Present(ToDelete(cited), before.rows)| == |ToDelete(cited)| <==>
            forall id :: id in ToDelete(cited) ==> id in before.rows
  {
    hide Resolves, Cites, Summarises, Replaced, Ordered, ToDelete, Present;
    ToDeleteMeaning(cited);
    PresentCount(ToDelete(cited), before.rows);
    assert after.ever.Keys == before.ever.Keys + {summaryId};
  }

  /** The rows of every other namespace, untouched. */
  ghost predicate OthersSpared(namespace: string, before: map<string, Row>, after: map<string, Row>) {
    && (forall id :: id in before && before[id].record.namespace != namespace ==>
        id in after && after[id] == before[id])
    && (forall id :: id in after && after[id].record.namespace != namespace ==> id in before && after[id] == before[id])
  }

  ghost predicate CitesId(w: World, id: string) {
    Answer(w).Some? && Answer(w).value.Merge? && id in Answer(w).value.decision.mergedRecordIds
  }

  lemma KeepingIsLocal(namespace: string, group: seq<CandidateMemory>, now: string, before: Snapshot, after: Snapshot)
    requires FromHistory(before.rows, before.ever) && Unwritten(group, before.ever)
    requires AllKept(group, now, before, after)
    requires forall c :: c in group ==> c.namespace == namespace
    ensures OthersSpared(namespace, before.rows, after.rows)
    ensures forall id :: id in before.rows ==> id in after.rows
  {
    forall id ensures id in KeptRows(group, now) ==>
        id !in before.rows && KeptRows(group, now)[id].record.namespace == namespace {
      KeptMeaning(group, now, id);
      if IsMember(group, id) {
        var m :| 0 <= m < |group| && group[m].recordId == id
                 && KeptRows(group, now)[id] == Row(ToMemoryRecord(group[m], now), group[m].embedding);
        assert group[m] in group;
      }
    }
  }

  lemma MergingIsLocal(namespace: string, decision: JudgeMerge, group: seq<CandidateMemory>, neighbors: seq<Neighbor>,
                       cited: seq<Cited>, summaryId: string, before: Snapshot, after: Snapshot)
    requires FromHistory(before.rows, before.ever) && summaryId !in before.ever
    requires Known(neighbors, before.ever, namespace)
    requires Merges(namespace, decision, group, neighbors, cited, summaryId, before, after)
    ensures OthersSpared(namespace, before.rows, after.rows)
    ensures forall id :: id in before.rows && id !in after.rows ==> id in decision.mergedRecordIds
  {
    DeletedAreOwn(cited, decision.mergedRecordIds, group, neighbors, before.ever, namespace);
  }

  /** Only the run's own namespace changes, and in it only records the judge cited disappear. */
  lemma SettlingIsLocal(sqrt: real -> real, config: Config, batch: Batch, w: World, summaryId: string,
                        before: Snapshot, after: Snapshot, verdict: Verdict)
    requires IsSqrt(sqrt) && FromHistory(before.rows, before.ever)
    requires Unwritten(batch.group, before.ever) && summaryId !in before.ever
    requires Settles(sqrt, config, batch, w, summaryId, before, after, verdict)
    requires forall c :: c in batch.group ==> c.namespace == config.namespace
    requires w.index.Some? ==> FromPast(w.index.value, before.ever, config.namespace)
    ensures OthersSpared(config.namespace, before.rows, after.rows)
    ensures forall id :: id in before.rows && id !in after.rows ==> CitesId(w, id)
  {
    NeighborsAreKnown(sqrt, config, batch, w, summaryId, before, after, verdict);
    hide Pool, FromHistory, Known, FromPast, Unwritten, OthersSpared;
    match verdict.ending
    case Failed => SameRowsSpared(config.namespace, before.rows);
    case Direct => KeepingIsLocal(config.namespace, batch.group, w.now, before, after);
    case KeptSeparate => KeepingIsLocal(config.namespace, batch.group, w.now, before, after);
    case Collapsed(cited) =>
      MergingIsLocal(config.namespace, Answer(w).value.decision, batch.group, verdict.neighbors, cited, summaryId,
                     before, after);
  }

  lemma SameRowsSpared(namespace: string, rows: map<string, Row>)
    ensures OthersSpared(namespace, rows, rows)
  {
  }

  // ---- A whole run ----

  datatype Counts = Counts(
    summaryRecordsCommitted: nat,
    recordsDeleted: nat,
    keepSeparateCommitted: nat,
    judgeInvocations: nat,
    mergeDecisions: nat,
    keepSeparateDecisions: nat,
    clustersFailed: nat,
    anyJudgeFailure: bool)

  const NOTHING := Counts(0, 0, 0, 0, 0, 0, 0, false)

  /** The sessions this cluster cost: none unless it had neighbours. */
  ghost function Held(w: World, neighbors: seq<Neighbor>): seq<Breaker.Outcome> {
    if neighbors == [] then [] else Outcomes(w)
  }

  ghost function Sessions(w: World, verdict: Verdict): seq<Breaker.Outcome> {
    Held(w, verdict.neighbors)
  }

  /** How the counters move from c to d when one cluster costs these sessions and ends this way. */
  ghost predicate Counted(c: Counts, d: Counts, group: seq<CandidateMemory>, sessions: seq<Breaker.Outcome>,
                          verdict: Verdict) {
    && d.summaryRecordsCommitted == c.summaryRecordsCommitted + Written(verdict)
    && d.recordsDeleted == c.recordsDeleted + Removed(verdict)
    && d.keepSeparateCommitted == c.keepSeparateCommitted + Landed(group, verdict)
    && d.judgeInvocations == c.judgeInvocations + |sessions|
    && d.mergeDecisions == c.mergeDecisions + Written(verdict)
    && d.keepSeparateDecisions == c.keepSeparateDecisions + (if verdict.ending.KeptSeparate? then 1 else 0)
    && d.clustersFailed == c.clustersFailed + (if verdict.ending.Failed? then 1 else 0)
    && (d.anyJudgeFailure <==> c.anyJudgeFailure || Breaker.Failure in sessions)
  }

  /** Everything that happened: the clusters, the answers, and the store before, between and after. */
  datatype History = History(
    batches: seq<Batch>,
    worlds: seq<World>,
    states: seq<Snapshot>,
    verdicts: seq<Verdict>,
    counts: seq<Counts>,
    sessions: seq<seq<Breaker.Outcome>>)

  ghost predicate Runs(sqrt: real -> real, config: Config, summaryIds: nat -> string, run: History, n: nat)
    requires IsSqrt(sqrt)
  {
    && n <= |run.batches| && n <= |run.worlds| && n <= |run.verdicts| && n + 1 <= |run.states| && n + 1 <= |run.counts|
    && n + 1 <= |run.sessions| && run.counts[0] == NOTHING && run.sessions[0] == []
    && forall x: nat :: x < n ==> StepOf(sqrt, config, summaryIds(x), run, x)
  }

  ghost predicate StepOf(sqrt: real -> real, config: Config, summaryId: string, run: History, x: nat)
    requires IsSqrt(sqrt)
  {
    && x < |run.batches| && x < |run.worlds| && x < |run.verdicts|
    && x + 1 < |run.states| && x + 1 < |run.counts| && x + 1 < |run.sessions|
    && run.sessions[x + 1] == run.sessions[x] + Sessions(run.worlds[x], run.verdicts[x])
    && Counted(run.counts[x], run.counts[x + 1], run.batches[x].group, Sessions(run.worlds[x], run.verdicts[x]),
               run.verdicts[x])
    && Settles(sqrt, config, run.batches[x], run.worlds[x], summaryId, run.states[x], run.states[x + 1],
               run.verdicts[x])
  }

  ghost function Directly(run: History, n: nat): nat
    requires n <= |run.verdicts|
  {
    if n == 0 then 0 else Directly(run, n - 1) + if run.verdicts[n - 1].ending.Direct? then 1 else 0
  }

  /** Fresh ids all round: candidates and summaries never collide with each other or with the past. */
  ghost predicate FreshIds(batches: seq<Batch>, summaryIds: nat -> string, ever: map<string, MemoryRecord>) {
    && (forall x :: 0 <= x < |batches| ==> Unwritten(batches[x].group, ever))
    && (forall x, y, id :: 0 <= x < y < |batches| && IsMember(batches[x].group, id) ==> !IsMember(batches[y].group, id))
    && (forall x: nat :: summaryIds(x) !in ever)
    && (forall x: nat, y: nat :: x < y ==> summaryIds(x) != summaryIds(y))
    && (forall x: nat, y :: 0 <= y < |batches| ==> !IsMember(batches[y].group, summaryIds(x)))
  }

  /** All that is new in the history after the first n clusters. */
  ghost predicate OnlyFrom(batches: seq<Batch>, summaryIds: nat -> string, n: nat,
                           first: map<string, MemoryRecord>, ever: map<string, MemoryRecord>)
  {
    forall id :: id in ever ==> id in first || NewIn(batches, summaryIds, n, id)
  }

  ghost predicate NewIn(batches: seq<Batch>, summaryIds: nat -> string, n: nat, id: string) {
    exists x: nat :: x < n && x < |batches| && (summaryIds(x) == id || IsMember(batches[x].group, id))
  }

  lemma StillUnwritten(batches: seq<Batch>, summaryIds: nat -> string, n: nat,
                       first: map<string, MemoryRecord>, ever: map<string, MemoryRecord>)
    requires n < |batches| && FreshIds(batches, summaryIds, first) && OnlyFrom(batches, summaryIds, n, first, ever)
    ensures Unwritten(batches[n].group, ever) && summaryIds(n) !in ever
  {
    var group := batches[n].group;
    forall c | c in group ensures c.recordId !in ever {
      var m :| 0 <= m < |group| && group[m] == c;
      assert IsMember(group, c.recordId);
      assert Unwritten(group, first);
      assert !NewIn(batches, summaryIds, n, c.recordId);
    }
    assert !NewIn(batches, summaryIds, n, summaryIds(n));
  }

  lemma NewsGrow(batches: seq<Batch>, summaryIds: nat -> string, n: nat, id: string)
    requires n < |batches|
    requires (NewIn(batches, summaryIds, n, id) || id == summaryIds(n) || IsMember(batches[n].group, id))
    ensures NewIn(batches, summaryIds, n + 1, id)
  {
    if NewIn(batches, summaryIds, n, id) {
      var x: nat :| x < n && x < |batches| && (summaryIds(x) == id || IsMember(batches[x].group, id));
      assert x < n + 1;
    }
  }

  lemma StepNews(sqrt: real -> real, config: Config, summaryIds: nat -> string, run: History, x: nat, id: string)
    requires IsSqrt(sqrt) && Runs(sqrt, config, summaryIds, run, x + 1) && id in run.states[x + 1].ever
    ensures id in run.states[x].ever || id == summaryIds(x) || IsMember(run.batches[x].group, id)
  {
    assert StepOf(sqrt, config, summaryIds(x), run, x);
    SettledNews(sqrt, config, run.batches[x], run.worlds[x], summaryIds(x), run.states[x], run.states[x + 1],
                run.verdicts[x], id);
  }

  lemma {:induction false} RunIsFresh(sqrt: real -> real, config: Config, summaryIds: nat -> string, run: History,
                                      n: nat)
    requires IsSqrt(sqrt) && Runs(sqrt, config, summaryIds, run, n)
    ensures OnlyFrom(run.batches, summaryIds, n, run.states[0].ever, run.states[n].ever)
  {
    if n == 0 {
    } else {
      RunIsFresh(sqrt, config, summaryIds, run, n - 1);
      forall id | id in run.states[n].ever && id !in run.states[0].ever ensures NewIn(run.batches, summaryIds, n, id) {
        StepNews(sqrt, config, summaryIds, run, n - 1, id);
        NewsGrow(run.batches, summaryIds, n - 1, id);
      }
    }
  }

  lemma SettledNews(sqrt: real -> real, config: Config, batch: Batch, w: World, summaryId: string,
                    before: Snapshot, after: Snapshot, verdict: Verdict, id: string)
    requires IsSqrt(sqrt) && Settles(sqrt, config, batch, w, summaryId, before, after, verdict)
    requires id in after.ever
    ensures id in before.ever || id == summaryId || IsMember(batch.group, id)
  {
    KeptMeaning(batch.group, w.now, id);
  }

  /** Every index the run was answered lists records committed by then, current or stale. */
  ghost predicate InformedRun(config: Config, run: History, n: nat) {
    forall x: nat :: x < n && x < |run.worlds| && x < |run.states| && run.worlds[x].index.Some? ==>
      FromPast(run.worlds[x].index.value, run.states[x].ever, config.namespace)
  }

  /**
   * Evidence is conserved over any run: arbitrary judge answers, arbitrary failing commits, neighbours gone
   * meanwhile.
   */
  lemma {:induction false} RunKeepsEvidence(sqrt: real -> real, config: Config, summaryIds: nat -> string,
                                            run: History, n: nat)
    requires IsSqrt(sqrt) && Runs(sqrt, config, summaryIds, run, n) && InformedRun(config, run, n)
    requires FreshIds(run.batches, summaryIds, run.states[0].ever) && Sound(run.states[0].rows, run.states[0].ever)
    ensures Sound(run.states[n].rows, run.states[n].ever)
    ensures forall event :: Evident(run.states[0].rows, event) ==> Evident(run.states[n].rows, event)
  {
    hide Settles, Counted, Sound, Evident, FreshIds, Unwritten, OnlyFrom, FromPast;
    if n == 0 {
    } else {
      RunKeepsEvidence(sqrt, config, summaryIds, run, n - 1);
      RunIsFresh(sqrt, config, summaryIds, run, n - 1);
      StillUnwritten(run.batches, summaryIds, n - 1, run.states[0].ever, run.states[n - 1].ever);
      assert StepOf(sqrt, config, summaryIds(n - 1), run, n - 1);
      SettlingIsSound(sqrt, config, run.batches[n - 1], run.worlds[n - 1], summaryIds(n - 1), run.states[n - 1],
                      run.states[n], run.verdicts[n - 1]);
    }
  }

  /** Some cluster of the first n brings the event. */
  ghost predicate Brought(run: History, n: nat, event: string) {
    exists x: nat :: BroughtBy(run, n, event, x)
  }

  ghost predicate BroughtBy(run: History, n: nat, event: string, x: nat) {
    && x < n && x < |run.batches| && x < |run.worlds| && x < |run.verdicts|
    && BringsEvent(run.batches[x], run.worlds[x], run.verdicts[x], event)
  }

  lemma BroughtNext(run: History, n: nat, event: string)
    requires n < |run.batches| && n < |run.worlds| && n < |run.verdicts|
    ensures Brought(run, n + 1, event) <==>
            Brought(run, n, event) || BringsEvent(run.batches[n], run.worlds[n], run.verdicts[n], event)
  {
    if Brought(run, n, event) {
      var x: nat :| BroughtBy(run, n, event, x);
      assert BroughtBy(run, n + 1, event, x);
    }
    if BringsEvent(run.batches[n], run.worlds[n], run.verdicts[n], event) { assert BroughtBy(run, n + 1, event, n); }
    if Brought(run, n + 1, event) {
      var x: nat :| BroughtBy(run, n + 1, event, x);
      assert x < n ==> BroughtBy(run, n, event, x);
    }
  }

  /**
   * Evidence after a run is exactly what it was before and what the kept candidates and those a merging judge cited
   * vouch for.
   */
  lemma {:induction false} RunEvidence(sqrt: real -> real, config: Config, summaryIds: nat -> string, run: History,
                                       n: nat, event: string)
    requires IsSqrt(sqrt) && Runs(sqrt, config, summaryIds, run, n) && InformedRun(config, run, n)
    requires FreshIds(run.batches, summaryIds, run.states[0].ever) && Sound(run.states[0].rows, run.states[0].ever)
    ensures Evident(run.states[n].rows, event) <==> Evident(run.states[0].rows, event) || Brought(run, n, event)
  {
    hide Settles, Counted, Sound, Evident, FreshIds, Unwritten, OnlyFrom, FromPast, Brought, BringsEvent;
    if n == 0 {
      NothingBrought(run, event);
    } else {
      RunEvidence(sqrt, config, summaryIds, run, n - 1, event);
      RunKeepsEvidence(sqrt, config, summaryIds, run, n - 1);
      RunIsFresh(sqrt, config, summaryIds, run, n - 1);
      StillUnwritten(run.batches, summaryIds, n - 1, run.states[0].ever, run.states[n - 1].ever);
      assert StepOf(sqrt, config, summaryIds(n - 1), run, n - 1);
      SettlingEvidence(sqrt, config, run.batches[n - 1], run.worlds[n - 1], summaryIds(n - 1), run.states[n - 1],
                       run.states[n], run.verdicts[n - 1], event);
      BroughtNext(run, n - 1, event);
    }
  }

  lemma NothingBrought(run: History, event: string)
    ensures !Brought(run, 0, event)
  {
  }

  /** The records a namespace has listed so far are on record in the history. */
  ghost predicate OnRecord(listed: set<MemoryRecord>, ever: map<string, MemoryRecord>, namespace: string) {
    forall r :: r in listed ==> r.recordId in ever && ever[r.recordId] == r && r.namespace == namespace
  }

  /** Any index the vector cache ever answers, however stale, lists past records only. */
  lemma DrawnIsFromPast(index: seq<Entry>, listed: set<MemoryRecord>, past: map<string, MemoryRecord>,
                        ever: map<string, MemoryRecord>, namespace: string)
    requires Draws(index, listed) && OnRecord(listed, past, namespace) && Remembers(past, ever)
    ensures FromPast(index, ever, namespace)
  {
    forall i | 0 <= i < |index|
      ensures index[i].record.recordId in ever && ever[index[i].record.recordId] == index[i].record
      ensures index[i].record.namespace == namespace
    {
      assert index[i].record in listed;
    }
  }

  /** The index of a namespace with no write outstanding lists its rows as they are stored. */
  lemma AgreedReflects(normalize: Vec -> Vec, listing: seq<Row>, rows: map<string, Row>, namespace: string)
    requires forall row :: row in listing ==>
               row.record.recordId in rows && rows[row.record.recordId] == row && row.record.namespace == namespace
    ensures Reflects(FreshEntries(normalize, listing), rows, namespace)
  {
    var page, entries := ListRecords(listing), FreshEntries(normalize, listing);
    JoinFromPage(normalize, ListEmbeddings(listing), page);
    forall i | 0 <= i < |entries|
      ensures entries[i].record.recordId in rows && rows[entries[i].record.recordId].record == entries[i].record
      ensures entries[i].record.namespace == namespace
    {
      var j :| 0 <= j < |page| && page[j] == entries[i].record;
      assert listing[j] in listing;
    }
  }

  /** Every cluster was answered an index of the rows stored at that moment. */
  ghost predicate ReflectingRun(config: Config, run: History, n: nat) {
    forall x: nat :: x < n && x < |run.worlds| && x < |run.states| && run.worlds[x].index.Some? ==>
      Reflects(run.worlds[x].index.value, run.states[x].rows, config.namespace)
  }

  /** With no other writer at work, and so no stale index, the counts of a run balance. */
  lemma {:induction false} ReflectingRunBalances(sqrt: real -> real, config: Config, summaryIds: nat -> string,
                                                 run: History, n: nat)
    requires IsSqrt(sqrt) && Runs(sqrt, config, summaryIds, run, n) && ReflectingRun(config, run, n)
    requires FreshIds(run.batches, summaryIds, run.states[0].ever) && Sound(run.states[0].rows, run.states[0].ever)
    ensures InformedRun(config, run, n) && AllHit(run, n)
  {
    hide EvidenceKept, FreshIds, Settles, Counted, Reflects, FromPast, FromHistory, Hits;
    if n == 0 {
    } else {
      ReflectingRunBalances(sqrt, config, summaryIds, run, n - 1);
      RunKeepsEvidence(sqrt, config, summaryIds, run, n - 1);
      assert StepOf(sqrt, config, summaryIds(n - 1), run, n - 1);
      var w, before := run.worlds[n - 1], run.states[n - 1];
      if w.index.Some? { ReflectedIsPast(w.index.value, before.rows, before.ever, config.namespace); }
      ReflectedIsHit(sqrt, config, run.batches[n - 1], w, summaryIds(n - 1), before, run.states[n],
                     run.verdicts[n - 1]);
    }
  }

  lemma ReflectedIsPast(index: seq<Entry>, rows: map<string, Row>, ever: map<string, MemoryRecord>, namespace: string)
    requires Reflects(index, rows, namespace) && FromHistory(rows, ever)
    ensures FromPast(index, ever, namespace)
  {
  }

  lemma ReflectedIsHit(sqrt: real -> real, config: Config, batch: Batch, w: World, summaryId: string,
                       before: Snapshot, after: Snapshot, verdict: Verdict)
    requires IsSqrt(sqrt) && Settles(sqrt, config, batch, w, summaryId, before, after, verdict)
    requires w.index.Some? ==> Reflects(w.index.value, before.rows, config.namespace)
    ensures Hits(before, verdict)
  {
    if verdict.ending.Collapsed? {
      var cited := verdict.ending.cited;
      if Looks(config, batch) && w.index.Some? {
        PoolFromIndex(sqrt, config, batch.centroid.value, w.index.value, verdict.neighbors);
      }
      forall id | id in ToDelete(cited) ensures id in before.rows {
        var x, k := Deletion(cited, Answer(w).value.decision.mergedRecordIds, batch.group, verdict.neighbors, id);
        assert verdict.neighbors[k] in verdict.neighbors;
      }
    }
  }

  lemma StepBalances(sqrt: real -> real, config: Config, summaryIds: nat -> string, run: History, x: nat)
    requires IsSqrt(sqrt) && Runs(sqrt, config, summaryIds, run, x + 1) && InformedRun(config, run, x)
    requires FreshIds(run.batches, summaryIds, run.states[0].ever) && Sound(run.states[0].rows, run.states[0].ever)
    ensures var v, group := run.verdicts[x], run.batches[x].group;
            && |run.states[x + 1].rows| + Vanished(run.states[x], v)
               == |run.states[x].rows| + Landed(group, v) + Written(v)
            && |run.states[x + 1].ever| == |run.states[x].ever| + Landed(group, v) + Written(v)
            && Vanished(run.states[x], v) <= Removed(v)
            && (Vanished(run.states[x], v) == Removed(v) <==> Hits(run.states[x], v))
            && Counted(run.counts[x], run.counts[x + 1], group, Sessions(run.worlds[x], v), v)
  {
    hide Settles, Counted, FreshIds, Unwritten, OnlyFrom, FromPast, Hits, Vanished, Removed, EvidenceKept, FromHistory;
    RunKeepsEvidence(sqrt, config, summaryIds, run, x);
    RunIsFresh(sqrt, config, summaryIds, run, x);
    StillUnwritten(run.batches, summaryIds, x, run.states[0].ever, run.states[x].ever);
    assert StepOf(sqrt, config, summaryIds(x), run, x);
    SettlingCounts(sqrt, config, run.batches[x], run.worlds[x], summaryIds(x), run.states[x], run.states[x + 1],
                   run.verdicts[x]);
  }

  /** Every neighbour the first n clusters deleted was still stored. */
  ghost predicate AllHit(run: History, n: nat) {
    forall x: nat :: x < n && x < |run.verdicts| && x < |run.states| ==> Hits(run.states[x], run.verdicts[x])
  }

  /** What the reported counts say the store lost or gained too much. */
  ghost function Balance(run: History, n: nat): int
    requires n < |run.states| && n < |run.counts|
  {
    |run.states[n].rows| + run.counts[n].recordsDeleted
    - run.counts[n].keepSeparateCommitted - run.counts[n].summaryRecordsCommitted
  }

  /**
   * Stored before, plus kept, plus summaries, is stored after, plus deleted, exactly when every deletion found its row;
   * deletions of neighbours gone meanwhile are reported all the same. Every write was of a new id.
   */
  lemma {:induction false} RunBalances(sqrt: real -> real, config: Config, summaryIds: nat -> string, run: History,
                                       n: nat)
    requires IsSqrt(sqrt) && Runs(sqrt, config, summaryIds, run, n) && InformedRun(config, run, n)
    requires FreshIds(run.batches, summaryIds, run.states[0].ever) && Sound(run.states[0].rows, run.states[0].ever)
    ensures Balance(run, n) >= |run.states[0].rows|
    ensures Balance(run, n) == |run.states[0].rows| <==> AllHit(run, n)
    ensures |run.states[n].ever|
            == |run.states[0].ever| + run.counts[n].keepSeparateCommitted + run.counts[n].summaryRecordsCommitted
  {
    hide Sound, FreshIds, FromPast, Hits, Vanished, Landed, Written, Removed, Sessions;
    if n == 0 {
    } else {
      RunBalances(sqrt, config, summaryIds, run, n - 1);
      StepBalances(sqrt, config, summaryIds, run, n - 1);
      assert AllHit(run, n) <==> AllHit(run, n - 1) && Hits(run.states[n - 1], run.verdicts[n - 1]);
    }
  }

  ghost predicate InNamespace(batches: seq<Batch>, namespace: string) {
    forall x, c :: 0 <= x < |batches| && c in batches[x].group ==> c.namespace == namespace
  }

  lemma StepIsLocal(sqrt: real -> real, config: Config, summaryIds: nat -> string, run: History, x: nat)
    requires IsSqrt(sqrt) && Runs(sqrt, config, summaryIds, run, x + 1) && InNamespace(run.batches, config.namespace)
    requires InformedRun(config, run, x + 1)
    requires FreshIds(run.batches, summaryIds, run.states[0].ever) && Sound(run.states[0].rows, run.states[0].ever)
    ensures OthersSpared(config.namespace, run.states[x].rows, run.states[x + 1].rows)
    ensures forall id :: id in run.states[x].rows && id !in run.states[x + 1].rows ==> CitesId(run.worlds[x], id)
  {
    RunKeepsEvidence(sqrt, config, summaryIds, run, x);
    RunIsFresh(sqrt, config, summaryIds, run, x);
    StillUnwritten(run.batches, summaryIds, x, run.states[0].ever, run.states[x].ever);
    assert StepOf(sqrt, config, summaryIds(x), run, x);
    SettlingIsLocal(sqrt, config, run.batches[x], run.worlds[x], summaryIds(x), run.states[x], run.states[x + 1],
                    run.verdicts[x]);
  }

  /** Other namespaces are untouched, and nothing disappears that no judge cited. */
  lemma {:induction false} RunIsLocal(sqrt: real -> real, config: Config, summaryIds: nat -> string, run: History,
                                      n: nat)
    requires IsSqrt(sqrt) && Runs(sqrt, config, summaryIds, run, n) && InNamespace(run.batches, config.namespace)
    requires InformedRun(config, run, n)
    requires FreshIds(run.batches, summaryIds, run.states[0].ever) && Sound(run.states[0].rows, run.states[0].ever)
    ensures OthersSpared(config.namespace, run.states[0].rows, run.states[n].rows)
    ensures forall id :: id in run.states[0].rows && id !in run.states[n].rows ==>
              exists x: nat :: x < n && CitesId(run.worlds[x], id)
  {
    hide Settles, Counted, Sound, FreshIds, FromPast, InNamespace, CitesId;
    if n == 0 {
    } else {
      RunIsLocal(sqrt, config, summaryIds, run, n - 1);
      StepIsLocal(sqrt, config, summaryIds, run, n - 1);
      forall id | id in run.states[0].rows && id !in run.states[n].rows
        ensures exists x: nat :: x < n && CitesId(run.worlds[x], id)
      {
        if id in run.states[n - 1].rows { assert CitesId(run.worlds[n - 1], id); }
      }
    }
  }

  lemma SessionsPerCluster(sqrt: real -> real, config: Config, summaryIds: nat -> string, run: History, x: nat)
    requires IsSqrt(sqrt) && Runs(sqrt, config, summaryIds, run, x + 1)
    ensures var sessions, verdict := Sessions(run.worlds[x], run.verdicts[x]), run.verdicts[x];
            && |sessions| <= 2
            && (verdict.ending.Direct? ==> sessions == [])
            && (verdict.ending.KeptSeparate? || verdict.ending.Collapsed? ==> |sessions| >= 1)
            && Counted(run.counts[x], run.counts[x + 1], run.batches[x].group, sessions, verdict)
            && run.sessions[x + 1] == run.sessions[x] + sessions
  {
    assert StepOf(sqrt, config, summaryIds(x), run, x);
  }

  /** Every cluster ends exactly one way, and the judge counters agree with the sessions held. */
  lemma {:induction false} CountersAddUp(sqrt: real -> real, config: Config, summaryIds: nat -> string, run: History,
                                         n: nat)
    requires IsSqrt(sqrt) && Runs(sqrt, config, summaryIds, run, n)
    ensures var c := run.counts[n];
            && c.summaryRecordsCommitted == c.mergeDecisions
            && c.mergeDecisions + c.keepSeparateDecisions + c.clustersFailed + Directly(run, n) == n
            && c.judgeInvocations == |run.sessions[n]|
            && (c.anyJudgeFailure <==> Breaker.Failure in run.sessions[n])
            && c.mergeDecisions + c.keepSeparateDecisions <= c.judgeInvocations <= 2 * (n - Directly(run, n))
  {
    if n == 0 {
    } else {
      CountersAddUp(sqrt, config, summaryIds, run, n - 1);
      SessionsPerCluster(sqrt, config, summaryIds, run, n - 1);
    }
  }

  /** Nothing at all was committed exactly when every cluster failed. */
  lemma {:induction false} NothingCommitted(sqrt: real -> real, config: Config, summaryIds: nat -> string,
                                            run: History, n: nat)
    requires IsSqrt(sqrt) && Runs(sqrt, config, summaryIds, run, n)
    requires forall x: nat :: x < n ==> run.batches[x].group != []
    ensures run.counts[n].clustersFailed <= n
    ensures run.counts[n].summaryRecordsCommitted + run.counts[n].keepSeparateCommitted == 0 <==>
              run.counts[n].clustersFailed == n
  {
    if n == 0 {
    } else {
      NothingCommitted(sqrt, config, summaryIds, run, n - 1);
      SessionsPerCluster(sqrt, config, summaryIds, run, n - 1);
    }
  }

  // ---- reconcile ----

  class ReconciliationOutcome {
    var summaryRecordsCommitted: nat
    var recordsDeleted: nat
    var keepSeparateCommitted: nat
    var judgeInvocations: nat
    var mergeDecisions: nat
    var keepSeparateDecisions: nat
    var clustersFailed: nat
    var anyJudgeFailure: bool

    ghost function Totals(): Counts
      reads this
    {
      Counts(summaryRecordsCommitted, recordsDeleted, keepSeparateCommitted, judgeInvocations, mergeDecisions,
             keepSeparateDecisions, clustersFailed, anyJudgeFailure)
    }

    constructor ()
      ensures Totals() == NOTHING
    {
      summaryRecordsCommitted, recordsDeleted, keepSeparateCommitted, judgeInvocations := 0, 0, 0, 0;
      mergeDecisions, keepSeparateDecisions, clustersFailed, anyJudgeFailure := 0, 0, 0, false;
    }

    method CountSessions(sessions: seq<Breaker.Outcome>, anyFailed: bool)
      requires anyFailed <==> Breaker.Failure in sessions
      modifies this
      ensures Counted(old(Totals()), Totals(), [], sessions, UNDECIDED)
    {
      judgeInvocations := judgeInvocations + |sessions|;
      if anyFailed { anyJudgeFailure := true; }
    }

    method CountEnding(ghost group: seq<CandidateMemory>, ghost verdict: Verdict, ending: Ending, committed: nat,
                       deleted: nat)
      requires ending == verdict.ending && committed == Landed(group, verdict) && deleted == Removed(verdict)
      modifies this
      ensures Counted(old(Totals()), Totals(), group, [], verdict)
    {
      keepSeparateCommitted := keepSeparateCommitted + committed;
      recordsDeleted := recordsDeleted + deleted;
      match ending {
        case Direct =>
        case KeptSeparate => keepSeparateDecisions := keepSeparateDecisions + 1;
        case Collapsed(_) =>
          mergeDecisions := mergeDecisions + 1;
          summaryRecordsCommitted := summaryRecordsCommitted + 1;
        case Failed => clustersFailed := clustersFailed + 1;
      }
    }
  }

  lemma CountedBoth(c: Counts, d: Counts, e: Counts, group: seq<CandidateMemory>, sessions: seq<Breaker.Outcome>,
                    verdict: Verdict)
    requires Counted(c, d, [], sessions, UNDECIDED) && Counted(d, e, group, [], verdict)
    ensures Counted(c, e, group, sessions, verdict)
  {
  }

  /** A verdict that moves no counter but the sessions'. */
  const UNDECIDED := Verdict([], Direct)

  ghost function Events(outcomes: seq<Breaker.Outcome>): seq<Breaker.Event> {
    seq(|outcomes|, i requires 0 <= i < |outcomes| => Breaker.Recorded(outcomes[i]))
  }

  lemma EventsAppend(trace: seq<Breaker.Event>, a: seq<Breaker.Outcome>, b: seq<Breaker.Outcome>)
    ensures trace + Events(a) + Events(b) == trace + Events(a + b)
  {
  }

  lemma EventsSnoc(trace: seq<Breaker.Event>, outcomes: seq<Breaker.Outcome>, i: nat)
    requires i < |outcomes|
    ensures trace + Events(outcomes[..i]) + [Breaker.Recorded(outcomes[i])] == trace + Events(outcomes[..i + 1])
  {
    assert outcomes[..i + 1] == outcomes[..i] + [outcomes[i]];
  }

  /** The judge's outcomes reach the breaker one by one, before anything is committed. */
  method RecordOutcomes(breaker: Breaker.ReconciliationCircuitBreaker, projectId: string,
                        outcomes: seq<Breaker.Outcome>)
    returns (anyFailed: bool)
    requires breaker.Valid()
    modifies breaker
    ensures breaker.Valid()
    ensures breaker.Trace(projectId) == old(breaker.Trace(projectId)) + Events(outcomes)
    ensures forall p :: p != projectId ==> breaker.Trace(p) == old(breaker.Trace(p))
    ensures anyFailed <==> Breaker.Failure in outcomes
  {
    anyFailed := false;
    var i := 0;
    while i < |outcomes|
      invariant 0 <= i <= |outcomes|
      invariant breaker.Valid()
      invariant breaker.Trace(projectId) == old(breaker.Trace(projectId)) + Events(outcomes[..i])
      invariant forall p :: p != projectId ==> breaker.Trace(p) == old(breaker.Trace(p))
      invariant anyFailed <==> Breaker.Failure in outcomes[..i]
    {
      breaker.Record(projectId, outcomes[i]);
      EventsSnoc(old(breaker.Trace(projectId)), outcomes, i);
      assert outcomes[..i + 1] == outcomes[..i] + [outcomes[i]];
      if outcomes[i] == Breaker.Failure { anyFailed := true; }
      i := i + 1;
    }
    assert outcomes[..i] == outcomes;
  }

  /** Commit what the judge answered; no answer and no known citation both fall back to keeping the members. */
  method CommitAnswer(config: Config, group: seq<CandidateMemory>, w: World, summaryId: string,
                      neighbors: seq<Neighbor>, response: Option<JudgeResponse>,
                      store: SqliteStorage, cache: NamespaceVectorCache)
    returns (ending: Ending, committed: nat, deleted: nat)
    requires store.Valid() && cache.Valid() && Unwritten(group, store.ever) && summaryId !in store.ever
    requires group != []
    requires response == Answer(w) && !IsNeighbor(neighbors, summaryId)
    modifies store`rows, store`fts, store`ever, cache`cache, cache`totalBytes, cache`epochs
    ensures store.Valid() && cache.Valid()
    ensures EndsAs(config, group, w, summaryId, neighbors, old(Now(store)), Now(store), ending)
    ensures !ending.Direct?
    ensures committed == Landed(group, Verdict(neighbors, ending)) && deleted == Removed(Verdict(neighbors, ending))
    ensures !ending.Failed? ==> config.namespace !in cache.cache
    ensures ending.Failed? <==> store.closed || w.faultAt.Some?
  {
    committed, deleted := 0, 0;
    if response.Some? && response.value.Merge? {
      var result, cited :=
          CommitMerge(store, cache, config.namespace, response.value.decision, group, neighbors, summaryId,
                                       w.summaryEmbedding, w.now, w.faultAt);
      match result {
        case Merged(recordsDeleted) => return Collapsed(cited), 0, recordsDeleted;
        case Threw => return Failed, 0, 0;
        case FellBack =>
      }
    }
    var ok;
    ok, committed := CommitKeepSeparate(store, cache, config.namespace, group, w.now, w.faultAt);
    ending := if ok then KeptSeparate else Failed;
  }

  /** No index entry has the id of the summary to come. */
  ghost predicate Unlisted(index: Option<seq<Entry>>, summaryId: string) {
    index.Some? ==> forall i :: 0 <= i < |index.value| ==> index.value[i].record.recordId != summaryId
  }

  /** The nearest indexed records, when there is a centroid to look around and the index could be built. */
  method FindNeighbors(sqrt: real -> real, config: Config, batch: Batch, w: World, ghost summaryId: string)
    returns (threw: bool, neighbors: seq<Neighbor>)
    requires IsSqrt(sqrt) && Unlisted(w.index, summaryId)
    requires batch.centroid.Some? && w.index.Some? ==> SameWidth(batch.centroid.value, w.index.value)
    ensures threw <==> Looks(config, batch) && w.index.None?
    ensures if Looks(config, batch) && w.index.Some?
            then Pool(sqrt, config, batch.centroid.value, w.index.value, neighbors) else neighbors == []
    ensures !IsNeighbor(neighbors, summaryId)
    ensures forall n :: n in neighbors ==> n.similarity >= config.neighborThreshold
    ensures |neighbors| <= if config.neighborPoolMaxSize > 0 then config.neighborPoolMaxSize else 0
    ensures batch.centroid.Some? && w.index.Some? && |neighbors| < config.neighborPoolMaxSize ==>
              forall e :: e in w.index.value && |e.vec| == |batch.centroid.value| ==>
                CosineOf(sqrt, batch.centroid.value, e.vec) < config.neighborThreshold
                || exists n :: n in neighbors && n.record == e.record
  {
    if batch.centroid.None? || config.neighborPoolMaxSize <= 0 { return false, []; }
    if w.index.None? { return true, []; }
    threw := false;
    neighbors := LookupNeighbors(sqrt, w.index.value, batch.centroid.value, config.neighborThreshold,
                                 config.neighborPoolMaxSize);
    forall k | 0 <= k < |neighbors| ensures neighbors[k].record.recordId != summaryId {
      assert neighbors[k] in neighbors;
    }
    AllWithin(sqrt, w.index.value, batch.centroid.value, config.neighborThreshold);
  }

  lemma AllWithin(sqrt: real -> real, index: seq<Entry>, centroid: Vec, threshold: real)
    requires IsSqrt(sqrt) && SameWidth(centroid, index)
    ensures forall e :: e in index && |e.vec| == |centroid| ==>
              CosineOf(sqrt, centroid, e.vec) < threshold
              || exists n :: n in Within(sqrt, index, centroid, threshold) && n.record == e.record
  {
    hide IsSqrt, CosineOf, Within;
    forall e | e in index && |e.vec| == |centroid| && CosineOf(sqrt, centroid, e.vec) >= threshold
      ensures exists n :: n in Within(sqrt, index, centroid, threshold) && n.record == e.record
    {
      var i :| 0 <= i < |index| && index[i] == e;
      var n := Neighbor(index[i].record, CosineOf(sqrt, centroid, index[i].vec));
      WithinMeaning(sqrt, index, centroid, threshold, n);
    }
  }

  /** The judge is asked only about neighbours. */
  method AskJudge(config: Config, w: World, neighbors: seq<Neighbor>,
                  breaker: Breaker.ReconciliationCircuitBreaker, outcome: ReconciliationOutcome)
    returns (response: Option<JudgeResponse>)
    requires breaker.Valid()
    modifies breaker, outcome
    ensures breaker.Valid()
    ensures neighbors != [] ==> response == Answer(w)
    ensures Counted(old(outcome.Totals()), outcome.Totals(), [], Held(w, neighbors), UNDECIDED)
    ensures breaker.Trace(config.projectId) == old(breaker.Trace(config.projectId)) + Events(Held(w, neighbors))
    ensures forall p :: p != config.projectId ==> breaker.Trace(p) == old(breaker.Trace(p))
  {
    ghost var trace := breaker.Trace(config.projectId);
    assert trace + Events([]) == trace;
    if |neighbors| == 0 { return None; }
    var outcomes;
    response, outcomes := InvokeJudgeWithRetry(w);
    var anyFailed := RecordOutcomes(breaker, config.projectId, outcomes);
    outcome.CountSessions(outcomes, anyFailed);
  }

  /** The commit that fits what was found and answered. */
  method CommitBatch(config: Config, group: seq<CandidateMemory>, w: World, summaryId: string, threw: bool,
                     neighbors: seq<Neighbor>, response: Option<JudgeResponse>,
                     store: SqliteStorage, cache: NamespaceVectorCache)
    returns (ending: Ending, committed: nat, deleted: nat)
    requires store.Valid() && cache.Valid() && Unwritten(group, store.ever) && summaryId !in store.ever
    requires group != []
    requires neighbors != [] ==> response == Answer(w)
    requires !IsNeighbor(neighbors, summaryId)
    modifies store`rows, store`fts, store`ever, cache`cache, cache`totalBytes, cache`epochs
    ensures store.Valid() && cache.Valid()
    ensures EndsAs(config, group, w, summaryId, neighbors, old(Now(store)), Now(store), ending)
    ensures !ending.Failed? ==> !threw && (ending.Direct? <==> neighbors == [])
    ensures committed == Landed(group, Verdict(neighbors, ending)) && deleted == Removed(Verdict(neighbors, ending))
    ensures !ending.Failed? ==> config.namespace !in cache.cache
    ensures ending.Failed? <==> threw || store.closed || w.faultAt.Some?
  {
    if threw { return Failed, 0, 0; }
    if |neighbors| == 0 {
      var ok;
      ok, committed := CommitKeepSeparate(store, cache, config.namespace, group, w.now, w.faultAt);
      ending, deleted := if ok then Direct else Failed, 0;
    } else {
      ending, committed, deleted := CommitAnswer(config, group, w, summaryId, neighbors, response, store, cache);
    }
  }

  /** One cluster end to end; a throw anywhere in it is caught and counted, and the run goes on. */
  method ProcessCluster(sqrt: real -> real, config: Config, batch: Batch, w: World, summaryId: string,
                        store: SqliteStorage, cache: NamespaceVectorCache,
                        breaker: Breaker.ReconciliationCircuitBreaker, outcome: ReconciliationOutcome)
    returns (ghost verdict: Verdict)
    requires IsSqrt(sqrt)
    requires store.Valid() && cache.Valid() && breaker.Valid()
    requires batch.group != [] && Unwritten(batch.group, store.ever) && summaryId !in store.ever
    requires Unlisted(w.index, summaryId)
    requires batch.centroid.Some? && w.index.Some? ==> SameWidth(batch.centroid.value, w.index.value)
    modifies store`rows, store`fts, store`ever, cache`cache, cache`totalBytes, cache`epochs, breaker, outcome
    ensures store.Valid() && cache.Valid() && breaker.Valid()
    ensures Settles(sqrt, config, batch, w, summaryId, old(Now(store)), Now(store), verdict)
    ensures Counted(old(outcome.Totals()), outcome.Totals(), batch.group, Sessions(w, verdict), verdict)
    ensures breaker.Trace(config.projectId) == old(breaker.Trace(config.projectId)) + Events(Sessions(w, verdict))
    ensures forall p :: p != config.projectId ==> breaker.Trace(p) == old(breaker.Trace(p))
    ensures !verdict.ending.Failed? ==> config.namespace !in cache.cache
  {
    hide Pool, EndsAs, Counted, Unwritten, Breaker.Describes, Storage.Indexed, FromHistory;
    ghost var before := outcome.Totals();
    var threw, neighbors := FindNeighbors(sqrt, config, batch, w, summaryId);
    var response := AskJudge(config, w, neighbors, breaker, outcome);
    var ending, committed, deleted :=
        CommitBatch(config, batch.group, w, summaryId, threw, neighbors, response, store, cache);
    verdict := Verdict(neighbors, ending);
    ghost var between := outcome.Totals();
    outcome.CountEnding(batch.group, verdict, ending, committed, deleted);
    CountedBoth(before, between, outcome.Totals(), batch.group, Sessions(w, verdict), verdict);
  }

  // ---- From a batch of candidates to the run ----

  ghost predicate InRange(clusters: seq<Cluster>, n: nat) {
    forall x, k :: 0 <= x < |clusters| && 0 <= k < |clusters[x].members| ==> clusters[x].members[k] < n
  }

  ghost function Batches(candidates: seq<CandidateMemory>, clusters: seq<Cluster>): (batches: seq<Batch>)
    requires InRange(clusters, |candidates|)
    ensures |batches| == |clusters|
  {
    seq(|clusters|, x requires 0 <= x < |clusters| =>
        Batch(Group(candidates, clusters[x].members), clusters[x].centroid))
  }

  /** What the ingestion side guarantees of a batch: one namespace, one embedding width, ids never used before. */
  ghost predicate FreshBatch(config: Config, candidates: seq<CandidateMemory>, summaryIds: nat -> string, width: nat,
                             ever: map<string, MemoryRecord>) {
    && DistinctGroup(candidates)
    && (forall c :: c in candidates ==>
          c.recordId !in ever && c.namespace == config.namespace
              && (c.embedding.Some? ==> |c.embedding.value| == width))
    && (forall x: nat :: summaryIds(x) !in ever && !IsMember(candidates, summaryIds(x)))
    && (forall x: nat, y: nat :: x < y ==> summaryIds(x) != summaryIds(y))
  }

  lemma MemberIndex(candidates: seq<CandidateMemory>, clusters: seq<Cluster>, x: nat, id: string) returns (m: nat)
    requires Partition(clusters, |candidates|) && InRange(clusters, |candidates|) && x < |clusters|
    requires IsMember(Batches(candidates, clusters)[x].group, id)
    ensures InCluster(clusters, x, m) && m < |candidates| && candidates[m].recordId == id
  {
    var group := Batches(candidates, clusters)[x].group;
    var k :| 0 <= k < |group| && group[k].recordId == id;
    m := clusters[x].members[k];
  }

  lemma SameCluster(candidates: seq<CandidateMemory>, clusters: seq<Cluster>, x: nat, y: nat, id: string)
    requires Partition(clusters, |candidates|) && InRange(clusters, |candidates|) && x < |clusters| && y < |clusters|
    requires DistinctGroup(candidates)
    requires IsMember(Batches(candidates, clusters)[x].group, id)
    requires IsMember(Batches(candidates, clusters)[y].group, id)
    ensures x == y
  {
    var a := MemberIndex(candidates, clusters, x, id);
    var b := MemberIndex(candidates, clusters, y, id);
  }

  lemma BatchesAreFresh(config: Config, candidates: seq<CandidateMemory>, clusters: seq<Cluster>,
                        summaryIds: nat -> string, width: nat, ever: map<string, MemoryRecord>)
    requires Partition(clusters, |candidates|) && InRange(clusters, |candidates|)
    requires FreshBatch(config, candidates, summaryIds, width, ever)
    ensures FreshIds(Batches(candidates, clusters), summaryIds, ever)
    ensures InNamespace(Batches(candidates, clusters), config.namespace)
  {
    var batches := Batches(candidates, clusters);
    forall x | 0 <= x < |batches|
      ensures Unwritten(batches[x].group, ever)
      ensures forall c :: c in batches[x].group ==> c in candidates
    {
      var members := clusters[x].members;
      assert Ascending(members);
      forall c | c in batches[x].group ensures c in candidates {
        var k :| 0 <= k < |batches[x].group| && batches[x].group[k] == c;
        assert c == candidates[members[k]];
      }
    }
    forall x, y, id | 0 <= x < y < |batches| && IsMember(batches[x].group, id) ensures !IsMember(batches[y].group, id) {
      if IsMember(batches[y].group, id) { SameCluster(candidates, clusters, x, y, id); }
    }
    forall x: nat, y | 0 <= y < |batches| ensures !IsMember(batches[y].group, summaryIds(x)) {
      if IsMember(batches[y].group, summaryIds(x)) {
        var a := MemberIndex(candidates, clusters, y, summaryIds(x));
        assert IsMember(candidates, summaryIds(x));
      }
    }
  }

  lemma PartitionInRange(clusters: seq<Cluster>, n: nat)
    requires Partition(clusters, n)
    ensures InRange(clusters, n)
  {
    forall x, k | 0 <= x < |clusters| && 0 <= k < |clusters[x].members| ensures clusters[x].members[k] < n {
      assert InCluster(clusters, x, clusters[x].members[k]);
    }
  }

  lemma CentroidWidth(sqrt: real -> real, config: Config, candidates: seq<CandidateMemory>, members: seq<nat>,
                      summaryIds: nat -> string, width: nat, ever: map<string, MemoryRecord>)
    requires IsSqrt(sqrt) && OneWidth(candidates) && members != []
    requires FreshBatch(config, candidates, summaryIds, width, ever)
    requires forall k :: 0 <= k < |members| ==> members[k] < |candidates|
    ensures CentroidOf(sqrt, candidates, members).Some? ==> |CentroidOf(sqrt, candidates, members).value| == width
  {
    assert candidates[members[0]] in candidates;
  }

  lemma WidthIsOne(config: Config, candidates: seq<CandidateMemory>, summaryIds: nat -> string, width: nat,
                   ever: map<string, MemoryRecord>)
    requires FreshBatch(config, candidates, summaryIds, width, ever)
    ensures OneWidth(candidates)
  {
    forall i | 0 <= i < |candidates| && candidates[i].embedding.Some? ensures |candidates[i].embedding.value| == width {
      assert candidates[i] in candidates;
    }
  }

  lemma RecalledIsPast(env: Environment, first: map<string, MemoryRecord>, ever: map<string, MemoryRecord>,
                       states: seq<Snapshot>, x: nat, namespace: string)
    requires Recalls(env, first, namespace) && Remembers(first, ever)
    requires forall j :: 0 <= j < |states| ==> FromHistory(states[j].rows, ever)
    requires states != [] && env(x, RowsOf(states)).index.Some?
    ensures FromPast(env(x, RowsOf(states)).index.value, ever, namespace)
  {
    var past := RowsOf(states);
    var index := env(x, past).index.value;
    forall i | 0 <= i < |index|
      ensures index[i].record.recordId in ever && ever[index[i].record.recordId] == index[i].record
      ensures index[i].record.namespace == namespace
    {
      var r := index[i].record;
      assert Recalled(r, first, past, namespace);
      if !(r.recordId in first && first[r.recordId] == r) {
        var j :| 0 <= j < |past| && r.recordId in past[j] && past[j][r.recordId].record == r;
        assert FromHistory(states[j].rows, ever);
      }
    }
  }

  lemma StillFromHistory(rows: map<string, Row>, ever: map<string, MemoryRecord>, more: map<string, MemoryRecord>)
    requires FromHistory(rows, ever) && Remembers(ever, more)
    ensures FromHistory(rows, more)
  {
  }

  /** An environment that recalls the past informs every cluster of a run, whatever was committed on the way. */
  lemma {:induction false} EnvironmentInforms(sqrt: real -> real, config: Config, summaryIds: nat -> string,
                                              env: Environment, run: History, n: nat)
    requires IsSqrt(sqrt) && Runs(sqrt, config, summaryIds, run, n) && AnsweredBy(env, run, n)
    requires FreshIds(run.batches, summaryIds, run.states[0].ever) && Sound(run.states[0].rows, run.states[0].ever)
    requires Recalls(env, run.states[0].ever, config.namespace)
    ensures InformedRun(config, run, n) && Remembers(run.states[0].ever, run.states[n].ever)
    ensures forall j :: 0 <= j <= n ==> FromHistory(run.states[j].rows, run.states[n].ever)
  {
    hide Settles, Counted, EvidenceKept, FromHistory, FreshIds, Unwritten, OnlyFrom, FromPast, Recalls, Remembers;
    if n == 0 {
      RemembersItself(run.states[0].ever);
    } else {
      var w, before, after := run.worlds[n - 1], run.states[n - 1], run.states[n];
      EnvironmentInforms(sqrt, config, summaryIds, env, run, n - 1);
      RunKeepsEvidence(sqrt, config, summaryIds, run, n - 1);
      if w.index.Some? {
        RecalledIsPast(env, run.states[0].ever, before.ever, run.states[..n], n - 1, config.namespace);
      }
      RunIsFresh(sqrt, config, summaryIds, run, n - 1);
      StillUnwritten(run.batches, summaryIds, n - 1, run.states[0].ever, before.ever);
      assert StepOf(sqrt, config, summaryIds(n - 1), run, n - 1);
      SettlingIsSound(sqrt, config, run.batches[n - 1], w, summaryIds(n - 1), before, after, run.verdicts[n - 1]);
      RemembersOn(run.states[0].ever, before.ever, after.ever);
      forall j | 0 <= j <= n ensures FromHistory(run.states[j].rows, after.ever) {
        if j < n { StillFromHistory(run.states[j].rows, before.ever, after.ever); }
      }
    }
  }

  lemma RemembersItself(ever: map<string, MemoryRecord>)
    ensures Remembers(ever, ever)
  {
  }

  lemma RemembersOn(first: map<string, MemoryRecord>, ever: map<string, MemoryRecord>, more: map<string, MemoryRecord>)
    requires Remembers(first, ever) && Remembers(ever, more)
    ensures Remembers(first, more)
  {
  }

  /** One more cluster on a run. */
  lemma Extends(sqrt: real -> real, config: Config, summaryIds: nat -> string, run: History, more: History, n: nat)
    requires IsSqrt(sqrt) && Runs(sqrt, config, summaryIds, run, n)
    requires |run.worlds| == |run.verdicts| == n && |run.states| == |run.counts| == |run.sessions| == n + 1
    requires more.batches == run.batches && n < |run.batches|
    requires |more.worlds| == |more.verdicts| == n + 1 && |more.states| == |more.counts| == |more.sessions| == n + 2
    requires more.worlds[..n] == run.worlds && more.verdicts[..n] == run.verdicts
    requires more.states[..n + 1] == run.states && more.counts[..n + 1] == run.counts
    requires more.sessions[..n + 1] == run.sessions
    requires StepOf(sqrt, config, summaryIds(n), more, n)
    ensures Runs(sqrt, config, summaryIds, more, n + 1)
  {
    hide Settles, Counted;
    forall x: nat | x < n + 1 ensures StepOf(sqrt, config, summaryIds(x), more, x) {
      if x < n {
        assert StepOf(sqrt, config, summaryIds(x), run, x);
        assert more.worlds[x] == more.worlds[..n][x] && more.verdicts[x] == more.verdicts[..n][x];
        assert more.states[x] == more.states[..n + 1][x] && more.states[x + 1] == more.states[..n + 1][x + 1];
        assert more.sessions[x] == more.sessions[..n + 1][x] && more.sessions[x + 1] == more.sessions[..n + 1][x + 1];
        assert more.counts[x] == more.counts[..n + 1][x] && more.counts[x + 1] == more.counts[..n + 1][x + 1];
      }
    }
    assert more.counts[0] == more.counts[..n + 1][0];
    assert more.sessions[0] == more.sessions[..n + 1][0];
  }

  lemma AnsweredExtends(env: Environment, run: History, more: History, n: nat)
    requires |run.worlds| == n && |run.states| == n + 1 && AnsweredBy(env, run, n)
    requires |more.worlds| == n + 1 && |more.states| == n + 2
    requires more.worlds[..n] == run.worlds && more.states[..n + 1] == run.states
    requires more.worlds[n] == env(n, RowsOf(run.states))
    ensures AnsweredBy(env, more, n + 1)
  {
    forall x: nat | x < n + 1 ensures more.worlds[x] == env(x, RowsOf(more.states[..x + 1])) {
      assert more.states[..x + 1] == run.states[..x + 1];
      if x < n {
        assert more.worlds[x] == more.worlds[..n][x];
      } else {
        assert run.states[..n + 1] == run.states;
      }
    }
  }

  ghost predicate OfWidth(index: seq<Entry>, width: nat) {
    forall i :: 0 <= i < |index| ==> |index[i].vec| == width
  }

  /** Whatever index a cluster is answered: one vector width, and summary ids are drawn fresh. */
  ghost predicate Admissible(env: Environment, summaryIds: nat -> string, width: nat) {
    forall x: nat, past: seq<map<string, Row>> ::
      && Unlisted(env(x, past).index, summaryIds(x))
      && (env(x, past).index.Some? ==> OfWidth(env(x, past).index.value, width))
  }

  ghost function RowsOf(states: seq<Snapshot>): (past: seq<map<string, Row>>)
    ensures |past| == |states|
  {
    seq(|states|, i requires 0 <= i < |states| => states[i].rows)
  }

  /** The first n clusters were answered by this environment. */
  ghost predicate AnsweredBy(env: Environment, run: History, n: nat) {
    forall x: nat :: x < n ==>
      x < |run.worlds| && x < |run.states| && run.worlds[x] == env(x, RowsOf(run.states[..x + 1]))
  }

  /** The record was committed before the run began, or stored at some time during the run. */
  ghost predicate Recalled(r: MemoryRecord, ever: map<string, MemoryRecord>, past: seq<map<string, Row>>,
                           namespace: string)
  {
    && r.namespace == namespace
    && ((r.recordId in ever && ever[r.recordId] == r)
        || exists j :: 0 <= j < |past| && r.recordId in past[j] && past[j][r.recordId].record == r)
  }

  /** Every index answered lists records of the namespace committed by then, current or stale. */
  ghost predicate Recalls(env: Environment, ever: map<string, MemoryRecord>, namespace: string) {
    forall x: nat, past: seq<map<string, Row>>, i ::
      past != [] && env(x, past).index.Some? && 0 <= i < |env(x, past).index.value| ==>
        Recalled(env(x, past).index.value[i].record, ever, past, namespace)
  }

  /** Every index answered lists the rows as they are at that moment. */
  ghost predicate Current(env: Environment, namespace: string) {
    forall x: nat, past: seq<map<string, Row>> ::
      past != [] && env(x, past).index.Some? ==> Reflects(env(x, past).index.value, past[|past| - 1], namespace)
  }

  /** All judge outcomes of the run so far. */
  ghost function LastSessions(run: History): seq<Breaker.Outcome> {
    if run.sessions == [] then [] else run.sessions[|run.sessions| - 1]
  }

  /** The loop body: cluster x of the batch, with its answers drawn from the store as it stands. */
  method Advance(sqrt: real -> real, config: Config, batch: Batch, env: Environment,
                 summaryIds: nat -> string, ghost width: nat, ghost run: History, x: nat, past: seq<map<string, Row>>,
                 store: SqliteStorage, cache: NamespaceVectorCache, breaker: Breaker.ReconciliationCircuitBreaker,
                 outcome: ReconciliationOutcome, ghost trace: seq<Breaker.Event>)
    returns (ghost more: History)
    requires IsSqrt(sqrt) && Admissible(env, summaryIds, width)
    requires breaker.Trace(config.projectId) == trace + Events(LastSessions(run))
    requires store.Valid() && cache.Valid() && breaker.Valid()
    requires x < |run.batches| && batch == run.batches[x] && batch.group != [] && Wide(batch, width)
    requires past == RowsOf(run.states) && AnsweredBy(env, run, x)
    requires Runs(sqrt, config, summaryIds, run, x) && FreshIds(run.batches, summaryIds, run.states[0].ever)
    requires |run.worlds| == |run.verdicts| == x && |run.states| == |run.counts| == |run.sessions| == x + 1
    requires run.states[x] == Now(store) && run.counts[x] == outcome.Totals()
    modifies store`rows, store`fts, store`ever, cache`cache, cache`totalBytes, cache`epochs, breaker, outcome
    ensures store.Valid() && cache.Valid() && breaker.Valid()
    ensures |more.worlds| == |more.verdicts| == x + 1 && |more.states| == |more.counts| == |more.sessions| == x + 2
    ensures more.batches == run.batches && Runs(sqrt, config, summaryIds, more, x + 1)
    ensures more.states == run.states + [Now(store)] && AnsweredBy(env, more, x + 1)
    ensures more.counts[x + 1] == outcome.Totals()
    ensures breaker.Trace(config.projectId) == trace + Events(LastSessions(more))
    ensures forall p :: p != config.projectId ==> breaker.Trace(p) == old(breaker.Trace(p))
  {
    hide Settles, Counted, FreshIds, OnlyFrom, Unwritten, Sessions, Storage.Indexed, FromHistory, Breaker.Describes;
    RunIsFresh(sqrt, config, summaryIds, run, x);
    StillUnwritten(run.batches, summaryIds, x, run.states[0].ever, store.ever);
    var w := env(x, past);
    ghost var verdict := ProcessCluster(sqrt, config, batch, w, summaryIds(x), store, cache, breaker, outcome);
    more := Extended(run, w, Now(store), verdict, outcome.Totals(), run.sessions[x] + Sessions(w, verdict));
    Extends(sqrt, config, summaryIds, run, more, x);
    AnsweredExtends(env, run, more, x);
    assert LastSessions(more) == LastSessions(run) + Sessions(w, verdict);
    EventsAppend(trace, LastSessions(run), Sessions(w, verdict));
  }

  ghost function Extended(run: History, w: World, after: Snapshot, verdict: Verdict, counts: Counts,
                          sessions: seq<Breaker.Outcome>): History {
    History(run.batches, run.worlds + [w], run.states + [after], run.verdicts + [verdict], run.counts + [counts],
            run.sessions + [sessions])
  }

  method GroupClusters(candidates: seq<CandidateMemory>, clusters: seq<Cluster>) returns (batches: seq<Batch>)
    requires InRange(clusters, |candidates|)
    ensures batches == Batches(candidates, clusters)
  {
    batches := [];
    for x := 0 to |clusters|
      invariant |batches| == x
      invariant forall y :: 0 <= y < x ==> batches[y] == Batches(candidates, clusters)[y]
    {
      var group := MembersOfCluster(candidates, clusters[x].members);
      batches := batches + [Batch(group, clusters[x].centroid)];
    }
  }

  ghost predicate Wide(batch: Batch, width: nat) {
    batch.centroid.Some? ==> |batch.centroid.value| == width
  }

  /** Every cluster is attempted in order, whatever happened to the ones before it. */
  method ProcessClusters(sqrt: real -> real, config: Config, batches: seq<Batch>,
                         env: Environment, summaryIds: nat -> string, ghost width: nat,
                         store: SqliteStorage, cache: NamespaceVectorCache,
                         breaker: Breaker.ReconciliationCircuitBreaker,
                         outcome: ReconciliationOutcome)
    returns (ghost run: History)
    requires IsSqrt(sqrt) && Admissible(env, summaryIds, width)
    requires store.Valid() && cache.Valid() && breaker.Valid() && outcome.Totals() == NOTHING
    requires FreshIds(batches, summaryIds, store.ever)
    requires forall batch :: batch in batches ==> batch.group != [] && Wide(batch, width)
    modifies store`rows, store`fts, store`ever, cache`cache, cache`totalBytes, cache`epochs, breaker, outcome
    ensures store.Valid() && cache.Valid() && breaker.Valid()
    ensures run.batches == batches && Runs(sqrt, config, summaryIds, run, |batches|)
    ensures |run.worlds| == |run.verdicts| == |batches|
    ensures |run.states| == |run.counts| == |run.sessions| == |batches| + 1
    ensures run.states[0] == old(Now(store)) && run.states[|batches|] == Now(store)
    ensures run.counts[|batches|] == outcome.Totals() && AnsweredBy(env, run, |batches|)
    ensures breaker.Trace(config.projectId) == old(breaker.Trace(config.projectId)) + Events(run.sessions[|batches|])
    ensures forall p :: p != config.projectId ==> breaker.Trace(p) == old(breaker.Trace(p))
  {
    hide StepOf, FreshIds, Storage.Indexed, FromHistory, Breaker.Describes, Admissible, Wide;
    run := History(batches, [], [Now(store)], [], [NOTHING], [[]]);
    assert breaker.Trace(config.projectId) + Events([]) == breaker.Trace(config.projectId);
    var past := [store.rows];
    var x := 0;
    while x < |batches|
      invariant 0 <= x <= |batches|
      invariant past == RowsOf(run.states) && AnsweredBy(env, run, x)
      invariant store.Valid() && cache.Valid() && breaker.Valid()
      invariant run.batches == batches && Runs(sqrt, config, summaryIds, run, x)
      invariant |run.worlds| == |run.verdicts| == x && |run.states| == |run.counts| == |run.sessions| == x + 1
      invariant run.states[0] == old(Now(store)) && run.states[x] == Now(store) && run.counts[x] == outcome.Totals()
      invariant breaker.Trace(config.projectId) == old(breaker.Trace(config.projectId)) + Events(LastSessions(run))
      invariant forall p :: p != config.projectId ==> breaker.Trace(p) == old(breaker.Trace(p))
    {
      assert batches[x] in batches;
      run := Advance(sqrt, config, batches[x], env, summaryIds, width, run, x, past, store, cache, breaker, outcome,
                     old(breaker.Trace(config.projectId)));
      past := past + [store.rows];
      x := x + 1;
    }
  }

  /** The clusters of a batch: its similarity components, ordered by their smallest members, with their centroids. */
  ghost predicate Clustered(sqrt: real -> real, candidates: seq<CandidateMemory>, threshold: real,
                            clusters: seq<Cluster>)
    requires IsSqrt(sqrt) && OneWidth(candidates)
  {
    && Partition(clusters, |candidates|) && InRange(clusters, |candidates|)
    && (forall x, y :: 0 <= x < y < |clusters| ==> clusters[x].members[0] < clusters[y].members[0])
    && (forall x, i, j :: InCluster(clusters, x, i) && 0 <= j < |candidates| ==>
          (InCluster(clusters, x, j) <==> Connected(sqrt, candidates, threshold, i, j)))
    && (forall x :: 0 <= x < |clusters| ==> clusters[x].centroid == CentroidOf(sqrt, candidates, clusters[x].members))
  }

  ghost predicate Batched(sqrt: real -> real, candidates: seq<CandidateMemory>, threshold: real, clusters: seq<Cluster>,
                          batches: seq<Batch>)
    requires IsSqrt(sqrt) && OneWidth(candidates)
  {
    Clustered(sqrt, candidates, threshold, clusters) && batches == Batches(candidates, clusters)
  }

  /** The run is what the code does to these candidates in this environment, from the one state to the other. */
  ghost predicate IsRun(sqrt: real -> real, config: Config, candidates: seq<CandidateMemory>, env: Environment,
                        summaryIds: nat -> string, run: History, before: Snapshot, after: Snapshot)
    requires IsSqrt(sqrt)
  {
    var n := |run.batches|;
    && OneWidth(candidates)
    && (exists clusters :: Batched(sqrt, candidates, config.intraBatchThreshold, clusters, run.batches))
    && Runs(sqrt, config, summaryIds, run, n) && AnsweredBy(env, run, n)
    && |run.worlds| == |run.verdicts| == n && |run.states| == |run.counts| == |run.sessions| == n + 1
    && run.states[0] == before && run.states[n] == after
  }

  /**
   * The batch's clusters are its similarity components, they are answered by the environment one after another, and the
   * outcome reports exactly what happened to them.
   */
  method Reconcile(sqrt: real -> real, config: Config, candidates: seq<CandidateMemory>,
                   env: Environment, summaryIds: nat -> string, ghost width: nat,
                   store: SqliteStorage, cache: NamespaceVectorCache, breaker: Breaker.ReconciliationCircuitBreaker)
    returns (outcome: ReconciliationOutcome, ghost run: History)
    requires IsSqrt(sqrt)
    requires store.Valid() && cache.Valid() && breaker.Valid()
    requires FreshBatch(config, candidates, summaryIds, width, store.ever) && Admissible(env, summaryIds, width)
    modifies store`rows, store`fts, store`ever, cache`cache, cache`totalBytes, cache`epochs, breaker
    ensures fresh(outcome) && store.Valid() && cache.Valid() && breaker.Valid()
    ensures IsRun(sqrt, config, candidates, env, summaryIds, run, old(Now(store)), Now(store))
    ensures run.counts[|run.batches|] == outcome.Totals()
    ensures breaker.Trace(config.projectId) == old(breaker.Trace(config.projectId)) + Events(LastSessions(run))
    ensures forall p :: p != config.projectId ==> breaker.Trace(p) == old(breaker.Trace(p))
    // Failure of all clusters shows in the counts.
    ensures outcome.clustersFailed == |run.batches| <==>
              outcome.summaryRecordsCommitted + outcome.keepSeparateCommitted == 0
    ensures run.batches == [] <==> candidates == []
    // What follows for the store when the indexes list past records, however stale.
    ensures old(Sound(store.rows, store.ever)) && Recalls(env, old(store.ever), config.namespace) ==>
              Conserves(config, run, old(Now(store)), Now(store))
  {
    hide StepOf, FreshIds, FreshBatch, Storage.Indexed, FromHistory, Breaker.Describes, Admissible, Sound, Recalls;
    hide Conserves, AnsweredBy, Batched, InNamespace;
    WidthIsOne(config, candidates, summaryIds, width, store.ever);
    outcome := new ReconciliationOutcome();
    var clusters := IntraBatchCluster(sqrt, candidates, config.intraBatchThreshold);
    PartitionInRange(clusters, |candidates|);
    BatchesAreFresh(config, candidates, clusters, summaryIds, width, store.ever);
    var batches := GroupClusters(candidates, clusters);
    BatchesAreWide(sqrt, config, candidates, clusters, summaryIds, width, store.ever);
    CoversAll(clusters, |candidates|);
    IsBatched(sqrt, candidates, config.intraBatchThreshold, clusters, batches);
    run := ProcessClusters(sqrt, config, batches, env, summaryIds, width, store, cache, breaker, outcome);
    NothingCommitted(sqrt, config, summaryIds, run, |batches|);
    if old(Sound(store.rows, store.ever)) && Recalls(env, old(store.ever), config.namespace) {
      RunConserves(sqrt, config, candidates, env, summaryIds, width, run, old(Now(store)), Now(store));
    }
  }

  lemma IsBatched(sqrt: real -> real, candidates: seq<CandidateMemory>, threshold: real, clusters: seq<Cluster>,
                  batches: seq<Batch>)
    requires IsSqrt(sqrt) && OneWidth(candidates) && Clustered(sqrt, candidates, threshold, clusters)
    requires batches == Batches(candidates, clusters)
    ensures Batched(sqrt, candidates, threshold, clusters, batches)
  {
  }

  lemma BatchesAreWide(sqrt: real -> real, config: Config, candidates: seq<CandidateMemory>, clusters: seq<Cluster>,
                       summaryIds: nat -> string, width: nat, ever: map<string, MemoryRecord>)
    requires IsSqrt(sqrt) && OneWidth(candidates) && Clustered(sqrt, candidates, config.intraBatchThreshold, clusters)
    requires FreshBatch(config, candidates, summaryIds, width, ever)
    ensures forall batch :: batch in Batches(candidates, clusters) ==> batch.group != [] && Wide(batch, width)
  {
    var batches := Batches(candidates, clusters);
    forall batch | batch in batches ensures batch.group != [] && Wide(batch, width) {
      var x :| 0 <= x < |batches| && batches[x] == batch;
      assert clusters[x].members != [];
      CentroidWidth(sqrt, config, candidates, clusters[x].members, summaryIds, width, ever);
    }
  }

  lemma CoversAll(clusters: seq<Cluster>, n: nat)
    requires Partition(clusters, n)
    ensures clusters == [] <==> n == 0
  {
    if n > 0 {
      assert Covered(clusters, 0);
    } else if clusters != [] {
      assert InCluster(clusters, 0, clusters[0].members[0]);
    }
  }

  /** No evidence is lost, other namespaces are untouched, and the counts balance if every deletion found its row. */
  /** Nothing is evident but what was before and what the run brings. */
  ghost predicate ExactEvidence(run: History, before: Snapshot, after: Snapshot) {
    forall event :: Evident(after.rows, event) <==>
      Evident(before.rows, event) || Brought(run, |run.batches|, event)
  }

  ghost predicate Conserves(config: Config, run: History, before: Snapshot, after: Snapshot)
    requires |run.counts| == |run.batches| + 1
  {
    var counts := run.counts[|run.batches|];
    && Sound(after.rows, after.ever)
    && (forall event :: Evident(before.rows, event) ==> Evident(after.rows, event))
    && ExactEvidence(run, before, after)
    && OthersSpared(config.namespace, before.rows, after.rows)
    && |after.rows| + counts.recordsDeleted >= |before.rows| + Added(counts)
    && (|after.rows| + counts.recordsDeleted == |before.rows| + Added(counts) <==> AllHit(run, |run.batches|))
  }

  function Added(counts: Counts): nat {
    counts.keepSeparateCommitted + counts.summaryRecordsCommitted
  }

  lemma RunIsPrepared(sqrt: real -> real, config: Config, candidates: seq<CandidateMemory>, env: Environment,
                      summaryIds: nat -> string, width: nat, run: History, before: Snapshot, after: Snapshot)
    requires IsSqrt(sqrt) && IsRun(sqrt, config, candidates, env, summaryIds, run, before, after)
    requires FreshBatch(config, candidates, summaryIds, width, before.ever)
    ensures FreshIds(run.batches, summaryIds, before.ever) && InNamespace(run.batches, config.namespace)
  {
    hide Runs, AnsweredBy, FreshIds, FreshBatch, InNamespace;
    var clusters: seq<Cluster> :| Batched(sqrt, candidates, config.intraBatchThreshold, clusters, run.batches);
    BatchesAreFresh(config, candidates, clusters, summaryIds, width, before.ever);
  }

  /** In an environment that recalls the past a run conserves; in one that always answers the present it balances. */
  lemma RunIsExact(sqrt: real -> real, config: Config, summaryIds: nat -> string, run: History)
    requires IsSqrt(sqrt) && Runs(sqrt, config, summaryIds, run, |run.batches|)
    requires InformedRun(config, run, |run.batches|)
    requires FreshIds(run.batches, summaryIds, run.states[0].ever) && Sound(run.states[0].rows, run.states[0].ever)
    ensures ExactEvidence(run, run.states[0], run.states[|run.batches|])
  {
    hide StepOf, InformedRun, FreshIds, Sound, Evident, Brought;
    forall event
      ensures Evident(run.states[|run.batches|].rows, event) <==>
              Evident(run.states[0].rows, event) || Brought(run, |run.batches|, event)
    {
      RunEvidence(sqrt, config, summaryIds, run, |run.batches|, event);
    }
  }

  /** Every candidate is in the group of some cluster, and the groups hold nothing else. */
  lemma CandidatesAreBatched(sqrt: real -> real, config: Config, candidates: seq<CandidateMemory>, env: Environment,
                             summaryIds: nat -> string, run: History, before: Snapshot, after: Snapshot,
                             c: CandidateMemory)
    requires IsSqrt(sqrt) && IsRun(sqrt, config, candidates, env, summaryIds, run, before, after)
    ensures c in candidates <==> exists x :: 0 <= x < |run.batches| && c in run.batches[x].group
  {
    hide StepOf, AnsweredBy, Partition;
    var clusters: seq<Cluster> :| Batched(sqrt, candidates, config.intraBatchThreshold, clusters, run.batches);
    GroupsCover(candidates, clusters, c);
  }

  /** Candidates whose cosine reaches the batch threshold are judged together. */
  lemma CloseOnesAreBatched(sqrt: real -> real, config: Config, candidates: seq<CandidateMemory>, env: Environment,
                            summaryIds: nat -> string, run: History, before: Snapshot, after: Snapshot, i: nat, j: nat)
    requires IsSqrt(sqrt) && IsRun(sqrt, config, candidates, env, summaryIds, run, before, after)
    requires i < |candidates| && j < |candidates|
    requires candidates[i].embedding.Some? && candidates[j].embedding.Some?
    requires CosineOf(sqrt, candidates[i].embedding.value, candidates[j].embedding.value) >= config.intraBatchThreshold
    ensures exists x :: 0 <= x < |run.batches|
                        && candidates[i] in run.batches[x].group && candidates[j] in run.batches[x].group
  {
    hide StepOf, AnsweredBy, Partition, IsSqrt, OneWidth, CosineOf, Connected;
    var clusters: seq<Cluster> :| Batched(sqrt, candidates, config.intraBatchThreshold, clusters, run.batches);
    var x := CloseOnesShare(sqrt, candidates, config.intraBatchThreshold, clusters, i, j);
    InGroup(candidates, clusters, x, i);
    InGroup(candidates, clusters, x, j);
  }

  lemma InGroup(candidates: seq<CandidateMemory>, clusters: seq<Cluster>, x: nat, i: nat)
    requires InRange(clusters, |candidates|) && InCluster(clusters, x, i) && i < |candidates|
    ensures candidates[i] in Batches(candidates, clusters)[x].group
  {
    var k :| 0 <= k < |clusters[x].members| && clusters[x].members[k] == i;
    assert Batches(candidates, clusters)[x].group[k] == candidates[i];
  }

  lemma GroupsCover(candidates: seq<CandidateMemory>, clusters: seq<Cluster>, c: CandidateMemory)
    requires Partition(clusters, |candidates|) && InRange(clusters, |candidates|)
    ensures var batches := Batches(candidates, clusters);
            c in candidates <==> exists x :: 0 <= x < |batches| && c in batches[x].group
  {
    var batches := Batches(candidates, clusters);
    if c in candidates {
      var i :| 0 <= i < |candidates| && candidates[i] == c;
      assert Covered(clusters, i);
      var x :| InCluster(clusters, x, i);
      var k :| 0 <= k < |clusters[x].members| && clusters[x].members[k] == i;
      assert batches[x].group[k] == c;
    }
    if x :| 0 <= x < |batches| && c in batches[x].group {
      var k :| 0 <= k < |batches[x].group| && batches[x].group[k] == c;
      assert InCluster(clusters, x, clusters[x].members[k]);
    }
  }

  lemma RunConserves(sqrt: real -> real, config: Config, candidates: seq<CandidateMemory>, env: Environment,
                     summaryIds: nat -> string, width: nat, run: History, before: Snapshot, after: Snapshot)
    requires IsSqrt(sqrt) && IsRun(sqrt, config, candidates, env, summaryIds, run, before, after)
    requires FreshBatch(config, candidates, summaryIds, width, before.ever) && Sound(before.rows, before.ever)
    requires Recalls(env, before.ever, config.namespace)
    ensures Conserves(config, run, before, after)
    ensures Current(env, config.namespace) ==> AllHit(run, |run.batches|)
  {
    hide Sound, Evident, OthersSpared, FreshIds, FreshBatch, InformedRun, AllHit, StepOf, InNamespace, Recalls;
    hide Current, AnsweredBy, ExactEvidence, Batched;
    var n := |run.batches|;
    RunIsPrepared(sqrt, config, candidates, env, summaryIds, width, run, before, after);
    EnvironmentInforms(sqrt, config, summaryIds, env, run, n);
    RunKeepsEvidence(sqrt, config, summaryIds, run, n);
    RunIsExact(sqrt, config, summaryIds, run);
    RunBalances(sqrt, config, summaryIds, run, n);
    RunIsLocal(sqrt, config, summaryIds, run, n);
    if Current(env, config.namespace) {
      CurrentReflects(env, config, run, n);
      ReflectingRunBalances(sqrt, config, summaryIds, run, n);
    }
  }

  /** With no other writer at work the reported counts are exact: stored after + deleted = stored before + added. */
  lemma CurrentRunBalances(sqrt: real -> real, config: Config, candidates: seq<CandidateMemory>, env: Environment,
                           summaryIds: nat -> string, width: nat, run: History, before: Snapshot, after: Snapshot)
    requires IsSqrt(sqrt) && IsRun(sqrt, config, candidates, env, summaryIds, run, before, after)
    requires FreshBatch(config, candidates, summaryIds, width, before.ever) && Sound(before.rows, before.ever)
    requires Current(env, config.namespace)
    ensures var counts := run.counts[|run.batches|];
            |after.rows| + counts.recordsDeleted == |before.rows| + Added(counts)
  {
    hide Sound, Evident, OthersSpared, FreshBatch, Batched, StepOf, AllHit, Recalls, Current, AnsweredBy;
    CurrentRecalls(env, before.ever, config.namespace);
    RunConserves(sqrt, config, candidates, env, summaryIds, width, run, before, after);
  }

  lemma CurrentReflects(env: Environment, config: Config, run: History, n: nat)
    requires Current(env, config.namespace) && AnsweredBy(env, run, n)
    ensures ReflectingRun(config, run, n)
  {
    forall x: nat | x < n && x < |run.worlds| && x < |run.states| && run.worlds[x].index.Some?
      ensures Reflects(run.worlds[x].index.value, run.states[x].rows, config.namespace)
    {
      var past := RowsOf(run.states[..x + 1]);
      assert past[|past| - 1] == run.states[x].rows && run.worlds[x] == env(x, past);
    }
  }

  /** An environment that answers the present recalls the past. */
  lemma CurrentRecalls(env: Environment, ever: map<string, MemoryRecord>, namespace: string)
    requires Current(env, namespace)
    ensures Recalls(env, ever, namespace)
  {
    forall x: nat, past: seq<map<string, Row>>, i |
      past != [] && env(x, past).index.Some? && 0 <= i < |env(x, past).index.value|
      ensures Recalled(env(x, past).index.value[i].record, ever, past, namespace)
    {
      assert Reflects(env(x, past).index.value, past[|past| - 1], namespace);
    }
  }

  /** All clusters failed exactly when each had a reason to. */
  lemma {:induction false} AllFailedMeans(sqrt: real -> real, config: Config, summaryIds: nat -> string, run: History,
                                          n: nat)
    requires IsSqrt(sqrt) && Runs(sqrt, config, summaryIds, run, n)
    ensures run.counts[n].clustersFailed <= n
    ensures run.counts[n].clustersFailed == n <==>
              forall x: nat :: x < n ==> Fails(config, run.batches[x], run.worlds[x], run.states[x].closed)
  {
    if n == 0 {
    } else {
      AllFailedMeans(sqrt, config, summaryIds, run, n - 1);
      assert StepOf(sqrt, config, summaryIds(n - 1), run, n - 1);
    }
  }
}
