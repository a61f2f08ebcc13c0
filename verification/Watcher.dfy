/** The buffer watcher: per-project triggers, a latching extraction breaker, and byte counts that follow the files. */
module Watcher {
  import opened MemoryTypes
  import opened BufferStore

  datatype Config = Config(
    extractionSizeThreshold: int,
    bufferMaxBytes: int,
    maxConsecutiveFailures: int,
    compactionSizeThreshold: int)

  datatype ProjectState = ProjectState(
    currentBytes: int,
    idleTimer: bool,
    extractionInFlight: bool,
    consecutiveFailures: nat,
    extractionDisabled: bool,
    sizeCeilingWarningLogged: bool,
    compactionInFlight: bool)

  const CREATED := ProjectState(0, false, false, 0, false, false, false)

  /** What happened to one project's extractions. */
  datatype Event = Fired | Reported(success: bool)

  /** Handlers called by one notification. */
  datatype Calls = Calls(extraction: bool, compaction: bool)

  // ---- Meaning of a trace ----

  ghost predicate InFlight(trace: seq<Event>) {
    trace != [] && trace[|trace| - 1].Fired?
  }

  /** Failed results since the last successful one. */
  ghost function Failures(trace: seq<Event>): nat {
    if trace == [] then 0
    else
      var earlier := Failures(trace[..|trace| - 1]);
      match trace[|trace| - 1]
      case Fired => earlier
      case Reported(success) => if success then 0 else earlier + 1
  }

  ghost predicate Latched(trace: seq<Event>, limit: int) {
    Failures(trace) >= 1 && Failures(trace) >= limit
  }

  /** Extractions are fired only when none is in flight and the breaker has not latched. */
  ghost predicate Disciplined(trace: seq<Event>, limit: int) {
    forall i :: 0 <= i < |trace| && trace[i].Fired? ==> MayFire(trace[..i], limit)
  }

  ghost predicate MayFire(trace: seq<Event>, limit: int) {
    !InFlight(trace) && !Latched(trace, limit)
  }

  /** Results are reported only for an extraction in flight. */
  ghost predicate Solicited(trace: seq<Event>) {
    forall i :: 0 <= i < |trace| && trace[i].Reported? ==> InFlight(trace[..i])
  }

  lemma DisciplinedSnoc(trace: seq<Event>, e: Event, limit: int)
    requires Disciplined(trace, limit) && (e.Fired? ==> MayFire(trace, limit))
    ensures Disciplined(trace + [e], limit)
  {
    var more := trace + [e];
    forall i | 0 <= i < |more| && more[i].Fired? ensures MayFire(more[..i], limit) {
      assert more[..i] == if i < |trace| then trace[..i] else trace;
    }
  }

  /** Firings and results strictly alternate, starting with a firing. */
  lemma {:induction false} Alternates(trace: seq<Event>, limit: int, i: nat)
    requires Disciplined(trace, limit) && Solicited(trace) && i < |trace|
    ensures trace[i].Fired? <==> i % 2 == 0
  {
    if i == 0 {
      assert trace[..0] == [];
      if trace[0].Reported? { NothingInFlight(trace); }
    } else {
      Alternates(trace, limit, i - 1);
      assert trace[..i][i - 1] == trace[i - 1];
      if trace[i].Fired? { assert MayFire(trace[..i], limit); }
      if trace[i].Reported? { assert InFlight(trace[..i]); }
    }
  }

  lemma NothingInFlight(trace: seq<Event>)
    requires trace != [] && Solicited(trace)
    ensures trace[0].Fired?
  {
    assert trace[0].Reported? ==> InFlight(trace[..0]);
  }

  /** Once the limit is reached by failures in a row, nothing is ever fired again. */
  lemma LatchIsForever(trace: seq<Event>, limit: int, k: nat)
    requires Disciplined(trace, limit) && Solicited(trace) && k <= |trace|
    requires Latched(trace[..k], limit) && !InFlight(trace[..k])
    ensures k == |trace|
  {
    if k < |trace| {
      NextNeedsLeave(trace, limit, k);
    }
  }

  lemma NextNeedsLeave(trace: seq<Event>, limit: int, k: nat)
    requires Disciplined(trace, limit) && Solicited(trace) && k < |trace|
    ensures MayFire(trace[..k], limit) || InFlight(trace[..k])
  {
    if trace[k].Fired? { assert MayFire(trace[..k], limit); } else { assert InFlight(trace[..k]); }
  }

  /** After n failures in a row another extraction may be fired exactly when n is below the limit. */
  lemma LatchesAtLimit(trace: seq<Event>, limit: int, n: nat)
    requires trace == [] || trace[|trace| - 1] == Reported(true)
    ensures n >= 1 ==> (MayFire(trace + seq(n, _ => Reported(false)), limit) <==> n < limit)
  {
    FailuresInARow(trace, n);
    assert n >= 1 ==> (trace + seq(n, _ => Reported(false)))[|trace| + n - 1] == Reported(false);
  }

  lemma {:induction false} FailuresInARow(trace: seq<Event>, n: nat)
    requires trace == [] || trace[|trace| - 1] == Reported(true)
    ensures Failures(trace + seq(n, _ => Reported(false))) == n
  {
    var all := trace + seq(n, _ => Reported(false));
    if n == 0 {
      assert all == trace;
    } else {
      FailuresInARow(trace, n - 1);
      assert all[..|all| - 1] == trace + seq(n - 1, _ => Reported(false));
    }
  }

  /** The next thing that can happen after a firing is its report: while none comes the project is wedged for good. */
  lemma UnreportedWedges(trace: seq<Event>, later: seq<Event>, limit: int)
    requires Disciplined(trace + later, limit) && InFlight(trace)
    ensures later != [] ==> later[0].Reported?
  {
    assert (trace + later)[..|trace|] == trace;
    assert later != [] ==> (trace + later)[|trace|] == later[0];
  }

  /** The fields of a state as functions of the project's trace. */
  ghost predicate Describes(state: ProjectState, trace: seq<Event>, limit: int) {
    && Disciplined(trace, limit)
    && (state.extractionInFlight <==> InFlight(trace))
    && state.consecutiveFailures == Failures(trace)
    && (state.extractionDisabled <==> Latched(trace, limit))
  }

  /** Byte counts, timers and warnings are no part of what a trace determines. */
  lemma SameFlags(state: ProjectState, other: ProjectState, trace: seq<Event>, limit: int)
    requires other.extractionInFlight == state.extractionInFlight
    requires other.extractionDisabled == state.extractionDisabled
    requires other.consecutiveFailures == state.consecutiveFailures
    ensures Describes(state, trace, limit) ==> Describes(other, trace, limit)
  {
  }

  lemma ReportDescribes(state: ProjectState, trace: seq<Event>, limit: int, success: bool)
    requires Describes(state, trace, limit)
    ensures Describes(AfterReport(state, limit, success), trace + [Reported(success)], limit)
  {
    DisciplinedSnoc(trace, Reported(success), limit);
    assert (trace + [Reported(success)])[..|trace|] == trace;
  }

  lemma FireDescribes(state: ProjectState, trace: seq<Event>, limit: int)
    requires Describes(state, trace, limit) && !state.extractionInFlight && !state.extractionDisabled
    ensures Describes(state.(extractionInFlight := true), trace + [Fired], limit)
  {
    DisciplinedSnoc(trace, Fired, limit);
    assert (trace + [Fired])[..|trace|] == trace;
  }

  /** A reported result: success resets everything, failure counts towards the latch. */
  function AfterReport(state: ProjectState, limit: int, success: bool): ProjectState {
    if success then
      state.(extractionInFlight := false, consecutiveFailures := 0, extractionDisabled := false, currentBytes := 0,
             sizeCeilingWarningLogged := false)
    else
      state.(extractionInFlight := false, consecutiveFailures := state.consecutiveFailures + 1,
             extractionDisabled := state.extractionDisabled || state.consecutiveFailures + 1 >= limit)
  }

  /** A compaction that succeeded reports the new size. */
  function SizeAfter(before: int, success: bool, newSizeBytes: Option<nat>): int {
    if success && newSizeBytes.Some? then newSizeBytes.value else before
  }

  /** An append leaves failure counts and warnings alone. */
  function Appended(state: ProjectState, bytes: int, calls: Calls): ProjectState {
    state.(currentBytes := state.currentBytes + bytes, idleTimer := true,
           extractionInFlight := state.extractionInFlight || calls.extraction,
           compactionInFlight := state.compactionInFlight || calls.compaction)
  }

  class BufferWatcher {
    const config: Config
    var projects: map<string, ProjectState>
    ghost var traces: map<string, seq<Event>>

    function StateOf(projectId: string): ProjectState
      reads this`projects
    {
      if projectId in projects then projects[projectId] else CREATED
    }

    ghost function Trace(projectId: string): seq<Event>
      reads this`traces
    {
      if projectId in traces then traces[projectId] else []
    }

    ghost predicate Valid()
      reads this
    {
      forall p :: Describes(StateOf(p), Trace(p), config.maxConsecutiveFailures)
    }

    constructor (config: Config)
      ensures Valid() && projects == map[] && traces == map[] && this.config == config
    {
      this.config := config;
      projects, traces := map[], map[];
    }

    /** One project's state and trace move together; the others keep theirs. */
    method Update(projectId: string, state: ProjectState, ghost trace: seq<Event>)
      requires Valid() && Describes(state, trace, config.maxConsecutiveFailures)
      modifies this
      ensures Valid() && projectId in projects && StateOf(projectId) == state && Trace(projectId) == trace
      ensures forall p :: p != projectId ==> StateOf(p) == old(StateOf(p)) && Trace(p) == old(Trace(p))
    {
      projects := projects[projectId := state];
      traces := traces[projectId := trace];
      forall p ensures Describes(StateOf(p), Trace(p), config.maxConsecutiveFailures) {
        if p != projectId { assert StateOf(p) == old(StateOf(p)) && Trace(p) == old(Trace(p)); }
      }
    }

    method WouldExceedCeiling(projectId: string, bytes: int) returns (exceeds: bool)
      requires Valid()
      modifies this
      ensures Valid()
      ensures exceeds <==> old(StateOf(projectId)).currentBytes + bytes > config.bufferMaxBytes
      ensures StateOf(projectId) == old(StateOf(projectId)).(
                sizeCeilingWarningLogged := old(StateOf(projectId)).sizeCeilingWarningLogged || exceeds)
      ensures forall p :: StateOf(p).currentBytes == old(StateOf(p)).currentBytes
      ensures forall p :: Trace(p) == old(Trace(p)) && (p != projectId ==> StateOf(p) == old(StateOf(p)))
    {
      var state := StateOf(projectId);
      assert Describes(state, Trace(projectId), config.maxConsecutiveFailures);
      exceeds := state.currentBytes + bytes > config.bufferMaxBytes;
      Update(projectId, state.(sizeCeilingWarningLogged := state.sizeCeilingWarningLogged || exceeds),
             Trace(projectId));
    }

    /** Fires unless an extraction is in flight or the breaker has latched. */
    method FireExtraction(projectId: string) returns (called: bool)
      requires Valid()
      modifies this
      ensures Valid()
      ensures called <==> projectId in old(projects) && MayFire(old(Trace(projectId)), config.maxConsecutiveFailures)
      ensures StateOf(projectId) == old(StateOf(projectId)).(
                extractionInFlight := old(StateOf(projectId)).extractionInFlight || called)
      ensures Trace(projectId) == old(Trace(projectId)) + if called then [Fired] else []
      ensures forall p :: p != projectId ==> StateOf(p) == old(StateOf(p)) && Trace(p) == old(Trace(p))
    {
      if projectId !in projects { return false; }
      var state := projects[projectId];
      assert Describes(StateOf(projectId), Trace(projectId), config.maxConsecutiveFailures);
      if state.extractionInFlight || state.extractionDisabled { return false; }
      FireDescribes(state, Trace(projectId), config.maxConsecutiveFailures);
      Update(projectId, state.(extractionInFlight := true), Trace(projectId) + [Fired]);
      called := true;
    }

    method FireCompaction(projectId: string) returns (called: bool)
      requires Valid()
      modifies this
      ensures Valid()
      ensures called <==> projectId in old(projects) && !old(StateOf(projectId)).compactionInFlight
      ensures StateOf(projectId) == old(StateOf(projectId)).(
                compactionInFlight := old(StateOf(projectId)).compactionInFlight || called)
      ensures forall p :: Trace(p) == old(Trace(p)) && (p != projectId ==> StateOf(p) == old(StateOf(p)))
    {
      if projectId !in projects { return false; }
      var state := projects[projectId];
      assert Describes(StateOf(projectId), Trace(projectId), config.maxConsecutiveFailures);
      if state.compactionInFlight { return false; }
      Update(projectId, state.(compactionInFlight := true), Trace(projectId));
      called := true;
    }

    /** Bytes are added, the idle timer is armed, and each threshold fires its own trigger. */
    method NotifyAppend(projectId: string, appendedBytes: int) returns (calls: Calls)
      requires Valid()
      modifies this
      ensures Valid()
      ensures StateOf(projectId) == Appended(old(StateOf(projectId)), appendedBytes, calls)
      ensures StateOf(projectId).currentBytes == old(StateOf(projectId)).currentBytes + appendedBytes
      ensures StateOf(projectId).idleTimer
      ensures StateOf(projectId).sizeCeilingWarningLogged == old(StateOf(projectId)).sizeCeilingWarningLogged
      ensures calls.extraction <==> StateOf(projectId).currentBytes >= config.extractionSizeThreshold
                                    && MayFire(old(Trace(projectId)), config.maxConsecutiveFailures)
      ensures calls.compaction <==> StateOf(projectId).currentBytes > config.compactionSizeThreshold
                                    && !old(StateOf(projectId)).compactionInFlight
      ensures Trace(projectId) == old(Trace(projectId)) + if calls.extraction then [Fired] else []
      ensures forall p :: p != projectId ==> StateOf(p) == old(StateOf(p)) && Trace(p) == old(Trace(p))
    {
      hide Describes, MayFire;
      var state := StateOf(projectId);
      var bytes := state.currentBytes + appendedBytes;
      SameFlags(state, state.(currentBytes := bytes, idleTimer := true), Trace(projectId),
                config.maxConsecutiveFailures);
      Update(projectId, state.(currentBytes := bytes, idleTimer := true), Trace(projectId));
      calls := Calls(false, false);
      if bytes >= config.extractionSizeThreshold {
        var called := FireExtraction(projectId);
        calls := calls.(extraction := called);
      }
      if bytes > config.compactionSizeThreshold {
        var called := FireCompaction(projectId);
        calls := calls.(compaction := called);
      }
    }

    /** The idle timer runs out. */
    method IdleFlush(projectId: string) returns (called: bool)
      requires Valid() && StateOf(projectId).idleTimer
      modifies this
      ensures Valid()
      ensures called <==> MayFire(old(Trace(projectId)), config.maxConsecutiveFailures)
      ensures StateOf(projectId) == old(StateOf(projectId)).(idleTimer := false,
                extractionInFlight := old(StateOf(projectId)).extractionInFlight || called)
      ensures Trace(projectId) == old(Trace(projectId)) + if called then [Fired] else []
      ensures forall p :: p != projectId ==> StateOf(p) == old(StateOf(p)) && Trace(p) == old(Trace(p))
    {
      var state := StateOf(projectId);
      assert Describes(state, Trace(projectId), config.maxConsecutiveFailures);
      Update(projectId, state.(idleTimer := false), Trace(projectId));
      called := FireExtraction(projectId);
    }

    method NotifyExtractionResult(projectId: string, success: bool)
      requires Valid()
      modifies this
      ensures Valid()
      ensures StateOf(projectId) == AfterReport(old(StateOf(projectId)), config.maxConsecutiveFailures, success)
      ensures StateOf(projectId).consecutiveFailures ==
                if success then 0 else old(StateOf(projectId)).consecutiveFailures + 1
      ensures StateOf(projectId).extractionDisabled <==>
                !success && (old(StateOf(projectId)).extractionDisabled
                || old(StateOf(projectId)).consecutiveFailures + 1 >= config.maxConsecutiveFailures)
      // A success starts over with an empty buffer; after a failure bytes and warning stand.
      ensures StateOf(projectId).currentBytes == if success then 0 else old(StateOf(projectId)).currentBytes
      ensures StateOf(projectId).sizeCeilingWarningLogged <==>
                !success && old(StateOf(projectId)).sizeCeilingWarningLogged
      ensures StateOf(projectId).idleTimer == old(StateOf(projectId)).idleTimer
      ensures StateOf(projectId).compactionInFlight == old(StateOf(projectId)).compactionInFlight
      ensures Trace(projectId) == old(Trace(projectId)) + [Reported(success)]
      ensures forall p :: p != projectId ==> StateOf(p) == old(StateOf(p)) && Trace(p) == old(Trace(p))
    {
      var state := StateOf(projectId);
      assert Describes(state, Trace(projectId), config.maxConsecutiveFailures);
      ReportDescribes(state, Trace(projectId), config.maxConsecutiveFailures, success);
      Update(projectId, AfterReport(state, config.maxConsecutiveFailures, success),
             Trace(projectId) + [Reported(success)]);
    }

    method NotifyCompactionResult(projectId: string, success: bool, newSizeBytes: Option<nat>)
      requires Valid()
      modifies this
      ensures Valid()
      ensures StateOf(projectId) == old(StateOf(projectId)).(compactionInFlight := false,
                currentBytes := SizeAfter(old(StateOf(projectId)).currentBytes, success, newSizeBytes))
      ensures success && newSizeBytes.Some? ==> StateOf(projectId).currentBytes == newSizeBytes.value
      ensures !success || newSizeBytes.None? ==> StateOf(projectId).currentBytes == old(StateOf(projectId)).currentBytes
      ensures forall p :: Trace(p) == old(Trace(p)) && (p != projectId ==> StateOf(p) == old(StateOf(p)))
    {
      var state := StateOf(projectId);
      assert Describes(state, Trace(projectId), config.maxConsecutiveFailures);
      var bytes := SizeAfter(state.currentBytes, success, newSizeBytes);
      Update(projectId, state.(compactionInFlight := false, currentBytes := bytes), Trace(projectId));
    }
  }

  // ---- Store and watcher together, each store operation with its notification as one step ----

  lemma NextProject(projectIds: seq<string>, i: nat)
    requires i < |projectIds| && forall i, j :: 0 <= i < j < |projectIds| ==> projectIds[i] != projectIds[j]
    ensures projectIds[i] !in projectIds[..i]
    ensures forall p :: p in projectIds[..i + 1] <==> p in projectIds[..i] || p == projectIds[i]
  {
    assert projectIds[..i + 1] == projectIds[..i] + [projectIds[i]];
  }

  class GatedBuffer {
    const store: Store
    const watcher: BufferWatcher

    ghost predicate Counts(projectId: string)
      reads watcher`projects, store`files
    {
      watcher.StateOf(projectId).currentBytes == |FileOf(store.files, projectId)|
    }

    /** The watcher's byte counts are the files' lengths. */
    ghost predicate Valid()
      reads watcher, store
    {
      store.Valid() && watcher.Valid() && forall p :: Counts(p)
    }

    constructor (store: Store, watcher: BufferWatcher)
      requires store.Valid() && watcher.Valid()
      requires forall p :: watcher.StateOf(p).currentBytes == |FileOf(store.files, p)|
      ensures Valid() && this.store == store && this.watcher == watcher
    {
      this.store, this.watcher := store, watcher;
    }

    /** Restart: the files are there before the watcher is, and are notified one by one. */
    static method Recover(store: Store, watcher: BufferWatcher, projectIds: seq<string>)
      requires store.Valid() && watcher.Valid() && watcher.projects == map[]
      requires forall p :: p in projectIds <==> p in store.files
      requires forall i, j :: 0 <= i < j < |projectIds| ==> projectIds[i] != projectIds[j]
      modifies watcher
      ensures store.Valid() && watcher.Valid()
      ensures forall p :: watcher.StateOf(p).currentBytes == |FileOf(store.files, p)|
    {
      hide Describes, MayFire, LineCodec, WholeLines;
      var i := 0;
      while i < |projectIds|
        invariant 0 <= i <= |projectIds| && watcher.Valid()
        invariant forall p :: watcher.StateOf(p).currentBytes ==
                    if p in projectIds[..i] then |FileOf(store.files, p)| else 0
      {
        var p := projectIds[i];
        NextProject(projectIds, i);
        var size := |store.files[p]|;
        if size > 0 {
          var _ := watcher.NotifyAppend(p, size);
        }
        i := i + 1;
      }
      assert projectIds[..i] == projectIds;
    }

    /** The length the buffer would have with one more entry. */
    ghost function LengthWith(projectId: string, entry: BufferEntry): nat
      reads store`files
    {
      |FileOf(store.files, projectId)| + |Line(store.codec, entry)|
    }

    /** Ceiling check, durable append, notification. A refused or failed append changes no byte and no count. */
    method Ingest(projectId: string, entry: BufferEntry) returns (appended: bool, calls: Calls)
      requires Valid()
      modifies store`files, watcher
      ensures Valid()
      ensures appended <==> Safe(projectId) && old(LengthWith(projectId, entry)) <= watcher.config.bufferMaxBytes
      ensures appended ==> |FileOf(store.files, projectId)| == old(LengthWith(projectId, entry))
      ensures appended ==> store.Buffered(projectId) == old(store.Buffered(projectId)) + [entry]
      ensures !appended ==> store.files == old(store.files)
    {
      calls := Calls(false, false);
      var bytes := |Line(store.codec, entry)|;
      assert Counts(projectId);
      var exceeds := watcher.WouldExceedCeiling(projectId, bytes);
      forall p ensures Counts(p) { assert old(Counts(p)); }
      if exceeds { return false, calls; }
      appended, calls := AppendAndNotify(projectId, entry, bytes);
    }

    method AppendAndNotify(projectId: string, entry: BufferEntry, bytes: nat) returns (appended: bool, calls: Calls)
      requires Valid() && bytes == |Line(store.codec, entry)|
      modifies store`files, watcher
      ensures Valid()
      ensures appended <==> Safe(projectId)
      ensures appended ==> |FileOf(store.files, projectId)| == old(LengthWith(projectId, entry))
      ensures appended ==> store.Buffered(projectId) == old(store.Buffered(projectId)) + [entry]
      ensures !appended ==> store.files == old(store.files)
    {
      hide Describes, MayFire, Entries, LineCodec, WholeLines;
      calls := Calls(false, false);
      assert Counts(projectId);
      var result := store.Append(projectId, entry);
      if result.Threw? { return false, calls; }
      calls := watcher.NotifyAppend(projectId, bytes);
      forall p ensures Counts(p) { assert old(Counts(p)); }
      appended := true;
    }

    /** A run that succeeded: the buffer is cleared and the count restarts. */
    method ExtractionSucceeded(projectId: string)
      requires Valid() && Safe(projectId)
      modifies store`files, watcher
      ensures Valid() && FileOf(store.files, projectId) == []
      ensures watcher.Trace(projectId) == old(watcher.Trace(projectId)) + [Reported(true)]
    {
      hide Describes, LineCodec, WholeLines, Entries, Printed, AfterReport;
      var _ := store.Clear(projectId);
      watcher.NotifyExtractionResult(projectId, true);
      forall p ensures Counts(p) { assert old(Counts(p)); }
    }

    /** A run that failed leaves the buffer alone. */
    method ExtractionFailed(projectId: string)
      requires Valid()
      modifies watcher
      ensures Valid()
      ensures watcher.Trace(projectId) == old(watcher.Trace(projectId)) + [Reported(false)]
    {
      watcher.NotifyExtractionResult(projectId, false);
      forall p ensures Counts(p) { assert old(Counts(p)); }
    }

    /** A compaction swap with its report; a failed one reports no size. */
    method CompactionFinished(projectId: string, compacted: seq<BufferEntry>, offset: nat, ioFault: bool)
      requires Valid()
      modifies store`files, watcher
      ensures Valid() && !watcher.StateOf(projectId).compactionInFlight
      ensures forall p :: watcher.Trace(p) == old(watcher.Trace(p))
      ensures !Safe(projectId) || projectId !in old(store.files) || ioFault ==> store.files == old(store.files)
      ensures Safe(projectId) && projectId in old(store.files) && !ioFault ==>
                store.Buffered(projectId) == compacted + store.Tail(old(store.files), projectId, offset)
    {
      var result := store.Replace(projectId, compacted, offset, ioFault);
      if result.Threw? {
        watcher.NotifyCompactionResult(projectId, false, None);
      } else {
        watcher.NotifyCompactionResult(projectId, true, Some(result.value.newSizeBytes));
      }
      forall p ensures Counts(p) { assert old(Counts(p)); }
    }
  }
}
