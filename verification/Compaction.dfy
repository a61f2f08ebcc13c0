/**
 * The compaction worker: snapshot, slow model call, swap with catch-up, under any interleaving with appends and
 * clears.
 */
module Compaction {
  import opened MemoryTypes
  import opened Ordering
  import opened BufferStore

  // ---- deterministicEviction ----

  predicate Newer(a: BufferEntry, b: BufferEntry) { TextLe(b.timestamp, a.timestamp) }

  lemma NewerIsTotal()
    ensures TotalPreorder(Newer)
  {
    forall a: BufferEntry, b: BufferEntry ensures Newer(a, b) || Newer(b, a) {
      TextLeTotal(a.timestamp, b.timestamp);
    }
    forall a: BufferEntry, b: BufferEntry, c: BufferEntry | Newer(a, b) && Newer(b, c) ensures Newer(a, c) {
      TextLeTransitive(c.timestamp, b.timestamp, a.timestamp);
    }
  }

  /** Half the entries, rounded up. */
  function KeepCount(n: nat): nat { (n + 1) / 2 }

  /** The newest half: nothing evicted is newer than anything kept, and nothing is invented. */
  method DeterministicEviction(entries: seq<BufferEntry>) returns (kept: seq<BufferEntry>)
    ensures IsTop(kept, entries, KeepCount(|entries|), Newer)
    ensures entries != [] ==> kept != []
    // As many are kept as go, or one more.
    ensures |entries| <= 2 * |kept| <= |entries| + 1
    ensures forall i, j :: 0 <= i < j < |kept| ==> TextLe(kept[j].timestamp, kept[i].timestamp)
    ensures multiset(kept) <= multiset(entries)
    ensures forall k, e :: k in kept && e in multiset(entries) - multiset(kept) ==> TextLe(e.timestamp, k.timestamp)
  {
    NewerIsTotal();
    SortCutIsTop(entries, KeepCount(|entries|), Newer);
    var sorted := Sort(entries, Newer);
    SortOrdered(entries, Newer);
    kept := sorted[..KeepCount(|entries|)];
    EvictedAreOlder(entries, sorted, KeepCount(|entries|));
  }

  lemma EvictedAreOlder(entries: seq<BufferEntry>, sorted: seq<BufferEntry>, n: nat)
    requires multiset(sorted) == multiset(entries) && Ordered(sorted, Newer) && n <= |sorted|
    ensures multiset(sorted[..n]) <= multiset(entries)
    ensures forall k, e :: k in sorted[..n] && e in multiset(entries) - multiset(sorted[..n]) ==>
              TextLe(e.timestamp, k.timestamp)
  {
    assert sorted == sorted[..n] + sorted[n..];
    assert multiset(entries) - multiset(sorted[..n]) == multiset(sorted[n..]);
    forall k, e | k in sorted[..n] && e in sorted[n..] ensures TextLe(e.timestamp, k.timestamp) {
      var i :| 0 <= i < n && sorted[i] == k;
      var j :| 0 <= j < |sorted[n..]| && sorted[n..][j] == e;
      assert Newer(sorted[i], sorted[n + j]);
    }
  }

  // ---- The worker ----

  datatype Config = Config(maxConsecutiveModelFailures: int)

  /** The compaction under way: what was read, how many bytes that was, and the failure count seen then. */
  datatype Pending = Pending(projectId: string, entries: seq<BufferEntry>, offset: nat, failures: nat)

  /** What the watcher is told. */
  datatype Notice = Notice(projectId: string, success: bool, newSizeBytes: Option<nat>)

  /** The model's reply, or the newest half of what was read when it failed or is latched off. */
  ghost predicate Chosen(config: Config, p: Pending, reply: Option<seq<BufferEntry>>, compacted: seq<BufferEntry>) {
    if p.failures >= config.maxConsecutiveModelFailures || reply.None?
    then IsTop(compacted, p.entries, KeepCount(|p.entries|), Newer)
    else compacted == reply.value
  }

  class CompactionWorker {
    const store: Store
    const config: Config
    var pending: Option<Pending>
    var modelFailures: map<string, nat>

    function Failures(projectId: string): nat
      reads this`modelFailures
    {
      if projectId in modelFailures then modelFailures[projectId] else 0
    }

    constructor (store: Store, config: Config)
      ensures this.store == store && this.config == config && pending.None? && modelFailures == map[]
    {
      this.store, this.config := store, config;
      pending, modelFailures := None, map[];
    }

    /** The synchronous first half: at most one compaction at a time, over any project; an empty buffer needs none. */
    method Compact(projectId: string) returns (notice: Option<Notice>)
      requires store.Valid()
      modifies this`pending
      ensures old(pending).Some? || !Safe(projectId) ==>
                notice == Some(Notice(projectId, false, None)) && pending == old(pending)
      ensures old(pending).None? && Safe(projectId) && store.Buffered(projectId) == [] ==>
                notice == Some(Notice(projectId, true, Some(|store.Content(projectId)|))) && pending.None?
      ensures old(pending).None? && Safe(projectId) && store.Buffered(projectId) != [] ==> notice.None?
      ensures notice.None? ==>
                pending == Some(Pending(projectId, store.Buffered(projectId), |store.Content(projectId)|,
                                        Failures(projectId)))
    {
      if pending.Some? { return Some(Notice(projectId, false, None)); }
      var read := store.SnapshotWithSize(projectId);
      if read.Threw? { return Some(Notice(projectId, false, None)); }
      if |read.value.entries| == 0 { return Some(Notice(projectId, true, Some(read.value.sizeBytes))); }
      pending := Some(Pending(projectId, read.value.entries, read.value.sizeBytes, Failures(projectId)));
      notice := None;
    }

    /** The model's entries, or the eviction fallback when it failed or is latched off. */
    method ChooseEntries(p: Pending, reply: Option<seq<BufferEntry>>)
      returns (compacted: seq<BufferEntry>, modelFailed: bool, usedFallback: bool)
      ensures usedFallback <==> p.failures >= config.maxConsecutiveModelFailures || reply.None?
      ensures modelFailed <==> p.failures < config.maxConsecutiveModelFailures && reply.None?
      ensures Chosen(config, p, reply, compacted)
      ensures p.failures < config.maxConsecutiveModelFailures && reply.Some? ==> compacted == reply.value
      ensures usedFallback ==> |p.entries| <= 2 * |compacted| <= |p.entries| + 1
    {
      if p.failures >= config.maxConsecutiveModelFailures {
        compacted := DeterministicEviction(p.entries);
        return compacted, false, true;
      }
      if reply.Some? { return reply.value, false, false; }
      compacted := DeterministicEviction(p.entries);
      return compacted, true, true;
    }

    /** After the model call: swap, keep whatever lies past the offset, report the new size. */
    method Finish(reply: Option<seq<BufferEntry>>, ioFault: bool)
      returns (notice: Notice, ghost compacted: seq<BufferEntry>)
      requires store.Valid() && pending.Some? && Safe(pending.value.projectId)
      modifies this`pending, this`modelFailures, store`files
      ensures store.Valid() && pending.None?
      ensures notice.projectId == old(pending.value.projectId)
      ensures notice.success <==> !ioFault && notice.projectId in old(store.files)
      ensures !notice.success ==> store.files == old(store.files) && notice.newSizeBytes.None?
      ensures notice.success ==>
                store.files == SwappedFile(store.codec, old(store.files), old(pending.value), compacted)
      ensures notice.success ==> notice.newSizeBytes == Some(|FileOf(store.files, notice.projectId)|)
      ensures Chosen(config, old(pending.value), reply, compacted)
      // The failure count is consecutive, and once at the limit it never moves again.
      ensures Failures(notice.projectId) ==
                FailuresAfter(old(Failures(pending.value.projectId)), old(pending.value), reply, notice.success, config)
      ensures old(pending.value.failures) >= config.maxConsecutiveModelFailures ==>
                Failures(notice.projectId) == old(Failures(pending.value.projectId))
      ensures old(pending.value.failures) < config.maxConsecutiveModelFailures && reply.None? ==>
                Failures(notice.projectId) == old(pending.value.failures) + 1
      ensures old(pending.value.failures) < config.maxConsecutiveModelFailures && reply.Some? && notice.success ==>
                Failures(notice.projectId) == 0
      ensures forall p :: p != notice.projectId ==> Failures(p) == old(Failures(p))
    {
      hide Entries, Printed;
      var p := pending.value;
      var chosen, modelFailed, usedFallback := ChooseEntries(p, reply);
      compacted := chosen;
      if modelFailed { modelFailures := modelFailures[p.projectId := p.failures + 1]; }
      var result := store.Replace(p.projectId, chosen, p.offset, ioFault);
      pending := None;
      if result.Threw? { return Notice(p.projectId, false, None), compacted; }
      if !usedFallback { modelFailures := modelFailures[p.projectId := 0]; }
      notice := Notice(p.projectId, true, Some(result.value.newSizeBytes));
    }
  }

  /** The buffer after a swap: the new entries, then everything found past the snapshot's offset. */
  ghost function SwappedFile(codec: Codec, files: map<string, Bytes>, p: Pending, compacted: seq<BufferEntry>)
    : map<string, Bytes>
  {
    files[p.projectId := Printed(codec, compacted + Entries(codec, TailFrom(FileOf(files, p.projectId), p.offset)))]
  }

  /** What a finished compaction makes of its project's failure count. */
  function FailuresAfter(before: nat, p: Pending, reply: Option<seq<BufferEntry>>, swapped: bool, config: Config): nat {
    if p.failures >= config.maxConsecutiveModelFailures then before
    else if reply.None? then p.failures + 1
    else if swapped then 0
    else before
  }

  // ---- Whole runs ----

  /** A plain-list account of the buffers, and of where entries went when they left. */
  datatype Account = Account(
    content: map<string, seq<BufferEntry>>,
    appended: map<string, seq<BufferEntry>>,
    summarised: map<string, seq<BufferEntry>>,
    cleared: map<string, seq<BufferEntry>>,
    lost: map<string, seq<BufferEntry>>)

  /** The account at the start: whatever the files hold counts as appended. */
  ghost function Found(codec: Codec, files: map<string, Bytes>): Account {
    var content := map p | p in files :: Entries(codec, files[p]);
    Account(content, content, map[], map[], map[])
  }

  ghost function Of(m: map<string, seq<BufferEntry>>, projectId: string): seq<BufferEntry> {
    if projectId in m then m[projectId] else []
  }

  ghost function More(m: map<string, seq<BufferEntry>>, projectId: string, entries: seq<BufferEntry>)
    : map<string, seq<BufferEntry>>
  {
    m[projectId := Of(m, projectId) + entries]
  }

  /**
   * Every entry ever appended is still buffered, or some compaction read it, a clear dropped it, or a stale swap did.
   */
  ghost predicate Accounted(a: Account) {
    forall p, e :: e in Of(a.appended, p) ==> Traced(a, p, e)
  }

  ghost predicate Traced(a: Account, projectId: string, e: BufferEntry) {
    || e in Of(a.content, projectId) || e in Of(a.summarised, projectId)
    || e in Of(a.cleared, projectId) || e in Of(a.lost, projectId)
  }

  ghost function Appended(a: Account, projectId: string, entry: BufferEntry): Account {
    a.(content := More(a.content, projectId, [entry]), appended := More(a.appended, projectId, [entry]))
  }

  ghost function Cleared(a: Account, projectId: string): Account {
    a.(content := a.content[projectId := []], cleared := More(a.cleared, projectId, Of(a.content, projectId)))
  }

  ghost function Read(a: Account, projectId: string): Account {
    a.(summarised := More(a.summarised, projectId, Of(a.content, projectId)))
  }

  ghost function Swapped(a: Account, projectId: string, content: seq<BufferEntry>): Account {
    a.(content := a.content[projectId := content])
  }

  /** The entries that are not among the kept ones. */
  ghost function Missing(entries: seq<BufferEntry>, kept: seq<BufferEntry>): seq<BufferEntry> {
    if entries == [] then []
    else
      var last := entries[|entries| - 1];
      Missing(entries[..|entries| - 1], kept) + if last in kept then [] else [last]
  }

  lemma {:induction false} MissingMeaning(entries: seq<BufferEntry>, kept: seq<BufferEntry>)
    ensures forall e :: e in Missing(entries, kept) <==> e in entries && e !in kept
  {
    if entries == [] {
    } else {
      var n := |entries| - 1;
      MissingMeaning(entries[..n], kept);
      assert entries == entries[..n] + [entries[n]];
    }
  }

  /** A swap over a buffer that was cleared and refilled meanwhile: kept is what it found of the refill. */
  ghost function StaleSwapped(a: Account, projectId: string, compacted: seq<BufferEntry>, kept: seq<BufferEntry>)
    : Account
  {
    a.(content := a.content[projectId := compacted + kept],
       lost := More(a.lost, projectId, Missing(Of(a.content, projectId), kept)))
  }

  lemma StaleSwapAccounts(a: Account, projectId: string, compacted: seq<BufferEntry>, kept: seq<BufferEntry>)
    requires Accounted(a)
    ensures Accounted(StaleSwapped(a, projectId, compacted, kept))
  {
    var a' := StaleSwapped(a, projectId, compacted, kept);
    MissingMeaning(Of(a.content, projectId), kept);
    forall p, e | e in Of(a'.appended, p) ensures Traced(a', p, e) {
      assert Traced(a, p, e);
    }
  }

  lemma AppendAccounts(a: Account, projectId: string, entry: BufferEntry)
    requires Accounted(a)
    ensures Accounted(Appended(a, projectId, entry))
  {
    var a' := Appended(a, projectId, entry);
    forall p, e | e in Of(a'.appended, p) ensures Traced(a', p, e) {
      if e in Of(a.appended, p) { assert Traced(a, p, e); }
    }
  }

  lemma ClearAccounts(a: Account, projectId: string)
    requires Accounted(a)
    ensures Accounted(Cleared(a, projectId))
  {
  }

  lemma ReadAccounts(a: Account, projectId: string)
    requires Accounted(a)
    ensures Accounted(Read(a, projectId))
  {
  }

  lemma SwapAccounts(a: Account, projectId: string, read: seq<BufferEntry>, since: seq<BufferEntry>,
                     compacted: seq<BufferEntry>)
    requires Accounted(a) && Of(a.content, projectId) == read + since
    requires forall e :: e in read ==> e in Of(a.summarised, projectId)
    ensures Accounted(Swapped(a, projectId, compacted + since))
  {
  }

  /** The pending snapshot is still the head of its file, and what follows is exactly the appends since. */
  ghost predicate HeadIntact(codec: Codec, content: Bytes, offset: nat, since: seq<BufferEntry>) {
    exists base: Bytes :: IsHead(codec, content, offset, since, base)
  }

  ghost predicate IsHead(codec: Codec, content: Bytes, offset: nat, since: seq<BufferEntry>, base: Bytes) {
    |base| == offset && content == base + Printed(codec, since)
  }

  lemma HeadStarts(codec: Codec, content: Bytes)
    ensures HeadIntact(codec, content, |content|, [])
  {
    assert content == content + Printed(codec, []);
    assert IsHead(codec, content, |content|, [], content);
  }

  lemma HeadGrows(codec: Codec, content: Bytes, offset: nat, since: seq<BufferEntry>, entry: BufferEntry)
    requires HeadIntact(codec, content, offset, since)
    ensures HeadIntact(codec, content + Line(codec, entry), offset, since + [entry])
  {
    var base: Bytes :| IsHead(codec, content, offset, since, base);
    assert (since + [entry])[..|since + [entry]| - 1] == since;
    Associates(base, Printed(codec, since), Line(codec, entry));
    assert IsHead(codec, content + Line(codec, entry), offset, since + [entry], base);
  }

  lemma HeadKept(codec: Codec, content: Bytes, offset: nat, since: seq<BufferEntry>)
    requires LineCodec(codec) && HeadIntact(codec, content, offset, since)
    ensures Entries(codec, TailFrom(content, offset)) == since
  {
    var base: Bytes :| IsHead(codec, content, offset, since, base);
    CatchUp(codec, base, since);
  }

  // ---- The invariant of a run, and each step's share of it ----

  /** The bytes on disk hold exactly the plain lists. */
  ghost predicate Agrees(codec: Codec, files: map<string, Bytes>, content: map<string, seq<BufferEntry>>) {
    forall p :: Holds(codec, files, content, p)
  }

  ghost predicate Holds(codec: Codec, files: map<string, Bytes>, content: map<string, seq<BufferEntry>>,
                        projectId: string)
  {
    Entries(codec, FileOf(files, projectId)) == Of(content, projectId)
  }

  /** The pending snapshot heads its file, its entries are on record as read, and the rest came since. */
  ghost predicate Intact(codec: Codec, files: map<string, Bytes>, a: Account, p: Pending, since: seq<BufferEntry>) {
    && p.projectId in files && HeadIntact(codec, files[p.projectId], p.offset, since)
    && Of(a.content, p.projectId) == p.entries + since
    && forall e :: e in p.entries ==> e in Of(a.summarised, p.projectId)
  }

  lemma SetAgrees(codec: Codec, files: map<string, Bytes>, content: map<string, seq<BufferEntry>>, projectId: string,
                  file: Bytes, entries: seq<BufferEntry>)
    requires Agrees(codec, files, content) && Entries(codec, file) == entries
    ensures Agrees(codec, files[projectId := file], content[projectId := entries])
  {
    var files', content' := files[projectId := file], content[projectId := entries];
    forall q ensures Holds(codec, files', content', q) {
      assert Holds(codec, files, content, q);
    }
  }

  lemma RemoveAgrees(codec: Codec, files: map<string, Bytes>, content: map<string, seq<BufferEntry>>, projectId: string)
    requires Agrees(codec, files, content)
    ensures Agrees(codec, files - {projectId}, content[projectId := []])
  {
    hide Entries;
    NoEntries(codec);
    var files', content' := files - {projectId}, content[projectId := []];
    forall q ensures Holds(codec, files', content', q) {
      assert Holds(codec, files, content, q);
    }
  }

  lemma AppendAgrees(codec: Codec, files: map<string, Bytes>, content: map<string, seq<BufferEntry>>, projectId: string,
                     entry: BufferEntry)
    requires LineCodec(codec) && WholeLines(FileOf(files, projectId)) && Agrees(codec, files, content)
    ensures Agrees(codec, files[projectId := FileOf(files, projectId) + Line(codec, entry)],
                   More(content, projectId, [entry]))
  {
    EntriesSnoc(codec, FileOf(files, projectId), entry);
    assert Holds(codec, files, content, projectId);
    SetAgrees(codec, files, content, projectId, FileOf(files, projectId) + Line(codec, entry),
              Of(content, projectId) + [entry]);
  }

  lemma AppendIntact(codec: Codec, files: map<string, Bytes>, a: Account, p: Pending, since: seq<BufferEntry>,
                     projectId: string, entry: BufferEntry)
    requires Intact(codec, files, a, p, since)
    ensures Intact(codec, files[projectId := FileOf(files, projectId) + Line(codec, entry)],
                   Appended(a, projectId, entry), p,
                   if projectId == p.projectId then since + [entry] else since)
  {
    if projectId == p.projectId {
      HeadGrows(codec, files[projectId], p.offset, since, entry);
      Associates(p.entries, since, [entry]);
    }
  }

  lemma ClearIntact(codec: Codec, files: map<string, Bytes>, a: Account, p: Pending, since: seq<BufferEntry>,
                    projectId: string)
    requires Intact(codec, files, a, p, since) && projectId != p.projectId
    ensures Intact(codec, files - {projectId}, Cleared(a, projectId), p, since)
  {
  }

  lemma StartIntact(codec: Codec, files: map<string, Bytes>, a: Account, p: Pending)
    requires Agrees(codec, files, a.content) && p.projectId in files
    requires p.entries == Entries(codec, files[p.projectId]) && p.offset == |files[p.projectId]|
    ensures Intact(codec, files, Read(a, p.projectId), p, []) && Agrees(codec, files, Read(a, p.projectId).content)
  {
    HeadStarts(codec, files[p.projectId]);
    assert Holds(codec, files, a.content, p.projectId);
  }

  lemma SwapAgrees(codec: Codec, files: map<string, Bytes>, a: Account, p: Pending,
                   since: seq<BufferEntry>, compacted: seq<BufferEntry>)
    requires LineCodec(codec) && Accounted(a) && Agrees(codec, files, a.content) && Intact(codec, files, a, p, since)
    ensures Entries(codec, FileOf(SwappedFile(codec, files, p, compacted), p.projectId)) == compacted + since
    ensures Agrees(codec, SwappedFile(codec, files, p, compacted), Swapped(a, p.projectId, compacted + since).content)
    ensures Accounted(Swapped(a, p.projectId, compacted + since))
  {
    HeadKept(codec, files[p.projectId], p.offset, since);
    SwapAccounts(a, p.projectId, p.entries, since, compacted);
    PrintedParses(codec, compacted + since);
    SetAgrees(codec, files, a.content, p.projectId, Printed(codec, compacted + since), compacted + since);
  }

  /**
   * A clear overtook the pending swap: the file holds exactly what was appended since that clear, and without such an
   * append there is none.
   */
  ghost predicate Refilled(codec: Codec, files: map<string, Bytes>, a: Account, p: Pending, since: seq<BufferEntry>) {
    && FileOf(files, p.projectId) == Printed(codec, since) && Of(a.content, p.projectId) == since
    && (p.projectId in files <==> since != [])
  }

  /** The bytes hold the plain lists, and a pending swap finds its snapshot at the head unless it was overtaken. */
  ghost predicate Tracked(codec: Codec, files: map<string, Bytes>, a: Account, pending: Option<Pending>,
                          since: seq<BufferEntry>, overtaken: bool)
  {
    && Agrees(codec, files, a.content)
    && (pending.Some? && !overtaken ==> Intact(codec, files, a, pending.value, since))
    && (pending.Some? && overtaken ==> Refilled(codec, files, a, pending.value, since))
  }

  lemma RefilledGrows(codec: Codec, files: map<string, Bytes>, a: Account, p: Pending, since: seq<BufferEntry>,
                      projectId: string, entry: BufferEntry)
    requires Refilled(codec, files, a, p, since)
    ensures Refilled(codec, files[projectId := FileOf(files, projectId) + Line(codec, entry)],
                     Appended(a, projectId, entry), p,
                     if projectId == p.projectId then since + [entry] else since)
  {
    assert (since + [entry])[..|since|] == since;
  }

  lemma TrackAppend(codec: Codec, files: map<string, Bytes>, a: Account, pending: Option<Pending>,
                    since: seq<BufferEntry>, overtaken: bool, projectId: string, entry: BufferEntry)
    requires LineCodec(codec) && WholeLines(FileOf(files, projectId))
    requires Tracked(codec, files, a, pending, since, overtaken)
    ensures Tracked(codec, files[projectId := FileOf(files, projectId) + Line(codec, entry)],
                    Appended(a, projectId, entry), pending,
                    SinceAfter(pending, since, projectId, entry), overtaken)
  {
    hide Entries, Agrees, Intact, Refilled;
    AppendAgrees(codec, files, a.content, projectId, entry);
    if pending.Some? {
      if overtaken {
        RefilledGrows(codec, files, a, pending.value, since, projectId, entry);
      } else {
        AppendIntact(codec, files, a, pending.value, since, projectId, entry);
      }
    }
  }

  ghost function SinceAfter(pending: Option<Pending>, since: seq<BufferEntry>, projectId: string, entry: BufferEntry)
    : seq<BufferEntry>
  {
    if pending.Some? && projectId == pending.value.projectId then since + [entry] else since
  }

  lemma TrackStart(codec: Codec, files: map<string, Bytes>, a: Account, p: Pending, since: seq<BufferEntry>,
                   overtaken: bool)
    requires Tracked(codec, files, a, None, since, overtaken)
    requires p.entries == Entries(codec, FileOf(files, p.projectId)) && p.offset == |FileOf(files, p.projectId)|
    requires p.entries != []
    ensures Tracked(codec, files, Read(a, p.projectId), Some(p), [], false)
  {
    NoEntries(codec);
    StartIntact(codec, files, a, p);
  }

  lemma TrackClear(codec: Codec, files: map<string, Bytes>, a: Account, pending: Option<Pending>,
                   since: seq<BufferEntry>, overtaken: bool, projectId: string)
    requires Tracked(codec, files, a, pending, since, overtaken)
    ensures Overtakes(pending, projectId) ==>
              Tracked(codec, files - {projectId}, Cleared(a, projectId), pending, [], true)
    ensures !Overtakes(pending, projectId) ==>
              Tracked(codec, files - {projectId}, Cleared(a, projectId), pending, since, overtaken)
  {
    hide Entries, Agrees;
    RemoveAgrees(codec, files, a.content, projectId);
    if pending.Some? && !overtaken && !Overtakes(pending, projectId) {
      ClearIntact(codec, files, a, pending.value, since, projectId);
    }
  }

  ghost predicate Overtakes(pending: Option<Pending>, projectId: string) {
    pending.Some? && pending.value.projectId == projectId
  }

  /** What an overtaken swap makes of the files and the account. */
  lemma StaleSwapAgrees(codec: Codec, files: map<string, Bytes>, a: Account, p: Pending, since: seq<BufferEntry>,
                        compacted: seq<BufferEntry>, kept: seq<BufferEntry>)
    requires LineCodec(codec) && Accounted(a) && Tracked(codec, files, a, Some(p), since, true)
    requires kept == Entries(codec, TailFrom(FileOf(files, p.projectId), p.offset))
    ensures Entries(codec, FileOf(SwappedFile(codec, files, p, compacted), p.projectId)) == compacted + kept
    ensures Agrees(codec, SwappedFile(codec, files, p, compacted),
                   StaleSwapped(a, p.projectId, compacted, kept).content)
    ensures Accounted(StaleSwapped(a, p.projectId, compacted, kept))
  {
    hide Entries, Agrees, Accounted;
    StaleSwapAccounts(a, p.projectId, compacted, kept);
    PrintedParses(codec, compacted + kept);
    SetAgrees(codec, files, a.content, p.projectId, Printed(codec, compacted + kept), compacted + kept);
  }

  datatype Action =
    | Append(projectId: string, entry: BufferEntry)
    | Clear(projectId: string)
    | Start(projectId: string)
    | Finish(reply: Option<seq<BufferEntry>>, ioFault: bool)

  /** One moment of a run: the account, the compaction under way, and what came since its snapshot. */
  datatype Moment = Moment(account: Account, pending: Option<Pending>, since: seq<BufferEntry>, overtaken: bool)

  /** A compaction of the project starts: none is under way, and the buffer is not empty. */
  ghost predicate Begins(m: Moment, projectId: string) {
    m.pending.None? && Safe(projectId) && Of(m.account.content, projectId) != []
  }

  /** A swap finds its file, unless a clear removed it and nothing has been appended since. */
  ghost predicate Lands(m: Moment, ioFault: bool) {
    !ioFault && !(m.overtaken && m.since == [])
  }

  /** What one action makes of a run, told on plain lists. */
  ghost predicate Moves(codec: Codec, config: Config, before: Moment, action: Action, after: Moment) {
    match action
    case Append(p, entry) =>
      after == if !Safe(p) then before
               else before.(account := Appended(before.account, p, entry),
                            since := SinceAfter(before.pending, before.since, p, entry))
    case Clear(p) => after == if Safe(p) then ClearedMoment(before, p) else before
    case Start(p) => if Begins(before, p) then Started(before, p, after) else after == before
    case Finish(reply, ioFault) =>
      if before.pending.None? then after == before
      else Finished(codec, config, before, before.pending.value, reply, ioFault, after)
  }

  /** Only the cleared buffer is emptied, and what it held is on record. */
  ghost function ClearedMoment(m: Moment, projectId: string): Moment {
    var account := Cleared(m.account, projectId);
    if Overtakes(m.pending, projectId) then Moment(account, m.pending, [], true) else m.(account := account)
  }

  /** The whole buffer is on record as read, and no buffer changes. */
  ghost predicate Started(before: Moment, projectId: string, after: Moment) {
    && after.account == Read(before.account, projectId) && after.since == [] && !after.overtaken
    && after.pending.Some? && after.pending.value.projectId == projectId
    && after.pending.value.entries == Of(before.account.content, projectId)
  }

  /** The swap lands, or no buffer and no record changes. */
  ghost predicate Finished(codec: Codec, config: Config, before: Moment, p: Pending, reply: Option<seq<BufferEntry>>,
                           ioFault: bool, after: Moment)
  {
    && after.pending.None? && after.since == before.since && after.overtaken == before.overtaken
    && if Lands(before, ioFault)
       then exists compacted, kept :: Swaps(codec, config, before, p, reply, compacted, kept, after.account)
       else after.account == before.account
  }

  ghost predicate Swaps(codec: Codec, config: Config, m: Moment, p: Pending, reply: Option<seq<BufferEntry>>,
                        compacted: seq<BufferEntry>, kept: seq<BufferEntry>, account: Account)
  {
    && Chosen(config, p, reply, compacted)
    && account == AfterSwap(m.account, p, m.since, m.overtaken, compacted, kept)
    && (m.overtaken && SuffixFree(codec) ==> kept == m.since[StartedBefore(codec, m.since, p.offset)..])
  }

  /** Appends, clears and the two halves of compactions, in any order. */
  class BufferRun {
    const store: Store
    const worker: CompactionWorker
    ghost var account: Account
    // What was appended to the pending buffer since its snapshot, or since the last clear that overtook its swap.
    ghost var since: seq<BufferEntry>
    ghost var overtaken: bool

    ghost predicate Valid()
      reads this, store, worker
    {
      && worker.store == store && store.Valid() && Accounted(account)
      && (worker.pending.Some? ==> Safe(worker.pending.value.projectId))
      && Tracked(store.codec, store.files, account, worker.pending, since, overtaken)
    }

    ghost function Now(): Moment
      reads this, worker`pending
    {
      Moment(account, worker.pending, since, overtaken)
    }

    /** A clear hit this buffer while its swap was pending. */
    ghost predicate Overtaken(projectId: string)
      reads this`overtaken, worker`pending
    {
      overtaken && Overtakes(worker.pending, projectId)
    }

    constructor (store: Store, worker: CompactionWorker)
      requires store.Valid() && worker.store == store && worker.pending.None?
      ensures Valid() && this.store == store && this.worker == worker && account == Found(store.codec, store.files)
      ensures forall p :: !Overtaken(p)
    {
      this.store, this.worker := store, worker;
      account, since, overtaken := Found(store.codec, store.files), [], false;
      new;
      NoEntries(store.codec);
    }

    method Append(projectId: string, entry: BufferEntry) returns (result: Result<nat>)
      requires Valid()
      modifies this, store`files
      ensures Valid() && (result.Returned? <==> Safe(projectId))
      ensures Moves(store.codec, worker.config, old(Now()), Action.Append(projectId, entry), Now())
    {
      hide Entries, Tracked, Accounted;
      if Safe(projectId) {
        TrackAppend(store.codec, store.files, account, worker.pending, since, overtaken, projectId, entry);
        since := SinceAfter(worker.pending, since, projectId, entry);
      }
      AppendAccounts(account, projectId, entry);
      result := store.Append(projectId, entry);
      account := if result.Returned? then Appended(account, projectId, entry) else account;
    }

    method Clear(projectId: string) returns (result: Result<bool>)
      requires Valid()
      modifies this, store`files
      ensures Valid() && (result.Returned? <==> Safe(projectId))
      ensures Moves(store.codec, worker.config, old(Now()), Action.Clear(projectId), Now())
    {
      hide Entries, Tracked, Accounted;
      if !Safe(projectId) { return Threw; }
      TrackClear(store.codec, store.files, account, worker.pending, since, overtaken, projectId);
      ClearAccounts(account, projectId);
      result := store.Clear(projectId);
      account := Cleared(account, projectId);
      if Overtakes(worker.pending, projectId) {
        since, overtaken := [], true;
      }
    }

    method Start(projectId: string) returns (notice: Option<Notice>)
      requires Valid()
      modifies this, worker`pending
      ensures Valid() && (notice.None? <==> Begins(old(Now()), projectId))
      ensures notice.None? ==>
                worker.pending == Some(Pending(projectId, store.Buffered(projectId), |store.Content(projectId)|,
                                               worker.Failures(projectId)))
      ensures Moves(store.codec, worker.config, old(Now()), Action.Start(projectId), Now())
    {
      hide Entries, Tracked, Accounted;
      BufferedIsContent(store.codec, store.files, account, worker.pending, since, overtaken, projectId);
      ghost var p := Pending(projectId, store.Buffered(projectId), |store.Content(projectId)|,
                             worker.Failures(projectId));
      if worker.pending.None? && p.entries != [] {
        TrackStart(store.codec, store.files, account, p, since, overtaken);
        ReadAccounts(account, projectId);
      }
      notice := worker.Compact(projectId);
      if notice.Some? { return; }
      account := Read(account, projectId);
      since, overtaken := [], false;
    }

    /** The end of a compaction, whether or not its buffer was cleared meanwhile. */
    method Finish(reply: Option<seq<BufferEntry>>, ioFault: bool)
      returns (notice: Notice, ghost compacted: seq<BufferEntry>)
      requires Valid() && worker.pending.Some?
      modifies this, worker`pending, worker`modelFailures, store`files
      ensures Valid() && worker.pending.None?
      ensures notice.projectId == old(worker.pending.value.projectId)
      ensures notice.success <==> Lands(old(Now()), ioFault)
      ensures Chosen(worker.config, old(worker.pending.value), reply, compacted)
      ensures Moves(store.codec, worker.config, old(Now()), Action.Finish(reply, ioFault), Now())
      // Without a clear in between: exactly the compacted entries, then every append since the snapshot, in order.
      ensures !old(overtaken) && notice.success ==> store.Buffered(notice.projectId) == compacted + old(since)
      // With one: of the appends since that clear, those whose line starts before the snapshot's end are gone.
      ensures old(overtaken) && notice.success && SuffixFree(store.codec) ==>
                store.Buffered(notice.projectId) ==
                compacted + old(since)[StartedBefore(store.codec, old(since), old(worker.pending.value.offset))..]
    {
      hide Entries, Tracked, Accounted, Chosen, SuffixFree;
      ghost var p, files, before := worker.pending.value, store.files, Now();
      ghost var kept := Entries(store.codec, TailFrom(FileOf(files, p.projectId), p.offset));
      notice, compacted := worker.Finish(reply, ioFault);
      SwapTracks(store.codec, files, account, p, since, overtaken, compacted, kept);
      SwapFinds(store.codec, files, account, p, since, overtaken);
      if notice.success {
        account := AfterSwap(account, p, since, overtaken, compacted, kept);
        assert Swaps(store.codec, worker.config, before, p, reply, compacted, kept, account);
      }
    }
  }

  /** The account after a swap. */
  ghost function AfterSwap(a: Account, p: Pending, since: seq<BufferEntry>, overtaken: bool,
                           compacted: seq<BufferEntry>, kept: seq<BufferEntry>): Account
  {
    if overtaken then StaleSwapped(a, p.projectId, compacted, kept) else Swapped(a, p.projectId, compacted + since)
  }

  /** Both outcomes of a swap, with and without a clear in between. */
  lemma SwapTracks(codec: Codec, files: map<string, Bytes>, a: Account, p: Pending, since: seq<BufferEntry>,
                   overtaken: bool, compacted: seq<BufferEntry>, kept: seq<BufferEntry>)
    requires LineCodec(codec) && Accounted(a) && Tracked(codec, files, a, Some(p), since, overtaken)
    requires kept == Entries(codec, TailFrom(FileOf(files, p.projectId), p.offset))
    ensures Tracked(codec, SwappedFile(codec, files, p, compacted), AfterSwap(a, p, since, overtaken, compacted, kept),
                    None, since, overtaken)
    ensures Accounted(AfterSwap(a, p, since, overtaken, compacted, kept))
    ensures Entries(codec, FileOf(SwappedFile(codec, files, p, compacted), p.projectId)) ==
              compacted + if overtaken then kept else since
  {
    hide Entries, Agrees, Accounted, SuffixFree;
    if overtaken {
      StaleSwapAgrees(codec, files, a, p, since, compacted, kept);
    } else {
      SwapAgrees(codec, files, a, p, since, compacted);
    }
  }

  /** What a swap that is still pending finds of its buffer. */
  lemma SwapFinds(codec: Codec, files: map<string, Bytes>, a: Account, p: Pending, since: seq<BufferEntry>,
                  overtaken: bool)
    requires LineCodec(codec) && Tracked(codec, files, a, Some(p), since, overtaken)
    ensures Tracked(codec, files, a, None, since, overtaken)
    ensures p.projectId in files <==> !(overtaken && since == [])
    ensures overtaken && SuffixFree(codec) ==>
              Entries(codec, TailFrom(FileOf(files, p.projectId), p.offset)) ==
              since[StartedBefore(codec, since, p.offset)..]
  {
    hide Entries, Agrees, SuffixFree;
    if overtaken && SuffixFree(codec) { StaleOffset(codec, since, p.offset); }
  }

  ghost function AppendedBy(before: map<string, seq<BufferEntry>>, actions: seq<Action>)
    : map<string, seq<BufferEntry>>
  {
    if actions == [] then before
    else
      var earlier := AppendedBy(before, actions[..|actions| - 1]);
      match actions[|actions| - 1]
      case Append(p, entry) => if Safe(p) then More(earlier, p, [entry]) else earlier
      case _ => earlier
  }

  method Step(run: BufferRun, action: Action)
    requires run.Valid()
    modifies run, run.store, run.worker
    ensures run.Valid() && Moves(run.store.codec, run.worker.config, old(run.Now()), action, run.Now())
  {
    hide Entries, Tracked, Accounted, LineCodec, WholeLines, Started, ClearedMoment, Finished, Begins;
    match action {
      case Append(p, entry) => var _ := run.Append(p, entry);
      case Clear(p) => var _ := run.Clear(p);
      case Start(p) => var _ := run.Start(p);
      case Finish(reply, ioFault) =>
        if run.worker.pending.Some? { var _, _ := run.Finish(reply, ioFault); }
    }
  }

  /** The moments of a run, from before its first action to after its last. */
  ghost predicate History(codec: Codec, config: Config, moments: seq<Moment>, actions: seq<Action>) {
    && |moments| == |actions| + 1
    && forall i :: 0 <= i < |actions| ==> Moves(codec, config, moments[i], actions[i], moments[i + 1])
  }

  /** What the compactions of a project read: its whole buffer, each time one starts. */
  ghost function ReadBy(moments: seq<Moment>, actions: seq<Action>, projectId: string): seq<BufferEntry>
    requires |moments| == |actions| + 1
  {
    if actions == [] then []
    else
      var n := |actions| - 1;
      ReadBy(moments[..n + 1], actions[..n], projectId) + ReadAt(moments[n], actions[n], projectId)
  }

  ghost function ReadAt(m: Moment, action: Action, projectId: string): seq<BufferEntry> {
    if action == Start(projectId) && Begins(m, projectId) then Of(m.account.content, projectId) else []
  }

  /** What the clears of a project dropped: its whole buffer, each time one comes. */
  ghost function ClearedBy(moments: seq<Moment>, actions: seq<Action>, projectId: string): seq<BufferEntry>
    requires |moments| == |actions| + 1
  {
    if actions == [] then []
    else
      var n := |actions| - 1;
      ClearedBy(moments[..n + 1], actions[..n], projectId) + ClearedAt(moments[n], actions[n], projectId)
  }

  ghost function ClearedAt(m: Moment, action: Action, projectId: string): seq<BufferEntry> {
    if action == Clear(projectId) && Safe(projectId) then Of(m.account.content, projectId) else []
  }

  lemma OfMore(m: map<string, seq<BufferEntry>>, p: string, entries: seq<BufferEntry>, q: string)
    ensures Of(More(m, p, entries), q) == Of(m, q) + if p == q then entries else []
  {
  }

  lemma HistoryCut(codec: Codec, config: Config, moments: seq<Moment>, actions: seq<Action>)
    requires History(codec, config, moments, actions) && actions != []
    ensures History(codec, config, moments[..|actions|], actions[..|actions| - 1])
    ensures Moves(codec, config, moments[|actions| - 1], actions[|actions| - 1], moments[|actions|])
  {
    hide Moves;
  }

  /** Only a compaction that starts on the project puts entries on record as read. */
  lemma MoveReads(codec: Codec, config: Config, before: Moment, action: Action, after: Moment, projectId: string)
    requires Moves(codec, config, before, action, after)
    ensures Of(after.account.summarised, projectId) ==
            Of(before.account.summarised, projectId) + ReadAt(before, action, projectId)
  {
    hide Finished, Of, More, Begins, SinceAfter, Overtakes;
    var read := before.account.summarised;
    if action.Finish? && before.pending.Some? {
      FinishRecords(codec, config, before, action.reply, action.ioFault, after, projectId);
    }
    if action.Start? { OfMore(read, action.projectId, Of(before.account.content, action.projectId), projectId); }
    assert Of(read, projectId) == Of(read, projectId) + [];
  }

  /** Only a clear of the project puts entries on record as cleared. */
  lemma MoveClears(codec: Codec, config: Config, before: Moment, action: Action, after: Moment, projectId: string)
    requires Moves(codec, config, before, action, after)
    ensures Of(after.account.cleared, projectId) ==
            Of(before.account.cleared, projectId) + ClearedAt(before, action, projectId)
  {
    hide Finished, Of, More, Begins, SinceAfter, Overtakes;
    var cleared := before.account.cleared;
    if action.Finish? && before.pending.Some? {
      FinishRecords(codec, config, before, action.reply, action.ioFault, after, projectId);
    }
    if action.Clear? { OfMore(cleared, action.projectId, Of(before.account.content, action.projectId), projectId); }
    assert Of(cleared, projectId) == Of(cleared, projectId) + [];
  }

  /** Only a clear of the project makes its swap stale, and only a stale swap loses entries. */
  lemma MoveLoses(codec: Codec, config: Config, before: Moment, action: Action, after: Moment, projectId: string)
    requires Moves(codec, config, before, action, after)
    requires action != Clear(projectId) && !OvertakenAt(before, projectId)
    ensures !OvertakenAt(after, projectId) && Of(after.account.lost, projectId) == Of(before.account.lost, projectId)
  {
    hide Finished, Of, More, Begins, SinceAfter;
    if action.Finish? && before.pending.Some? {
      FinishRecords(codec, config, before, action.reply, action.ioFault, after, projectId);
    }
  }

  lemma FinishRecords(codec: Codec, config: Config, before: Moment, reply: Option<seq<BufferEntry>>, ioFault: bool,
                      after: Moment, projectId: string)
    requires before.pending.Some? && Finished(codec, config, before, before.pending.value, reply, ioFault, after)
    ensures after.account.summarised == before.account.summarised && after.account.cleared == before.account.cleared
    ensures !OvertakenAt(after, projectId)
    ensures !OvertakenAt(before, projectId) ==>
              Of(after.account.lost, projectId) == Of(before.account.lost, projectId)
  {
    hide SuffixFree, StartedBefore, Chosen, Of, More, Missing;
    if Lands(before, ioFault) {
      var p := before.pending.value;
      var compacted, kept :| Swaps(codec, config, before, p, reply, compacted, kept, after.account);
      if before.overtaken {
        var gone := Missing(Of(before.account.content, p.projectId), kept);
        OfMore(before.account.lost, p.projectId, gone, projectId);
        assert Of(before.account.lost, projectId) == Of(before.account.lost, projectId) + [];
      }
    }
  }

  /** A clear hit this buffer while its swap was pending. */
  ghost predicate OvertakenAt(m: Moment, projectId: string) {
    m.overtaken && Overtakes(m.pending, projectId)
  }

  lemma MoveAppends(codec: Codec, config: Config, before: Moment, action: Action, after: Moment)
    requires Moves(codec, config, before, action, after)
    ensures after.account.appended == match action
              case Append(p, entry) =>
                  if Safe(p) then More(before.account.appended, p, [entry]) else before.account.appended
              case _ => before.account.appended
  {
    hide SuffixFree, StartedBefore, Chosen;
  }

  lemma {:induction false} RunAppends(codec: Codec, config: Config, moments: seq<Moment>, actions: seq<Action>)
    requires History(codec, config, moments, actions)
    ensures moments[|actions|].account.appended == AppendedBy(moments[0].account.appended, actions)
  {
    hide Moves, More;
    if actions == [] {
    } else {
      var n := |actions| - 1;
      HistoryCut(codec, config, moments, actions);
      RunAppends(codec, config, moments[..n + 1], actions[..n]);
      MoveAppends(codec, config, moments[n], actions[n], moments[n + 1]);
    }
  }

  /** Over any run the records grow by exactly what the compactions read and the clears dropped, in order. */
  lemma {:induction false} RunRecords(codec: Codec, config: Config, moments: seq<Moment>, actions: seq<Action>,
                                      projectId: string)
    requires History(codec, config, moments, actions)
    ensures Of(moments[|actions|].account.summarised, projectId) ==
            Of(moments[0].account.summarised, projectId) + ReadBy(moments, actions, projectId)
    ensures Of(moments[|actions|].account.cleared, projectId) ==
            Of(moments[0].account.cleared, projectId) + ClearedBy(moments, actions, projectId)
  {
    hide Moves, Of, ReadAt, ClearedAt;
    if actions == [] {
    } else {
      var n := |actions| - 1;
      HistoryCut(codec, config, moments, actions);
      RunRecords(codec, config, moments[..n + 1], actions[..n], projectId);
      MoveReads(codec, config, moments[n], actions[n], moments[n + 1], projectId);
      MoveClears(codec, config, moments[n], actions[n], moments[n + 1], projectId);
      Associates(Of(moments[0].account.summarised, projectId), ReadBy(moments[..n + 1], actions[..n], projectId),
                 ReadAt(moments[n], actions[n], projectId));
      Associates(Of(moments[0].account.cleared, projectId), ClearedBy(moments[..n + 1], actions[..n], projectId),
                 ClearedAt(moments[n], actions[n], projectId));
    }
  }

  lemma {:induction false} NothingCleared(moments: seq<Moment>, actions: seq<Action>, projectId: string)
    requires |moments| == |actions| + 1 && Clear(projectId) !in actions
    ensures ClearedBy(moments, actions, projectId) == []
  {
    if actions == [] {
    } else {
      var n := |actions| - 1;
      assert actions[n] in actions && Clear(projectId) !in actions[..n];
      NothingCleared(moments[..n + 1], actions[..n], projectId);
    }
  }

  /** No stale swap hits a project that the run never clears. */
  lemma {:induction false} UnclearedRun(codec: Codec, config: Config, moments: seq<Moment>, actions: seq<Action>,
                                        projectId: string)
    requires History(codec, config, moments, actions)
    requires Clear(projectId) !in actions && !OvertakenAt(moments[0], projectId)
    ensures !OvertakenAt(moments[|actions|], projectId)
    ensures Of(moments[|actions|].account.lost, projectId) == Of(moments[0].account.lost, projectId)
  {
    hide Moves, Of, More, OvertakenAt;
    if actions == [] {
    } else {
      var n := |actions| - 1;
      HistoryCut(codec, config, moments, actions);
      assert actions[n] in actions && Clear(projectId) !in actions[..n];
      UnclearedRun(codec, config, moments[..n + 1], actions[..n], projectId);
      MoveLoses(codec, config, moments[n], actions[n], moments[n + 1], projectId);
    }
  }

  /**
   * Appends and compactions lose nothing: over a run that never clears a project, whatever was appended to it is
   * still buffered or was in the snapshot of one of the run's compactions, unless it had left before the run.
   */
  lemma NothingLeavesUnread(codec: Codec, config: Config, moments: seq<Moment>, actions: seq<Action>,
                            projectId: string, e: BufferEntry)
    requires History(codec, config, moments, actions) && Accounted(moments[|actions|].account)
    requires Clear(projectId) !in actions && !OvertakenAt(moments[0], projectId)
    requires e in Of(AppendedBy(moments[0].account.appended, actions), projectId)
    ensures || e in Of(moments[|actions|].account.content, projectId)
            || e in ReadBy(moments, actions, projectId)
            || HadLeft(moments[0].account, projectId, e)
  {
    hide Moves, More;
    RunAppends(codec, config, moments, actions);
    RunRecords(codec, config, moments, actions, projectId);
    NothingCleared(moments, actions, projectId);
    UnclearedRun(codec, config, moments, actions, projectId);
    assert Traced(moments[|actions|].account, projectId, e);
  }

  /** The entry was on record as read, cleared or lost. */
  ghost predicate HadLeft(a: Account, projectId: string, e: BufferEntry) {
    e in Of(a.summarised, projectId) || e in Of(a.cleared, projectId) || e in Of(a.lost, projectId)
  }

  /**
   * Any schedule is a history on plain lists, and the files hold those lists. Every appended entry is buffered, was
   * read by a compaction, was cleared, or fell to a swap that a clear had overtaken.
   */
  method RunSchedule(run: BufferRun, actions: seq<Action>) returns (ghost moments: seq<Moment>)
    requires run.Valid()
    modifies run, run.store, run.worker
    ensures run.Valid()
    ensures History(run.store.codec, run.worker.config, moments, actions)
    ensures moments[0] == old(run.Now()) && moments[|actions|] == run.Now()
    ensures forall p :: run.store.Buffered(p) == Of(run.account.content, p)
    ensures run.account.appended == AppendedBy(old(run.account.appended), actions)
    ensures forall p, e :: e in Of(run.account.appended, p) ==>
              || e in run.store.Buffered(p) || e in Of(run.account.summarised, p)
              || e in Of(run.account.cleared, p) || e in Of(run.account.lost, p)
    ensures forall p, e :: Clear(p) !in actions && !old(run.Overtaken(p)) && e in Of(run.account.appended, p) ==>
              || e in run.store.Buffered(p) || e in ReadBy(moments, actions, p) || HadLeft(old(run.account), p, e)
  {
    hide Entries, Tracked, LineCodec, WholeLines, Of, Moves, More, HadLeft, Begins;
    moments := [run.Now()];
    var i := 0;
    while i < |actions|
      invariant 0 <= i <= |actions| && run.Valid()
      invariant History(run.store.codec, run.worker.config, moments, actions[..i])
      invariant moments[0] == old(run.Now()) && moments[i] == run.Now()
    {
      Step(run, actions[i]);
      moments := moments + [run.Now()];
      i := i + 1;
    }
    assert actions[..i] == actions;
    RunAppends(run.store.codec, run.worker.config, moments, actions);
    forall p ensures run.store.Buffered(p) == Of(run.account.content, p) {
      BufferedIsContent(run.store.codec, run.store.files, run.account, run.worker.pending, run.since, run.overtaken, p);
    }
    forall p, e | e in Of(run.account.appended, p) ensures Traced(run.account, p, e) {
    }
    forall p, e | Clear(p) !in actions && !old(run.Overtaken(p)) && e in Of(run.account.appended, p)
      ensures e in Of(run.account.content, p) || e in ReadBy(moments, actions, p) || HadLeft(old(run.account), p, e)
    {
      NothingLeavesUnread(run.store.codec, run.worker.config, moments, actions, p, e);
    }
  }

  lemma BufferedIsContent(codec: Codec, files: map<string, Bytes>, a: Account, pending: Option<Pending>,
                          since: seq<BufferEntry>, overtaken: bool, projectId: string)
    requires Tracked(codec, files, a, pending, since, overtaken)
    ensures Entries(codec, FileOf(files, projectId)) == Of(a.content, projectId)
  {
    assert Holds(codec, files, a.content, projectId);
  }
}
