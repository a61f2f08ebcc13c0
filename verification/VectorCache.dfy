/** The per-namespace vector index cache and its epoch protocol under overlapping loads, writes and invalidations. */
module VectorCache {
  import opened MemoryTypes
  import opened Cosine
  import opened Storage

  const EMBEDDING_BLOB_BYTES := 1536
  const MEMORY_PRESSURE_WARN_THRESHOLD_BYTES := 500 * 1024 * 1024
  const METADATA_BULK_FETCH_LIMIT := 100_000

  datatype EmbeddingRow = EmbeddingRow(recordId: string, embedding: Vec)

  datatype Index = Index(namespace: string, epoch: nat, entries: seq<Entry>)

  // ---- What storage answers; rows of one namespace are listed newest first ----

  function ListEmbeddings(rows: seq<Row>): seq<EmbeddingRow> {
    if rows == [] then []
    else ListEmbeddings(rows[..|rows| - 1]) +
         match rows[|rows| - 1].embedding
         case None => []
         case Some(vec) => [EmbeddingRow(rows[|rows| - 1].record.recordId, vec)]
  }

  /** One page of at most METADATA_BULK_FETCH_LIMIT records. */
  function ListRecords(rows: seq<Row>): (page: seq<MemoryRecord>)
    ensures |page| <= METADATA_BULK_FETCH_LIMIT
  {
    var n := Fetched(rows);
    seq(n, i requires 0 <= i < n => rows[i].record)
  }

  // ---- What an index holds ----

  function RecordById(page: seq<MemoryRecord>, id: string): Option<MemoryRecord> {
    if page == [] then None
    else if page[|page| - 1].recordId == id then Some(page[|page| - 1])
    else RecordById(page[..|page| - 1], id)
  }

  /** Embeddings joined with their records; an embedding without a record is skipped. */
  function JoinRows(normalize: Vec -> Vec, embeddings: seq<EmbeddingRow>, page: seq<MemoryRecord>): seq<Entry> {
    if embeddings == [] then []
    else
      var row := embeddings[|embeddings| - 1];
      JoinRows(normalize, embeddings[..|embeddings| - 1], page) +
      match RecordById(page, row.recordId)
      case None => []
      case Some(record) => [Entry(row.recordId, record, normalize(row.embedding))]
  }

  /** What a build with no interference would produce. */
  function FreshEntries(normalize: Vec -> Vec, rows: seq<Row>): seq<Entry> {
    JoinRows(normalize, ListEmbeddings(rows), ListRecords(rows))
  }

  /** Every embedded row, in listing order, with its own record. */
  ghost function EmbeddedRows(normalize: Vec -> Vec, rows: seq<Row>): seq<Entry> {
    if rows == [] then []
    else
      var last := rows[|rows| - 1];
      EmbeddedRows(normalize, rows[..|rows| - 1]) +
      match last.embedding
      case None => []
      case Some(vec) => [Entry(last.record.recordId, last.record, normalize(vec))]
  }

  ghost predicate DistinctRows(rows: seq<Row>) {
    forall i, j :: 0 <= i < j < |rows| ==> rows[i].record.recordId != rows[j].record.recordId
  }

  lemma {:induction false} RecordByIdFinds(page: seq<MemoryRecord>, i: nat)
    requires i < |page| && forall j :: i < j < |page| ==> page[j].recordId != page[i].recordId
    ensures RecordById(page, page[i].recordId) == Some(page[i])
  {
    if i < |page| - 1 { RecordByIdFinds(page[..|page| - 1], i); }
  }

  lemma {:induction false} RecordByIdMisses(page: seq<MemoryRecord>, id: string)
    requires forall j :: 0 <= j < |page| ==> page[j].recordId != id
    ensures RecordById(page, id) == None
  {
    if page == [] {
    } else {
      RecordByIdMisses(page[..|page| - 1], id);
    }
  }

  /** How many rows a build looks at. */
  function Fetched(rows: seq<Row>): (n: nat)
    ensures n <= |rows| && n <= 100_000 && (n == |rows| || n == 100_000)
  {
    if |rows| <= METADATA_BULK_FETCH_LIMIT then |rows| else METADATA_BULK_FETCH_LIMIT
  }

  /** A build holds exactly the embedded rows among the first hundred thousand listed. */
  lemma FreshIsFirst(normalize: Vec -> Vec, rows: seq<Row>)
    requires DistinctRows(rows)
    ensures FreshEntries(normalize, rows) == EmbeddedRows(normalize, rows[..Fetched(rows)])
  {
    FreshPrefix(normalize, rows, |rows|);
    assert rows[..|rows|] == rows;
  }

  /** Up to the bulk limit a build drops nothing: the index is exactly the embedded rows. */
  lemma FreshIsComplete(normalize: Vec -> Vec, rows: seq<Row>)
    requires DistinctRows(rows) && |rows| <= METADATA_BULK_FETCH_LIMIT
    ensures FreshEntries(normalize, rows) == EmbeddedRows(normalize, rows)
  {
    FreshIsFirst(normalize, rows);
    assert rows[..|rows|] == rows;
  }

  lemma {:induction false} FreshPrefix(normalize: Vec -> Vec, rows: seq<Row>, n: nat)
    requires DistinctRows(rows) && n <= |rows|
    ensures JoinRows(normalize, ListEmbeddings(rows[..n]), ListRecords(rows)) ==
            EmbeddedRows(normalize, rows[..if n <= Fetched(rows) then n else Fetched(rows)])
  {
    hide ListEmbeddings, ListRecords, JoinRows, EmbeddedRows, RecordById;
    if n == 0 {
      NothingFresh(normalize, ListRecords(rows));
    } else {
      FreshPrefix(normalize, rows, n - 1);
      var prefix := rows[..n];
      assert prefix[..|prefix| - 1] == rows[..n - 1] && prefix[|prefix| - 1] == rows[n - 1];
      if n <= Fetched(rows) {
        PageFinds(rows, n - 1);
        FreshStep(normalize, prefix, ListRecords(rows));
      } else {
        PageMisses(rows, n - 1);
        StaleStep(normalize, prefix, ListRecords(rows));
      }
    }
  }

  lemma PageMisses(rows: seq<Row>, i: nat)
    requires DistinctRows(rows) && Fetched(rows) <= i < |rows|
    ensures RecordById(ListRecords(rows), rows[i].record.recordId) == None
  {
    RecordByIdMisses(ListRecords(rows), rows[i].record.recordId);
  }

  /** A row the page does not answer with adds nothing. */
  lemma StaleStep(normalize: Vec -> Vec, rows: seq<Row>, page: seq<MemoryRecord>)
    requires rows != [] && RecordById(page, rows[|rows| - 1].record.recordId) == None
    ensures JoinRows(normalize, ListEmbeddings(rows), page) ==
            JoinRows(normalize, ListEmbeddings(rows[..|rows| - 1]), page)
  {
    var last, before := rows[|rows| - 1], ListEmbeddings(rows[..|rows| - 1]);
    if last.embedding.Some? {
      JoinSnoc(normalize, before, EmbeddingRow(last.record.recordId, last.embedding.value), page);
    } else {
      assert ListEmbeddings(rows) == before;
    }
  }

  lemma NothingFresh(normalize: Vec -> Vec, page: seq<MemoryRecord>)
    ensures JoinRows(normalize, ListEmbeddings([]), page) == EmbeddedRows(normalize, [])
  {
  }

  lemma PageFinds(rows: seq<Row>, i: nat)
    requires DistinctRows(rows) && i < Fetched(rows)
    ensures RecordById(ListRecords(rows), rows[i].record.recordId) == Some(rows[i].record)
  {
    var page := ListRecords(rows);
    assert page[i] == rows[i].record;
    RecordByIdFinds(page, i);
  }

  /** The last row joins with its own record, if the page answers with it. */
  lemma FreshStep(normalize: Vec -> Vec, rows: seq<Row>, page: seq<MemoryRecord>)
    requires rows != []
    requires var last := rows[|rows| - 1]; RecordById(page, last.record.recordId) == Some(last.record)
    requires JoinRows(normalize, ListEmbeddings(rows[..|rows| - 1]), page) ==
              EmbeddedRows(normalize, rows[..|rows| - 1])
    ensures JoinRows(normalize, ListEmbeddings(rows), page) == EmbeddedRows(normalize, rows)
  {
    var last, before := rows[|rows| - 1], ListEmbeddings(rows[..|rows| - 1]);
    if last.embedding.Some? {
      JoinSnoc(normalize, before, EmbeddingRow(last.record.recordId, last.embedding.value), page);
    } else {
      assert ListEmbeddings(rows) == before;
    }
  }

  lemma JoinSnoc(normalize: Vec -> Vec, embeddings: seq<EmbeddingRow>, row: EmbeddingRow, page: seq<MemoryRecord>)
    ensures JoinRows(normalize, embeddings + [row], page) == JoinRows(normalize, embeddings, page) +
              match RecordById(page, row.recordId)
              case None => []
              case Some(record) => [Entry(row.recordId, record, normalize(row.embedding))]
  {
    assert (embeddings + [row])[..|embeddings + [row]| - 1] == embeddings;
  }

  /** Every entry's record is one of these. */
  ghost predicate Draws(entries: seq<Entry>, records: set<MemoryRecord>) {
    forall i :: 0 <= i < |entries| ==> entries[i].record in records
  }

  lemma {:induction false} RecordByIdFrom(page: seq<MemoryRecord>, id: string)
    ensures RecordById(page, id).Some? ==> RecordById(page, id).value in page
  {
    if page == [] {
    } else {
      RecordByIdFrom(page[..|page| - 1], id);
    }
  }

  /** Whatever embeddings were read, an index holds only records of the page it was joined with. */
  lemma {:induction false} JoinFromPage(normalize: Vec -> Vec, embeddings: seq<EmbeddingRow>, page: seq<MemoryRecord>)
    ensures Draws(JoinRows(normalize, embeddings, page), set r | r in page)
  {
    if embeddings == [] {
    } else {
      var n := |embeddings| - 1;
      JoinFromPage(normalize, embeddings[..n], page);
      RecordByIdFrom(page, embeddings[n].recordId);
    }
  }

  // ---- Byte accounting ----

  function BytesOf(entries: nat): nat {
    entries * EMBEDDING_BLOB_BYTES
  }

  lemma BytesAdd(a: nat, b: nat)
    ensures BytesOf(a + b) == BytesOf(a) + BytesOf(b)
  {
  }

  ghost function AnyNamespace(cache: map<string, Index>): (ns: string)
    requires |cache| > 0
    ensures ns in cache
  {
    SomeKey(cache);
    var ns :| ns in cache;
    ns
  }

  lemma SomeKey<V>(m: map<string, V>)
    requires |m| > 0
    ensures exists k :: k in m
  {
    assert |m.Keys| == |m|;
    var k :| k in m.Keys;
  }

  ghost function CachedEntries(cache: map<string, Index>): nat {
    if |cache| == 0 then 0
    else
      var ns := AnyNamespace(cache);
      |cache[ns].entries| + CachedEntries(cache - {ns})
  }

  lemma WithoutBoth(cache: map<string, Index>, a: string, b: string)
    requires a in cache && b in cache && a != b
    ensures cache - {a} - {b} == cache - {b} - {a}
    ensures |cache - {a}| == |cache - {b}| == |cache| - 1
    ensures b in cache - {a} && a in cache - {b}
  {
    assert (cache - {a}).Keys == cache.Keys - {a};
    assert (cache - {b}).Keys == cache.Keys - {b};
    assert |cache.Keys - {a}| == |cache.Keys - {b}| == |cache.Keys| - 1;
  }

  lemma {:induction false} CachedEntriesSplit(cache: map<string, Index>, ns: string)
    requires ns in cache
    ensures CachedEntries(cache) == |cache[ns].entries| + CachedEntries(cache - {ns})
    decreases |cache|
  {
    var other := AnyNamespace(cache);
    if other != ns {
      WithoutBoth(cache, ns, other);
      CachedEntriesSplit(cache - {other}, ns);
      CachedEntriesSplit(cache - {ns}, other);
    }
  }

  lemma PutBack<V>(m: map<string, V>, k: string, v: V)
    ensures (m - {k})[k := v] == m[k := v]
    ensures m[k := v] - {k} == m - {k}
  {
  }

  lemma InstalledEntries(cache: map<string, Index>, ns: string, built: Index)
    ensures CachedEntries(cache[ns := built]) == |built.entries| + CachedEntries(cache - {ns})
  {
    PutBack(cache, ns, built);
    CachedEntriesSplit(cache[ns := built], ns);
  }

  class NamespaceVectorCache {
    const normalize: Vec -> Vec
    var cache: map<string, Index>
    var epochs: map<string, nat>
    var totalBytes: int
    var memoryPressureWarned: bool

    ghost predicate Valid()
      reads this
    {
      && totalBytes == BytesOf(CachedEntries(cache))
      && forall ns :: ns in cache ==> cache[ns].namespace == ns
    }

    constructor (normalize: Vec -> Vec)
      ensures Valid() && cache == map[] && epochs == map[] && this.normalize == normalize
    {
      this.normalize := normalize;
      cache, epochs, totalBytes, memoryPressureWarned := map[], map[], 0, false;
    }

    function CurrentEpoch(namespace: string): nat
      reads this`epochs
    {
      if namespace in epochs then epochs[namespace] else 0
    }

    method ReleaseBytes(index: Index)
      modifies this`totalBytes
      ensures totalBytes ==
                if old(totalBytes) < BytesOf(|index.entries|) then 0 else old(totalBytes) - BytesOf(|index.entries|)
    {
      totalBytes := totalBytes - |index.entries| * EMBEDDING_BLOB_BYTES;
      if totalBytes < 0 {
        totalBytes := 0;
      }
    }

    method AccountBytesAndMaybeWarn(index: Index)
      modifies this`totalBytes, this`memoryPressureWarned
      ensures totalBytes == old(totalBytes) + BytesOf(|index.entries|)
      // Four bytes for each of 384 coordinates; the warning is latched past 500 MiB.
      ensures totalBytes == old(totalBytes) + 4 * 384 * |index.entries|
      ensures memoryPressureWarned <==> old(memoryPressureWarned) || totalBytes > 500 * 1024 * 1024
    {
      totalBytes := totalBytes + |index.entries| * EMBEDDING_BLOB_BYTES;
      if !memoryPressureWarned && totalBytes > MEMORY_PRESSURE_WARN_THRESHOLD_BYTES {
        memoryPressureWarned := true;
      }
    }

    /** Releases and drops one entry, if there is one; the clamp in ReleaseBytes never fires. */
    method Drop(namespace: string)
      requires Valid()
      modifies this`cache, this`totalBytes
      ensures Valid()
      ensures cache == old(cache) - {namespace}
      ensures namespace in old(cache) ==> totalBytes == old(totalBytes) - BytesOf(|old(cache)[namespace].entries|)
    {
      if namespace in cache {
        CachedEntriesSplit(cache, namespace);
        BytesAdd(|cache[namespace].entries|, CachedEntries(cache - {namespace}));
        ReleaseBytes(cache[namespace]);
        cache := cache - {namespace};
      } else {
        assert cache - {namespace} == cache;
      }
    }

    method BuildIndex(namespace: string, startEpoch: nat, embeddings: seq<EmbeddingRow>, page: seq<MemoryRecord>)
      returns (built: Index)
      ensures built == Index(namespace, startEpoch, JoinRows(normalize, embeddings, page))
    {
      var byId: map<string, MemoryRecord> := map[];
      var i := 0;
      while i < |page|
        invariant 0 <= i <= |page|
        invariant forall id :: RecordById(page[..i], id) == if id in byId then Some(byId[id]) else None
      {
        assert page[..i + 1][..i] == page[..i];
        byId := byId[page[i].recordId := page[i]];
        i := i + 1;
      }
      assert page[..i] == page;
      var entries: seq<Entry> := [];
      i := 0;
      while i < |embeddings|
        invariant 0 <= i <= |embeddings|
        invariant entries == JoinRows(normalize, embeddings[..i], page)
      {
        assert embeddings[..i + 1][..i] == embeddings[..i];
        var row := embeddings[i];
        assert RecordById(page, row.recordId) == if row.recordId in byId then Some(byId[row.recordId]) else None;
        if row.recordId in byId {
          entries := entries + [Entry(row.recordId, byId[row.recordId], normalize(row.embedding))];
        }
        i := i + 1;
      }
      assert embeddings[..i] == embeddings;
      return Index(namespace, startEpoch, entries);
    }

    /** After the reads: install, unless an invalidation came in between. */
    method Install(namespace: string, startEpoch: nat, built: Index)
      requires Valid() && built.namespace == namespace
      modifies this`cache, this`totalBytes, this`memoryPressureWarned
      ensures Valid()
      ensures cache == if old(CurrentEpoch(namespace)) == startEpoch then old(cache)[namespace := built] else old(cache)
    {
      if CurrentEpoch(namespace) != startEpoch { return; }
      InstalledEntries(cache, namespace, built);
      BytesAdd(|built.entries|, CachedEntries(cache - {namespace}));
      PutBack(cache, namespace, built);
      Drop(namespace);
      cache := cache[namespace := built];
      AccountBytesAndMaybeWarn(built);
    }

    method Invalidate(namespace: string)
      requires Valid()
      modifies this`cache, this`totalBytes, this`epochs
      ensures Valid()
      ensures cache == old(cache) - {namespace}
      ensures epochs == old(epochs)[namespace := old(CurrentEpoch(namespace)) + 1]
    {
      Drop(namespace);
      epochs := epochs[namespace := CurrentEpoch(namespace) + 1];
    }
  }

  // ---- The protocol: any number of loads, writes and invalidations interleaved ----

  /** A getOrLoad between its first and its last step. */
  datatype Build = Build(
    namespace: string,
    startEpoch: nat,
    embeddings: Option<seq<EmbeddingRow>>,
    page: Option<seq<MemoryRecord>>)

  datatype Action =
    | StartLoad(namespace: string)
    | ReadEmbeddings(build: nat)
    | ReadRecords(build: nat)
    | FinishLoad(build: nat)
    | FailLoad(build: nat)
    | Write(namespace: string, rows: seq<Row>)
    | Invalidated(namespace: string)

  /** A run at one moment: the rows, the loads under way, the writes that await their invalidate, and the cache. */
  datatype Moment = Moment(
    storage: map<string, seq<Row>>,
    listed: map<string, set<MemoryRecord>>,
    builds: seq<Build>,
    pending: map<string, nat>,
    epochs: map<string, nat>,
    cached: map<string, Index>)

  function OrZero(counts: map<string, nat>, namespace: string): nat {
    if namespace in counts then counts[namespace] else 0
  }

  function RowsAt(m: Moment, namespace: string): seq<Row> {
    if namespace in m.storage then m.storage[namespace] else []
  }

  ghost function ListedAt(m: Moment, namespace: string): set<MemoryRecord> {
    if namespace in m.listed then m.listed[namespace] else {}
  }

  /** One action; an action that is not enabled changes nothing. */
  ghost function After(normalize: Vec -> Vec, m: Moment, action: Action): Moment {
    match action
    case StartLoad(ns) =>
      if ns in m.cached then m else m.(builds := m.builds + [Build(ns, OrZero(m.epochs, ns), None, None)])
    case ReadEmbeddings(k) =>
      if k >= |m.builds| then m
      else
        var read := ListEmbeddings(RowsAt(m, m.builds[k].namespace));
        m.(builds := m.builds[k := m.builds[k].(embeddings := Some(read))])
    case ReadRecords(k) =>
      if k >= |m.builds| then m
      else
        var read := ListRecords(RowsAt(m, m.builds[k].namespace));
        m.(builds := m.builds[k := m.builds[k].(page := Some(read))])
    case FinishLoad(k) =>
      if k >= |m.builds| || m.builds[k].embeddings.None? || m.builds[k].page.None? then m
      else
        var b := m.builds[k];
        var built := Index(b.namespace, b.startEpoch, JoinRows(normalize, b.embeddings.value, b.page.value));
        m.(builds := m.builds[..k] + m.builds[k + 1..],
           cached := if b.startEpoch == OrZero(m.epochs, b.namespace) then m.cached[b.namespace := built] else m.cached)
    case FailLoad(k) =>
      if k >= |m.builds| then m else m.(builds := m.builds[..k] + m.builds[k + 1..])
    case Write(ns, rows) =>
      m.(storage := m.storage[ns := rows],
         listed := m.listed[ns := ListedAt(m, ns) + set row | row in rows :: row.record],
         pending := m.pending[ns := OrZero(m.pending, ns) + 1])
    case Invalidated(ns) =>
      m.(pending := if OrZero(m.pending, ns) == 0 then m.pending else m.pending[ns := m.pending[ns] - 1],
         epochs := m.epochs[ns := OrZero(m.epochs, ns) + 1],
         cached := m.cached - {ns})
  }

  ghost function AfterAll(normalize: Vec -> Vec, m: Moment, schedule: seq<Action>): Moment {
    if schedule == [] then m
    else After(normalize, AfterAll(normalize, m, schedule[..|schedule| - 1]), schedule[|schedule| - 1])
  }

  class Collector {
    const cache: NamespaceVectorCache
    var storage: map<string, seq<Row>>
    var builds: seq<Build>
    var pending: map<string, nat>   // writes that still await their invalidate
    ghost var listed: map<string, set<MemoryRecord>>   // every record a namespace ever held

    ghost function Listed(namespace: string): set<MemoryRecord>
      reads this`listed
    {
      if namespace in listed then listed[namespace] else {}
    }

    ghost function Now(): Moment
      reads this, cache
    {
      Moment(storage, listed, builds, pending, cache.epochs, cache.cache)
    }

    /** Whatever is stored, was read or is cached for a namespace is a record it held at some time. */
    ghost predicate Provenance()
      reads this`listed, this`storage, this`builds, cache`cache
    {
      && (forall ns :: RowsListed(ns) && CacheListed(ns))
      && (forall k :: 0 <= k < |builds| ==> PageListed(builds[k]))
    }

    ghost predicate RowsListed(ns: string)
      reads this`listed, this`storage
    {
      forall row :: row in Rows(ns) ==> row.record in Listed(ns)
    }

    ghost predicate CacheListed(ns: string)
      reads this`listed, cache`cache
    {
      ns in cache.cache ==> Draws(cache.cache[ns].entries, Listed(ns))
    }

    ghost predicate PageListed(b: Build)
      reads this`listed
    {
      b.page.Some? ==> forall r :: r in b.page.value ==> r in Listed(b.namespace)
    }

    function Rows(namespace: string): seq<Row>
      reads this`storage
    {
      if namespace in storage then storage[namespace] else []
    }

    function Pending(namespace: string): nat
      reads this`pending
    {
      if namespace in pending then pending[namespace] else 0
    }

    /** What a build has read so far is what storage holds now. */
    ghost predicate UpToDate(b: Build)
      reads this`storage
    {
      && (b.embeddings.Some? ==> b.embeddings.value == ListEmbeddings(Rows(b.namespace)))
      && (b.page.Some? ==> b.page.value == ListRecords(Rows(b.namespace)))
    }

    /** With no write outstanding, a cached index is what a fresh build would give. */
    ghost predicate CacheAgrees(ns: string)
      reads this`storage, this`pending, cache`cache
    {
      ns in cache.cache && Pending(ns) == 0 ==> cache.cache[ns].entries == FreshEntries(cache.normalize, Rows(ns))
    }

    /** With no write outstanding, so will be any build that may still be installed. */
    ghost predicate BuildAgrees(b: Build)
      reads this`storage, this`pending, cache`epochs
    {
      && b.startEpoch <= cache.CurrentEpoch(b.namespace)
      && (Pending(b.namespace) == 0 && b.startEpoch == cache.CurrentEpoch(b.namespace) ==> UpToDate(b))
    }

    ghost predicate Agreement()
      reads this, cache
    {
      && (forall ns :: CacheAgrees(ns))
      && (forall k :: 0 <= k < |builds| ==> BuildAgrees(builds[k]))
    }

    ghost predicate Valid()
      reads this, cache
    {
      cache.Valid() && Agreement() && Provenance()
    }

    constructor (normalize: Vec -> Vec)
      ensures Valid() && fresh(cache) && storage == map[] && builds == [] && pending == map[]
    {
      cache := new NamespaceVectorCache(normalize);
      storage, builds, pending, listed := map[], [], map[], map[];
    }

    /** getOrLoad up to its first await. A hit in a quiescent namespace is what a fresh build would give. */
    method BeginLoad(namespace: string) returns (hit: Option<Index>)
      requires Valid()
      modifies this`builds
      ensures Valid()
      ensures hit.Some? <==> namespace in cache.cache
      ensures hit.Some? ==> builds == old(builds) && Draws(hit.value.entries, Listed(namespace))
      ensures hit.Some? && Pending(namespace) == 0 ==>
                hit.value.entries == FreshEntries(cache.normalize, Rows(namespace))
      ensures hit.None? ==> builds == old(builds) + [Build(namespace, cache.CurrentEpoch(namespace), None, None)]
    {
      assert CacheAgrees(namespace) && CacheListed(namespace);
      if namespace in cache.cache { return Some(cache.cache[namespace]); }
      builds := builds + [Build(namespace, cache.CurrentEpoch(namespace), None, None)];
      return None;
    }

    method LoadEmbeddings(k: nat)
      requires Valid() && k < |builds|
      modifies this`builds
      ensures Valid()
      ensures builds == old(builds)[k :=
                old(builds)[k].(embeddings := Some(ListEmbeddings(Rows(old(builds)[k].namespace))))]
    {
      builds := builds[k := builds[k].(embeddings := Some(ListEmbeddings(Rows(builds[k].namespace))))];
    }

    method LoadRecords(k: nat)
      requires Valid() && k < |builds|
      modifies this`builds
      ensures Valid()
      ensures builds == old(builds)[k := old(builds)[k].(page := Some(ListRecords(Rows(old(builds)[k].namespace))))]
    {
      var page := ListRecords(Rows(builds[k].namespace));
      assert RowsListed(builds[k].namespace);
      forall r | r in page ensures r in Listed(builds[k].namespace) {
        var i :| 0 <= i < |page| && page[i] == r;
        assert Rows(builds[k].namespace)[i] in Rows(builds[k].namespace);
      }
      builds := builds[k := builds[k].(page := Some(page))];
    }

    /**
     * getOrLoad after both reads. A build that straddled an invalidation is returned but never installed; even so
     * it lists only records its namespace held at some time.
     */
    method EndLoad(k: nat) returns (built: Index)
      requires Valid() && k < |builds| && builds[k].embeddings.Some? && builds[k].page.Some?
      modifies this`builds, cache`cache, cache`totalBytes, cache`memoryPressureWarned
      ensures Valid()
      ensures builds == old(builds)[..k] + old(builds)[k + 1..]
      ensures Draws(built.entries, Listed(old(builds)[k].namespace))
      ensures var b := old(builds)[k];
              built == Index(b.namespace, b.startEpoch, JoinRows(cache.normalize, b.embeddings.value, b.page.value))
      ensures var b := old(builds)[k];
              if b.startEpoch != old(cache.CurrentEpoch(b.namespace)) then cache.cache == old(cache.cache)
              else cache.cache == old(cache.cache)[b.namespace := built]
                   && (Pending(b.namespace) == 0 ==> built.entries == FreshEntries(cache.normalize, Rows(b.namespace)))
    {
      hide ListEmbeddings, ListRecords, FreshEntries, JoinRows, CachedEntries, BytesOf;
      var b := builds[k];
      assert PageListed(b);
      built := cache.BuildIndex(b.namespace, b.startEpoch, b.embeddings.value, b.page.value);
      JoinFromPage(cache.normalize, b.embeddings.value, b.page.value);
      InstallBuilt(b, built);
      RemoveBuild(k);
    }

    method InstallBuilt(b: Build, built: Index)
      requires cache.Valid() && BuildAgrees(b) && (forall ns :: CacheAgrees(ns) && CacheListed(ns))
      requires Draws(built.entries, Listed(b.namespace))
      requires b.embeddings.Some? && b.page.Some?
      requires built == Index(b.namespace, b.startEpoch, JoinRows(cache.normalize, b.embeddings.value, b.page.value))
      modifies cache`cache, cache`totalBytes, cache`memoryPressureWarned
      ensures cache.Valid() && forall ns :: CacheAgrees(ns) && CacheListed(ns)
      ensures cache.cache == if b.startEpoch != cache.CurrentEpoch(b.namespace) then old(cache.cache)
                             else old(cache.cache)[b.namespace := built]
      ensures b.startEpoch == cache.CurrentEpoch(b.namespace) && Pending(b.namespace) == 0 ==>
                built.entries == FreshEntries(cache.normalize, Rows(b.namespace))
    {
      cache.Install(b.namespace, b.startEpoch, built);
      forall ns ensures CacheAgrees(ns) && CacheListed(ns) {
        assert old(CacheAgrees(ns)) && old(CacheListed(ns));
      }
    }

    method RemoveBuild(k: nat)
      requires k < |builds| && forall j :: 0 <= j < |builds| ==> BuildAgrees(builds[j]) && PageListed(builds[j])
      modifies this`builds
      ensures builds == old(builds)[..k] + old(builds)[k + 1..]
      ensures forall j :: 0 <= j < |builds| ==> BuildAgrees(builds[j]) && PageListed(builds[j])
    {
      builds := builds[..k] + builds[k + 1..];
    }

    /** A read that throws ends its load without touching the cache. */
    method AbandonLoad(k: nat)
      requires Valid() && k < |builds|
      modifies this`builds
      ensures Valid()
      ensures builds == old(builds)[..k] + old(builds)[k + 1..]
    {
      RemoveBuild(k);
    }

    /** Any change to the rows of one namespace; its invalidate is still to come. */
    method WriteRows(namespace: string, rows: seq<Row>)
      requires Valid()
      modifies this`storage, this`pending, this`listed
      ensures Valid()
      ensures listed == old(listed)[namespace := old(Listed(namespace)) + set row | row in rows :: row.record]
      ensures storage == old(storage)[namespace := rows]
      ensures pending == old(pending)[namespace := old(Pending(namespace)) + 1]
    {
      hide ListEmbeddings, ListRecords, FreshEntries, Draws, CachedEntries, BytesOf;
      ListRows(namespace, rows);
      StoreRows(namespace, rows);
    }

    method StoreRows(namespace: string, rows: seq<Row>)
      requires Valid() && forall row :: row in rows ==> row.record in Listed(namespace)
      modifies this`storage, this`pending
      ensures Valid()
      ensures storage == old(storage)[namespace := rows]
      ensures pending == old(pending)[namespace := old(Pending(namespace)) + 1]
    {
      hide ListEmbeddings, ListRecords, FreshEntries;
      storage := storage[namespace := rows];
      pending := pending[namespace := Pending(namespace) + 1];
      forall k | 0 <= k < |builds| ensures BuildAgrees(builds[k]) {
        assert old(BuildAgrees(builds[k]));
      }
      forall ns ensures CacheAgrees(ns) && RowsListed(ns) {
        assert old(CacheAgrees(ns)) && old(RowsListed(ns));
      }
    }

    /** The namespace's history grows; nothing recorded before is forgotten. */
    ghost method ListRows(namespace: string, rows: seq<Row>)
      requires Valid()
      modifies this`listed
      ensures Valid()
      ensures listed == old(listed)[namespace := old(Listed(namespace)) + set row | row in rows :: row.record]
      ensures forall row :: row in rows ==> row.record in Listed(namespace)
    {
      listed := listed[namespace := Listed(namespace) + set row | row in rows :: row.record];
      assert forall ns :: old(Listed(ns)) <= Listed(ns);
      forall ns ensures RowsListed(ns) && CacheListed(ns) {
        assert old(RowsListed(ns)) && old(CacheListed(ns));
      }
      forall k | 0 <= k < |builds| ensures PageListed(builds[k]) {
        assert old(PageListed(builds[k]));
      }
    }

    method FinishWrite(namespace: string)
      requires Valid()
      modifies this`pending, cache`cache, cache`totalBytes, cache`epochs
      ensures Valid()
      ensures cache.cache == old(cache.cache) - {namespace}
      ensures cache.epochs == old(cache.epochs)[namespace := old(cache.CurrentEpoch(namespace)) + 1]
      ensures pending == if old(Pending(namespace)) == 0 then old(pending)
                         else old(pending)[namespace := old(pending)[namespace] - 1]
    {
      hide Valid, Agreement, Provenance, ListEmbeddings, ListRecords, FreshEntries, CachedEntries, BytesOf;
      Expire(namespace);
      StopWaiting(namespace);
    }

    /** One outstanding write fewer, in a namespace that has neither a cached index nor a build to install. */
    method StopWaiting(namespace: string)
      requires Valid() && namespace !in cache.cache
      requires forall k :: 0 <= k < |builds| && builds[k].namespace == namespace ==>
                 builds[k].startEpoch < cache.CurrentEpoch(namespace)
      modifies this`pending
      ensures Valid()
      ensures pending == if old(Pending(namespace)) == 0 then old(pending)
                         else old(pending)[namespace := old(pending)[namespace] - 1]
    {
      hide ListEmbeddings, ListRecords, FreshEntries, Draws, CachedEntries, BytesOf;
      if Pending(namespace) > 0 {
        pending := pending[namespace := Pending(namespace) - 1];
      }
      forall k | 0 <= k < |builds| ensures BuildAgrees(builds[k]) {
        assert old(BuildAgrees(builds[k]));
      }
      forall ns ensures CacheAgrees(ns) {
        assert old(CacheAgrees(ns));
      }
    }

    /** The invalidate itself: the entry goes, and no build under way can be installed for the namespace any more. */
    method Expire(namespace: string)
      requires Valid()
      modifies cache`cache, cache`totalBytes, cache`epochs
      ensures Valid()
      ensures cache.cache == old(cache.cache) - {namespace}
      ensures cache.epochs == old(cache.epochs)[namespace := old(cache.CurrentEpoch(namespace)) + 1]
      ensures forall k :: 0 <= k < |builds| && builds[k].namespace == namespace ==>
                builds[k].startEpoch < cache.CurrentEpoch(namespace)
    {
      hide ListEmbeddings, ListRecords, FreshEntries, Draws, CachedEntries, BytesOf;
      cache.Invalidate(namespace);
      forall k | 0 <= k < |builds|
        ensures BuildAgrees(builds[k])
        ensures builds[k].namespace == namespace ==> builds[k].startEpoch < cache.CurrentEpoch(namespace)
      {
        assert old(BuildAgrees(builds[k]));
      }
      forall ns ensures CacheAgrees(ns) && CacheListed(ns) {
        assert old(CacheAgrees(ns)) && old(CacheListed(ns));
      }
    }

    /** A load ends once both of its reads are in. */
    method TryEndLoad(k: nat)
      requires Valid()
      modifies this`builds, cache`cache, cache`totalBytes, cache`memoryPressureWarned
      ensures Valid() && Now() == After(cache.normalize, old(Now()), FinishLoad(k))
    {
      hide ListEmbeddings, ListRecords, FreshEntries, Draws, JoinRows, Agreement, Provenance, Valid;
      if k < |builds| && builds[k].embeddings.Some? && builds[k].page.Some? {
        var built := EndLoad(k);
      }
    }

    method Step(action: Action)
      requires Valid()
      modifies this, cache
      ensures Valid() && Now() == After(cache.normalize, old(Now()), action)
    {
      hide ListEmbeddings, ListRecords, FreshEntries, Draws, JoinRows, Agreement, Provenance, Valid;
      match action {
        case StartLoad(ns) => var hit := BeginLoad(ns);
        case ReadEmbeddings(k) => if k < |builds| { LoadEmbeddings(k); }
        case ReadRecords(k) => if k < |builds| { LoadRecords(k); }
        case FinishLoad(k) => TryEndLoad(k);
        case FailLoad(k) => if k < |builds| { AbandonLoad(k); }
        case Write(ns, rows) => WriteRows(ns, rows);
        case Invalidated(ns) => FinishWrite(ns);
      }
    }

    /** Every schedule of steps, in any order, ends where its actions lead and keeps the agreement on the way. */
    method RunSchedule(schedule: seq<Action>)
      requires Valid()
      modifies this, cache
      ensures Valid() && Now() == AfterAll(cache.normalize, old(Now()), schedule)
      ensures forall ns :: ns in cache.cache && Pending(ns) == 0 ==>
                cache.cache[ns] == Index(ns, cache.cache[ns].epoch, FreshEntries(cache.normalize, Rows(ns)))
      ensures forall ns :: ns in cache.cache ==> Draws(cache.cache[ns].entries, Listed(ns))
      ensures cache.totalBytes == BytesOf(CachedEntries(cache.cache))
    {
      hide ListEmbeddings, ListRecords, FreshEntries, Draws;
      var i := 0;
      while i < |schedule|
        invariant 0 <= i <= |schedule|
        invariant Valid() && Now() == AfterAll(cache.normalize, old(Now()), schedule[..i])
      {
        assert schedule[..i + 1][..i] == schedule[..i];
        Step(schedule[i]);
        i := i + 1;
      }
      assert schedule[..i] == schedule;
      forall ns | ns in cache.cache
        ensures Draws(cache.cache[ns].entries, Listed(ns))
        ensures Pending(ns) == 0 ==>
                  cache.cache[ns] == Index(ns, cache.cache[ns].epoch, FreshEntries(cache.normalize, Rows(ns)))
      {
        assert CacheAgrees(ns) && CacheListed(ns);
      }
    }
  }
}
