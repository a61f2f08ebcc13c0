/** The two ways a reconciled cluster reaches the store, and the evidence they keep. */
module Commits {
  import opened MemoryTypes
  import opened Ordering
  import opened Storage
  import opened Search
  import opened MergeDecision
  import opened VectorCache

  // ---- Commits and the evidence they keep ----

  lemma RunSnoc(t: Tables, ops: seq<Op>, op: Op)
    ensures Run(t, ops + [op]) == if Run(t, ops).None? then None else Step(Run(t, ops).value, op)
    ensures forall ever :: Recorded(ever, ops + [op]) ==
              if op.Put? then Recorded(ever, ops)[op.record.recordId := op.record] else Recorded(ever, ops)
  {
    assert (ops + [op])[..|ops + [op]| - 1] == ops;
  }

  lemma RunOne(t: Tables, op: Op)
    ensures Run(t, [op]) == Step(t, op)
    ensures forall ever :: Recorded(ever, [op]) ==
              if op.Put? then ever[op.record.recordId := op.record] else ever
  {
    RunSnoc(t, [], op);
    assert [] + [op] == [op];
  }

  function ToMemoryRecord(c: CandidateMemory, now: string): MemoryRecord {
    MemoryRecord(c.recordId, c.namespace, c.sourceEventIds, c.fields, now)
  }

  /** What a candidate says of itself is what the record says, and the record is dated now. */
  ghost predicate Mirrors(record: MemoryRecord, c: CandidateMemory, now: string) {
    && record.recordId == c.recordId && record.namespace == c.namespace
    && record.sourceEventIds == c.sourceEventIds && record.fields == c.fields && record.createdAt == now
  }

  /** The candidate is stored under its own id with its embedding. */
  ghost predicate Carries(rows: map<string, Row>, c: CandidateMemory, now: string) {
    c.recordId in rows && Mirrors(rows[c.recordId].record, c, now) && rows[c.recordId].embedding == c.embedding
  }

  /** A cluster's members, in index order. */
  function Group(candidates: seq<CandidateMemory>, members: seq<nat>): (group: seq<CandidateMemory>)
    requires forall x :: 0 <= x < |members| ==> members[x] < |candidates|
    ensures |group| == |members|
  {
    seq(|members|, x requires 0 <= x < |members| => candidates[members[x]])
  }

  /** The statements that commit candidates one by one. */
  function KeepOps(group: seq<CandidateMemory>, now: string): seq<Op> {
    if group == [] then []
    else
      var c := group[|group| - 1];
      KeepOps(group[..|group| - 1], now) + [Put(ToMemoryRecord(c, now))] +
      if c.embedding.Some? then [Embed(c.recordId, c.embedding.value)] else []
  }

  /** The rows those statements leave behind. */
  ghost function KeptRows(group: seq<CandidateMemory>, now: string): map<string, Row> {
    if group == [] then map[]
    else
      var c := group[|group| - 1];
      KeptRows(group[..|group| - 1], now)[c.recordId := Row(ToMemoryRecord(c, now), c.embedding)]
  }

  ghost function KeptRecords(group: seq<CandidateMemory>, now: string): map<string, MemoryRecord> {
    if group == [] then map[]
    else
      var c := group[|group| - 1];
      KeptRecords(group[..|group| - 1], now)[c.recordId := ToMemoryRecord(c, now)]
  }

  lemma IsMemberSnoc(group: seq<CandidateMemory>, id: string)
    requires group != []
    ensures IsMember(group, id) <==> IsMember(group[..|group| - 1], id) || group[|group| - 1].recordId == id
  {
    var n := |group| - 1;
    if IsMember(group[..n], id) {
      var m :| 0 <= m < n && group[..n][m].recordId == id;
      assert group[m].recordId == id;
    }
    if IsMember(group, id) && group[n].recordId != id {
      var m :| 0 <= m < |group| && group[m].recordId == id;
      assert group[..n][m].recordId == id;
    }
  }

  /** One row and one history entry per member, under the member's own id. */
  lemma {:induction false} KeptMeaning(group: seq<CandidateMemory>, now: string, id: string)
    ensures id in KeptRows(group, now) <==> IsMember(group, id)
    ensures id in KeptRecords(group, now) <==> IsMember(group, id)
    ensures IsMember(group, id) ==>
              KeptRows(group, now)[id].record == KeptRecords(group, now)[id]
              && exists m :: 0 <= m < |group| && group[m].recordId == id
                             && KeptRows(group, now)[id] == Row(ToMemoryRecord(group[m], now), group[m].embedding)
  {
    if group == [] {
    } else {
      var n := |group| - 1;
      IsMemberSnoc(group, id);
      KeptMeaning(group[..n], now, id);
      if group[n].recordId != id && IsMember(group[..n], id) {
        var m :| 0 <= m < n && group[..n][m].recordId == id
                 && KeptRows(group[..n], now)[id] == Row(ToMemoryRecord(group[..n][m], now), group[..n][m].embedding);
        assert group[m] == group[..n][m];
      }
    }
  }

  /** After a kept group every member has its record, as it was extracted. */
  lemma KeptCarries(group: seq<CandidateMemory>, now: string, before: Snapshot, after: Snapshot)
    requires DistinctGroup(group) && AllKept(group, now, before, after)
    ensures forall c :: c in group ==> Carries(after.rows, c, now)
  {
    forall c | c in group ensures Carries(after.rows, c, now) {
      var i :| 0 <= i < |group| && group[i] == c;
      assert IsMember(group, c.recordId);
      KeptMeaning(group, now, c.recordId);
    }
  }

  /** Keeping a group makes evident what was evident before and what its members vouch for, and nothing else. */
  lemma KeptEvidence(group: seq<CandidateMemory>, now: string, before: Snapshot, after: Snapshot, event: string)
    requires FromHistory(before.rows, before.ever) && Unwritten(group, before.ever)
    requires AllKept(group, now, before, after)
    ensures Evident(after.rows, event) <==>
            Evident(before.rows, event) || exists c :: c in group && event in c.sourceEventIds
  {
    KeptCarries(group, now, before, after);
    if Evident(before.rows, event) {
      var id :| id in before.rows && event in before.rows[id].record.sourceEventIds;
      KeptMeaning(group, now, id);
      KeptAreNew(group, now, before.ever);
      assert id in after.rows && event in after.rows[id].record.sourceEventIds;
    }
    if c :| c in group && event in c.sourceEventIds {
      assert event in after.rows[c.recordId].record.sourceEventIds;
    }
    if Evident(after.rows, event) && !Evident(before.rows, event) {
      var id :| id in after.rows && event in after.rows[id].record.sourceEventIds;
      KeptMeaning(group, now, id);
      var m :| 0 <= m < |group| && group[m].recordId == id
               && KeptRows(group, now)[id] == Row(ToMemoryRecord(group[m], now), group[m].embedding);
      assert group[m] in group;
    }
  }

  lemma AddedRow(before: map<string, Row>, id: string, row: Row)
    requires id !in before
    ensures |before[id := row]| == |before| + 1
  {
    var after := before[id := row];
    assert after.Keys == before.Keys + {id};
    assert |after| == |after.Keys| && |before| == |before.Keys|;
  }

  ghost predicate DistinctGroup(group: seq<CandidateMemory>) {
    forall x, y :: 0 <= x < y < |group| ==> group[x].recordId != group[y].recordId
  }

  lemma LastIsNew(group: seq<CandidateMemory>)
    requires group != [] && DistinctGroup(group)
    ensures DistinctGroup(group[..|group| - 1])
    ensures !IsMember(group[..|group| - 1], group[|group| - 1].recordId)
  {
    var n := |group| - 1;
    forall m | 0 <= m < n ensures group[..n][m].recordId != group[n].recordId {
      assert group[..n][m] == group[m];
    }
  }

  lemma {:induction false} KeptCount(group: seq<CandidateMemory>, now: string)
    requires DistinctGroup(group)
    ensures |KeptRows(group, now)| == |group|
  {
    if group == [] {
    } else {
      var n := |group| - 1;
      LastIsNew(group);
      KeptCount(group[..n], now);
      var c := group[n];
      KeptMeaning(group[..n], now, c.recordId);
      AddedRow(KeptRows(group[..n], now), c.recordId, Row(ToMemoryRecord(c, now), c.embedding));
    }
  }

  lemma RunPutEmbed(t: Tables, ever: map<string, MemoryRecord>, ops: seq<Op>, c: CandidateMemory, now: string)
    requires Run(t, ops).Some? && c.recordId !in Run(t, ops).value.rows
    ensures var more := ops + [Put(ToMemoryRecord(c, now))] +
                        if c.embedding.Some? then [Embed(c.recordId, c.embedding.value)] else [];
            && Run(t, more).Some?
            && Run(t, more).value.rows == Run(t, ops).value.rows[c.recordId := Row(ToMemoryRecord(c, now), c.embedding)]
            && Recorded(ever, more) == Recorded(ever, ops)[c.recordId := ToMemoryRecord(c, now)]
  {
    var put := ops + [Put(ToMemoryRecord(c, now))];
    RunSnoc(t, ops, Put(ToMemoryRecord(c, now)));
    if c.embedding.Some? {
      RunSnoc(t, put, Embed(c.recordId, c.embedding.value));
    } else {
      assert put + [] == put;
    }
  }

  /** Committing new candidates cannot fail on a key and adds exactly their rows. */
  lemma {:induction false} KeepRuns(t: Tables, ever: map<string, MemoryRecord>, group: seq<CandidateMemory>,
                                    now: string)
    requires DistinctGroup(group)
    requires forall c :: c in group ==> c.recordId !in t.rows
    ensures var ops := KeepOps(group, now);
            && Run(t, ops).Some?
            && Run(t, ops).value.rows == t.rows + KeptRows(group, now)
            && Recorded(ever, ops) == ever + KeptRecords(group, now)
  {
    if group == [] {
    } else {
      var n := |group| - 1;
      var c := group[n];
      LastIsNew(group);
      KeepRuns(t, ever, group[..n], now);
      KeptMeaning(group[..n], now, c.recordId);
      RunPutEmbed(t, ever, KeepOps(group[..n], now), c, now);
      UpdateSum(t.rows, KeptRows(group[..n], now), c.recordId, Row(ToMemoryRecord(c, now), c.embedding));
      UpdateSum(ever, KeptRecords(group[..n], now), c.recordId, ToMemoryRecord(c, now));
    }
  }

  lemma UpdateSum<V>(m: map<string, V>, k: map<string, V>, id: string, v: V)
    ensures (m + k)[id := v] == m + k[id := v]
  {
  }

  // ---- Evidence is kept by every legal commit ----

  /** Evidence and history as they stand, the invariant of all writers together. */
  ghost predicate Sound(rows: map<string, Row>, ever: map<string, MemoryRecord>) {
    FromHistory(rows, ever) && EvidenceKept(rows, ever)
  }

  /** Adding records, each new to the history, keeps everything evident. */
  lemma AddKeepsEvidence(rows: map<string, Row>, rows': map<string, Row>,
                         ever: map<string, MemoryRecord>, ever': map<string, MemoryRecord>)
    requires Sound(rows, ever) && FromHistory(rows', ever')
    requires forall id :: id in rows ==> id in rows' && rows'[id].record == rows[id].record
    requires forall id :: id in ever' ==>
              (id in ever && ever[id] == ever'[id]) || (id in rows' && rows'[id].record == ever'[id])
    ensures Sound(rows', ever')
  {
    forall id, event | id in ever' && event in ever'[id].sourceEventIds ensures Evident(rows', event) {
      if id in ever && ever[id] == ever'[id] {
        assert Evident(rows, event);
        var holder :| holder in rows && event in rows[holder].record.sourceEventIds;
        assert holder in rows';
      }
    }
  }

  /** The rows after a merge: the summary in, the cited neighbours out. */
  ghost predicate Replaced(rows: map<string, Row>, rows': map<string, Row>, summary: MemoryRecord, ids: seq<string>) {
    && summary.recordId in rows' && rows'[summary.recordId].record == summary
    && (forall id :: id in rows' && id != summary.recordId ==> id in rows && rows'[id] == rows[id])
    && (forall id :: id in rows && id !in ids ==> id in rows')
    && (forall id :: id in ids ==> id !in rows')
  }

  /** Replacing records by a summary that vouches for all their events loses no evidence. */
  lemma MergeKeepsEvidence(rows: map<string, Row>, rows': map<string, Row>, ever: map<string, MemoryRecord>,
                           summary: MemoryRecord, ids: seq<string>)
    requires Sound(rows, ever) && Replaced(rows, rows', summary, ids) && summary.recordId !in rows
    requires forall id, event :: id in ids && id in ever && event in ever[id].sourceEventIds ==>
              event in summary.sourceEventIds
    ensures Sound(rows', ever[summary.recordId := summary])
  {
    var ever' := ever[summary.recordId := summary];
    forall id, event | id in ever' && event in ever'[id].sourceEventIds ensures Evident(rows', event) {
      if id != summary.recordId {
        assert Evident(rows, event);
        var holder :| holder in rows && event in rows[holder].record.sourceEventIds;
        if holder in ids {
          assert event in rows'[summary.recordId].record.sourceEventIds;
        } else {
          assert holder in rows' && holder != summary.recordId;
        }
      }
    }
  }

  // ---- What a commit makes of the store ----

  datatype Snapshot = Snapshot(rows: map<string, Row>, ever: map<string, MemoryRecord>, closed: bool)

  ghost function Now(store: SqliteStorage): Snapshot
    reads store
  {
    Snapshot(store.rows, store.ever, store.closed)
  }

  ghost predicate AllKept(group: seq<CandidateMemory>, now: string, before: Snapshot, after: Snapshot) {
    && after.rows == before.rows + KeptRows(group, now)
    && after.ever == before.ever + KeptRecords(group, now)
  }

  /** The neighbours are records of the namespace that were committed at some time; they may be gone by now. */
  ghost predicate Known(neighbors: seq<Neighbor>, ever: map<string, MemoryRecord>, namespace: string) {
    forall n :: n in neighbors ==>
      n.record.recordId in ever && ever[n.record.recordId] == n.record && n.record.namespace == namespace
  }

  /** The ids that name a stored row. */
  ghost function Present(ids: seq<string>, rows: map<string, Row>): set<string> {
    set id | id in ids && id in rows
  }

  /** One summary of every cited entity replaces those cited neighbours that are still there. */
  ghost predicate Merges(namespace: string, decision: JudgeMerge, group: seq<CandidateMemory>,
                         neighbors: seq<Neighbor>, cited: seq<Cited>, summaryId: string,
                         before: Snapshot, after: Snapshot)
  {
    && cited != [] && Ordered(cited, Precedes) && InCitationOrder(cited, decision.mergedRecordIds)
    && ResolvesAll(cited, decision.mergedRecordIds, group, neighbors)
    && summaryId in after.rows
    && after.rows[summaryId].record.recordId == summaryId
    && Summarises(after.rows[summaryId].record, decision, cited, namespace)
    && Replaced(before.rows, after.rows, after.rows[summaryId].record, ToDelete(cited))
    && after.ever == before.ever[summaryId := after.rows[summaryId].record]
    && |after.rows| + |Present(ToDelete(cited), before.rows)| == |before.rows| + 1
  }

  // ---- commitKeepSeparate ----

  method MembersOfCluster(candidates: seq<CandidateMemory>, members: seq<nat>) returns (group: seq<CandidateMemory>)
    requires forall x :: 0 <= x < |members| ==> members[x] < |candidates|
    ensures group == Group(candidates, members)
    ensures |group| == |members| && forall y :: 0 <= y < |group| ==> group[y] == candidates[members[y]]
  {
    group := [];
    for x := 0 to |members|
      invariant |group| == x && forall y :: 0 <= y < x ==> group[y] == candidates[members[y]]
    {
      group := group + [candidates[members[x]]];
    }
  }

  /** The statements of the transaction body. */
  method KeepStatements(group: seq<CandidateMemory>, now: string) returns (ops: seq<Op>)
    ensures ops == KeepOps(group, now)
  {
    ops := [];
    var x := 0;
    while x < |group|
      invariant 0 <= x <= |group|
      invariant ops == KeepOps(group[..x], now)
    {
      var c := group[x];
      assert group[..x + 1][..x] == group[..x];
      ops := ops + [Put(ToMemoryRecord(c, now))];
      if c.embedding.Some? {
        ops := ops + [Embed(c.recordId, c.embedding.value)];
      }
      x := x + 1;
    }
    assert group[..x] == group;
  }

  /** Nothing of this group was ever stored. */
  ghost predicate Unwritten(group: seq<CandidateMemory>, ever: map<string, MemoryRecord>) {
    DistinctGroup(group) && forall c :: c in group ==> c.recordId !in ever
  }

  /** Every member becomes a record under its own id, in one transaction, or nothing happens. */
  method CommitKeepSeparate(store: SqliteStorage, cache: NamespaceVectorCache, namespace: string,
                            group: seq<CandidateMemory>, now: string, faultAt: Option<nat>)
    returns (ok: bool, committed: nat)
    requires store.Valid() && cache.Valid() && Unwritten(group, store.ever)
    modifies store`rows, store`fts, store`ever, cache`cache, cache`totalBytes, cache`epochs
    ensures store.Valid() && cache.Valid()
    ensures ok ==> committed == |group| && AllKept(group, now, old(Now(store)), Now(store))
    ensures ok ==> forall c :: c in group ==> Carries(store.rows, c, now)
    ensures ok && group != [] ==> namespace !in cache.cache
    ensures !ok ==> committed == 0 && store.rows == old(store.rows) && store.ever == old(store.ever)
    ensures ok <==> group == [] || (!store.closed && faultAt.None?)
  {
    if |group| == 0 {
      UpdateNothing(store.rows, store.ever);
      return true, 0;
    }
    var ops := KeepStatements(group, now);
    KeepRuns(Tables(store.rows, store.fts), store.ever, group, now);
    ghost var before := Now(store);
    ok := store.WithTransaction(ops, faultAt);
    if !ok { return false, 0; }
    KeptCarries(group, now, before, Now(store));
    cache.Invalidate(namespace);
    committed := |group|;
  }

  lemma UpdateNothing<V, W>(m: map<string, V>, k: map<string, W>)
    ensures m + map[] == m && k + map[] == k
  {
  }

  // ---- commitMerge ----

  datatype MergeResult = Merged(recordsDeleted: nat) | FellBack | Threw

  function MergeOps(summary: MemoryRecord, ids: seq<string>, embedding: Option<Vec>): seq<Op> {
    [Put(summary)] + (if |ids| > 0 then [Delete(ids)] else []) +
    if embedding.Some? then [Embed(summary.recordId, embedding.value)] else []
  }

  lemma MergeRuns(t: Tables, ever: map<string, MemoryRecord>, summary: MemoryRecord, ids: seq<string>,
                  embedding: Option<Vec>)
    requires summary.recordId !in t.rows && summary.recordId !in ids
    ensures var ops := MergeOps(summary, ids, embedding);
            && Run(t, ops).Some?
            && Run(t, ops).value.rows == t.rows[summary.recordId := Row(summary, embedding)] - (set id | id in ids)
            && Recorded(ever, ops) == ever[summary.recordId := summary]
  {
    var ops1 := [Put(summary)];
    RunOne(t, Put(summary));
    var ops2 := ops1 + if |ids| > 0 then [Delete(ids)] else [];
    var t1 := Run(t, ops1).value;
    if |ids| > 0 {
      RunSnoc(t, ops1, Delete(ids));
      DeletedAllRows(t1, ids);
    } else {
      assert ops1 + [] == ops1;
      assert (set id | id in ids) == {};
      assert t1.rows - {} == t1.rows;
    }
    if embedding.Some? {
      RunSnoc(t, ops2, Embed(summary.recordId, embedding.value));
    } else {
      assert ops2 + [] == ops2;
    }
  }

  lemma {:induction false} CountDistinct(ids: seq<string>)
    requires NoDuplicates(ids)
    ensures |set id | id in ids| == |ids|
  {
    if ids == [] {
    } else {
      var n := |ids| - 1;
      CountDistinct(ids[..n]);
      assert ids == ids[..n] + [ids[n]];
      assert (set id | id in ids) == (set id | id in ids[..n]) + {ids[n]};
    }
  }

  lemma MergedRows(rows: map<string, Row>, summary: MemoryRecord, ids: seq<string>, embedding: Option<Vec>)
    requires summary.recordId !in rows && summary.recordId !in ids
    ensures var rows' := rows[summary.recordId := Row(summary, embedding)] - (set id | id in ids);
            Replaced(rows, rows', summary, ids) && |rows'| + |Present(ids, rows)| == |rows| + 1
  {
    var gone := Present(ids, rows);
    var more := rows[summary.recordId := Row(summary, embedding)];
    var rows' := more - (set id | id in ids);
    AddedRow(rows, summary.recordId, Row(summary, embedding));
    assert gone <= more.Keys;
    assert rows'.Keys == more.Keys - gone;
    assert |more.Keys - gone| == |more.Keys| - |gone|;
  }

  /** No more rows go than ids are listed, and as many exactly when every listed id is still stored. */
  lemma PresentCount(ids: seq<string>, rows: map<string, Row>)
    requires NoDuplicates(ids)
    ensures |Present(ids, rows)| <= |ids|
    ensures |Present(ids, rows)| == |ids| <==> forall id :: id in ids ==> id in rows
  {
    var all := set id | id in ids;
    CountDistinct(ids);
    assert Present(ids, rows) <= all;
    SubsetCount(Present(ids, rows), all);
    if |Present(ids, rows)| == |ids| {
      forall id | id in ids ensures id in rows {
        assert id in all;
      }
    } else {
      assert Present(ids, rows) != all;
    }
  }

  /** Every deletion is of a neighbour the judge cited, a record of the run's own namespace. */
  lemma DeletedAreOwn(cited: seq<Cited>, ids: seq<string>, group: seq<CandidateMemory>,
                      neighbors: seq<Neighbor>, ever: map<string, MemoryRecord>, namespace: string)
    requires ResolvesAll(cited, ids, group, neighbors) && Known(neighbors, ever, namespace)
    ensures forall id :: id in ToDelete(cited) ==> id in ever && ever[id].namespace == namespace && id in ids
  {
    forall id | id in ToDelete(cited) ensures id in ever && ever[id].namespace == namespace && id in ids {
      var x, k := Deletion(cited, ids, group, neighbors, id);
      assert neighbors[k] in neighbors;
    }
  }

  /** The citation and the neighbour behind a deletion. */
  lemma Deletion(cited: seq<Cited>, ids: seq<string>, group: seq<CandidateMemory>, neighbors: seq<Neighbor>, id: string)
    returns (x: nat, k: nat)
    requires ResolvesAll(cited, ids, group, neighbors) && id in ToDelete(cited)
    ensures x < |cited| && cited[x].recordId == id && id in ids
    ensures k < |neighbors| && neighbors[k].record.recordId == id
    ensures cited[x].sourceEventIds == neighbors[k].record.sourceEventIds
  {
    ToDeleteMeaning(cited);
    x :| 0 <= x < |cited| && !cited[x].isClusterMember && cited[x].recordId == id;
    assert Resolves(cited[x], group, neighbors);
    k :| 0 <= k < |neighbors| && neighbors[k].record.recordId == id
         && cited[x].sourceEventIds == neighbors[k].record.sourceEventIds;
  }

  /** Whatever became of the neighbours meanwhile: what is deleted lives on in the summary. */
  lemma DeletedAreCovered(cited: seq<Cited>, ids: seq<string>, group: seq<CandidateMemory>,
                          neighbors: seq<Neighbor>, ever: map<string, MemoryRecord>,
                          decision: JudgeMerge, summary: MemoryRecord, namespace: string)
    requires ResolvesAll(cited, ids, group, neighbors) && Known(neighbors, ever, namespace)
    requires Summarises(summary, decision, cited, namespace)
    ensures forall id, event :: id in ToDelete(cited) && id in ever && event in ever[id].sourceEventIds ==>
              event in summary.sourceEventIds
  {
    forall id, event | id in ToDelete(cited) && id in ever && event in ever[id].sourceEventIds
      ensures event in summary.sourceEventIds
    {
      var x, k := Deletion(cited, ids, group, neighbors, id);
      assert neighbors[k] in neighbors;
      SummaryCovers(summary, decision, cited, namespace, x, event);
    }
  }

  lemma NeighborsOnly(cited: seq<Cited>, ids: seq<string>, group: seq<CandidateMemory>, neighbors: seq<Neighbor>,
                      id: string)
    requires ResolvesAll(cited, ids, group, neighbors) && !IsNeighbor(neighbors, id)
    ensures id !in ToDelete(cited)
  {
    if id in ToDelete(cited) {
      var x, k := Deletion(cited, ids, group, neighbors, id);
    }
  }

  ghost predicate KnowsNone(ids: seq<string>, group: seq<CandidateMemory>, neighbors: seq<Neighbor>) {
    forall id :: id in ids ==> !IsMember(group, id) && !IsNeighbor(neighbors, id)
  }

  /** One transaction: the summary in, the records it replaces out, its embedding on. */
  method WriteSummary(store: SqliteStorage, cache: NamespaceVectorCache, namespace: string, summary: MemoryRecord,
                      ids: seq<string>, embedding: Option<Vec>, faultAt: Option<nat>)
    returns (ok: bool)
    requires store.Valid() && cache.Valid()
    requires summary.recordId !in store.rows && summary.recordId !in ids
    modifies store`rows, store`fts, store`ever, cache`cache, cache`totalBytes, cache`epochs
    ensures store.Valid() && cache.Valid()
    ensures ok ==> Replaced(old(store.rows), store.rows, summary, ids)
    ensures ok ==> |store.rows| + |Present(ids, old(store.rows))| == |old(store.rows)| + 1
    ensures ok ==> store.rows[summary.recordId].embedding == embedding
    ensures ok ==> store.ever == old(store.ever)[summary.recordId := summary]
    ensures ok ==> namespace !in cache.cache
    ensures !ok ==> store.rows == old(store.rows) && store.ever == old(store.ever)
    ensures ok <==> !store.closed && faultAt.None?
  {
    var ops := [Put(summary)];
    if |ids| > 0 { ops := ops + [Delete(ids)]; }
    if embedding.Some? { ops := ops + [Embed(summary.recordId, embedding.value)]; }
    assert ops == MergeOps(summary, ids, embedding);
    MergeRuns(Tables(store.rows, store.fts), store.ever, summary, ids, embedding);
    MergedRows(store.rows, summary, ids, embedding);
    ok := store.WithTransaction(ops, faultAt);
    if ok { cache.Invalidate(namespace); }
  }

  /** The summary goes in and the cited neighbours go out in one transaction; unknown ids alone commit nothing.
   * A neighbour deleted since the lookup is deleted once more, which does nothing. */
  method CommitMerge(store: SqliteStorage, cache: NamespaceVectorCache, namespace: string, decision: JudgeMerge,
                     group: seq<CandidateMemory>, neighbors: seq<Neighbor>,
                     summaryId: string, embedding: Option<Vec>, now: string, faultAt: Option<nat>)
    returns (result: MergeResult, cited: seq<Cited>)
    requires store.Valid() && cache.Valid()
    requires summaryId !in store.ever && !IsNeighbor(neighbors, summaryId)
    modifies store`rows, store`fts, store`ever, cache`cache, cache`totalBytes, cache`epochs
    ensures store.Valid() && cache.Valid()
    ensures ResolvesAll(cited, decision.mergedRecordIds, group, neighbors) && Ordered(cited, Precedes)
    ensures InCitationOrder(cited, decision.mergedRecordIds)
    ensures result.FellBack? <==> KnowsNone(decision.mergedRecordIds, group, neighbors)
    ensures result.FellBack? <==> cited == []
    ensures result.Merged? ==>
              Merges(namespace, decision, group, neighbors, cited, summaryId, old(Now(store)), Now(store))
    ensures result.Merged? ==> result.recordsDeleted == |ToDelete(cited)|
    ensures result.Merged? ==>
              store.rows[summaryId].record.createdAt == now && store.rows[summaryId].embedding == embedding
    ensures result.Merged? ==> namespace !in cache.cache
    ensures !result.Merged? ==> store.rows == old(store.rows) && store.ever == old(store.ever)
    ensures result.Threw? <==> !result.FellBack? && (store.closed || faultAt.Some?)
  {
    var merged, ids := ResolveMergedMembers(decision.mergedRecordIds, group, neighbors);
    cited := merged;
    CitesNone(merged, decision.mergedRecordIds, group, neighbors);
    if |merged| == 0 { result := FellBack; return; }
    var record := ComposeSummaryRecord(decision, merged, namespace, summaryId, now);
    NeighborsOnly(merged, decision.mergedRecordIds, group, neighbors, summaryId);
    var ok := WriteSummary(store, cache, namespace, record, ids, embedding, faultAt);
    if !ok { result := Threw; return; }
    result := MergeResult.Merged(|ids|);
  }

  lemma CitesNone(cited: seq<Cited>, ids: seq<string>, group: seq<CandidateMemory>, neighbors: seq<Neighbor>)
    requires ResolvesAll(cited, ids, group, neighbors)
    ensures cited == [] <==> KnowsNone(ids, group, neighbors)
  {
    if cited != [] {
      assert Resolves(cited[0], group, neighbors) && cited[0].recordId in ids;
    } else {
      forall id | id in ids ensures !IsMember(group, id) && !IsNeighbor(neighbors, id) {
        assert !Cites(cited, id);
      }
    }
  }

  // ---- Any number of writers ----

  /** One commit by some writer; a direct commit lands a record first and attaches its embedding in a second write. */
  datatype Call =
    | Keep(group: seq<CandidateMemory>, now: string)
    | Collapse(namespace: string, decision: JudgeMerge, group: seq<CandidateMemory>, neighbors: seq<Neighbor>,
               cited: seq<Cited>, summaryId: string)
    | Land(record: MemoryRecord)
    | Attach(recordId: string, embedding: Vec)

  /** What each kind of commit makes of the store; new ids were never used before. */
  ghost predicate Effect(call: Call, before: Snapshot, after: Snapshot) {
    match call
    case Keep(group, now) => Unwritten(group, before.ever) && AllKept(group, now, before, after)
    case Collapse(namespace, decision, group, neighbors, cited, summaryId) =>
      summaryId !in before.ever && Merges(namespace, decision, group, neighbors, cited, summaryId, before, after)
    case Land(record) =>
      && record.recordId !in before.ever
      && after.rows == before.rows[record.recordId := Row(record, None)]
      && after.ever == before.ever[record.recordId := record]
    case Attach(id, embedding) =>
      && id in before.rows && after.rows == before.rows[id := before.rows[id].(embedding := Some(embedding))]
      && after.ever == before.ever
  }

  /** The neighbours behind a merge had been committed by then. */
  ghost predicate Informed(call: Call, ever: map<string, MemoryRecord>) {
    call.Collapse? ==> Known(call.neighbors, ever, call.namespace)
  }

  ghost predicate Remembers(ever: map<string, MemoryRecord>, more: map<string, MemoryRecord>) {
    forall id :: id in ever ==> id in more && more[id] == ever[id]
  }

  lemma KeptAreNew(group: seq<CandidateMemory>, now: string, ever: map<string, MemoryRecord>)
    requires Unwritten(group, ever)
    ensures KeptRows(group, now).Keys == KeptRecords(group, now).Keys
    ensures forall id :: id in KeptRows(group, now) ==>
              KeptRows(group, now)[id].record == KeptRecords(group, now)[id] && id !in ever
  {
    forall id ensures id in KeptRows(group, now) <==> id in KeptRecords(group, now)
              ensures id in KeptRows(group, now) ==>
                        KeptRows(group, now)[id].record == KeptRecords(group, now)[id] && id !in ever
    {
      KeptMeaning(group, now, id);
      if IsMember(group, id) {
        var m :| 0 <= m < |group| && group[m].recordId == id;
        assert group[m] in group;
      }
    }
  }

  lemma JoinKeepsSound(rows: map<string, Row>, ever: map<string, MemoryRecord>,
                       added: map<string, Row>, records: map<string, MemoryRecord>)
    requires Sound(rows, ever)
    requires forall id :: id in added <==> id in records
    requires forall id :: id in added ==> added[id].record == records[id] && id !in ever
    ensures Sound(rows + added, ever + records) && Remembers(ever, ever + records)
  {
    AddKeepsEvidence(rows, rows + added, ever, ever + records);
  }

  lemma KeepingKeepsSound(group: seq<CandidateMemory>, now: string, before: Snapshot, after: Snapshot)
    requires Sound(before.rows, before.ever) && Unwritten(group, before.ever)
    requires AllKept(group, now, before, after)
    ensures Sound(after.rows, after.ever) && Remembers(before.ever, after.ever)
  {
    KeptAreNew(group, now, before.ever);
    JoinKeepsSound(before.rows, before.ever, KeptRows(group, now), KeptRecords(group, now));
  }

  lemma MergingKeepsSound(namespace: string, decision: JudgeMerge, group: seq<CandidateMemory>,
                          neighbors: seq<Neighbor>, cited: seq<Cited>, summaryId: string,
                          before: Snapshot, after: Snapshot)
    requires Sound(before.rows, before.ever) && summaryId !in before.ever && Known(neighbors, before.ever, namespace)
    requires Merges(namespace, decision, group, neighbors, cited, summaryId, before, after)
    ensures Sound(after.rows, after.ever) && Remembers(before.ever, after.ever)
  {
    hide Known, Summarises, ResolvesAll, EvidenceKept;
    var summary := after.rows[summaryId].record;
    DeletedAreCovered(cited, decision.mergedRecordIds, group, neighbors, before.ever, decision, summary, namespace);
    MergeKeepsEvidence(before.rows, after.rows, before.ever, summary, ToDelete(cited));
  }

  lemma AttachingKeepsSound(id: string, embedding: Vec, before: Snapshot, after: Snapshot)
    requires Sound(before.rows, before.ever) && Effect(Attach(id, embedding), before, after)
    ensures Sound(after.rows, after.ever) && Remembers(before.ever, after.ever)
  {
    AddKeepsEvidence(before.rows, after.rows, before.ever, after.ever);
  }

  lemma LandingKeepsSound(record: MemoryRecord, before: Snapshot, after: Snapshot)
    requires Sound(before.rows, before.ever) && Effect(Land(record), before, after)
    ensures Sound(after.rows, after.ever) && Remembers(before.ever, after.ever)
  {
    AddKeepsEvidence(before.rows, after.rows, before.ever, after.ever);
  }

  /** Every commit the code makes keeps all evidence, however old its citations are. */
  lemma CallKeepsEvidence(call: Call, before: Snapshot, after: Snapshot)
    requires Sound(before.rows, before.ever) && Effect(call, before, after) && Informed(call, before.ever)
    ensures Sound(after.rows, after.ever) && Remembers(before.ever, after.ever)
    ensures forall event :: Evident(before.rows, event) ==> Evident(after.rows, event)
  {
    match call {
      case Keep(group, now) => KeepingKeepsSound(group, now, before, after);
      case Collapse(namespace, decision, group, neighbors, cited, summaryId) =>
        MergingKeepsSound(namespace, decision, group, neighbors, cited, summaryId, before, after);
      case Land(record) => LandingKeepsSound(record, before, after);
      case Attach(id, embedding) => AttachingKeepsSound(id, embedding, before, after);
    }
    SoundKeepsEvident(before, after);
  }

  /** A member of the group that the judge cited vouches for the event. */
  ghost predicate CitedVouch(group: seq<CandidateMemory>, ids: seq<string>, event: string) {
    exists c :: c in group && c.recordId in ids && event in c.sourceEventIds
  }

  lemma CitedMember(cited: seq<Cited>, ids: seq<string>, group: seq<CandidateMemory>, neighbors: seq<Neighbor>,
                    c: CandidateMemory)
    returns (x: nat)
    requires ResolvesAll(cited, ids, group, neighbors) && DistinctGroup(group) && c in group && c.recordId in ids
    ensures x < |cited| && cited[x].sourceEventIds == c.sourceEventIds
  {
    var i :| 0 <= i < |group| && group[i] == c;
    assert IsMember(group, c.recordId) && Cites(cited, c.recordId);
    x :| 0 <= x < |cited| && cited[x].recordId == c.recordId;
    assert Resolves(cited[x], group, neighbors);
    var m :| 0 <= m < |group| && group[m].recordId == c.recordId && cited[x].sourceEventIds == group[m].sourceEventIds;
  }

  /** Behind an event of a cited entity is a cited member or a record of the past. */
  lemma BehindCited(cited: seq<Cited>, ids: seq<string>, group: seq<CandidateMemory>, neighbors: seq<Neighbor>,
                    rows: map<string, Row>, ever: map<string, MemoryRecord>, namespace: string, x: nat, event: string)
    requires ResolvesAll(cited, ids, group, neighbors) && Known(neighbors, ever, namespace) && Sound(rows, ever)
    requires x < |cited| && event in cited[x].sourceEventIds
    ensures Evident(rows, event) || CitedVouch(group, ids, event)
  {
    var c := cited[x];
    assert Resolves(c, group, neighbors);
    if IsMember(group, c.recordId) {
      var m :| 0 <= m < |group| && group[m].recordId == c.recordId && c.sourceEventIds == group[m].sourceEventIds;
      assert group[m] in group;
    } else {
      var k :| 0 <= k < |neighbors| && neighbors[k].record.recordId == c.recordId
               && c.sourceEventIds == neighbors[k].record.sourceEventIds;
      assert neighbors[k] in neighbors;
    }
  }

  /** A merge makes evident what was evident before and what the cited members vouch for, and nothing else. */
  lemma MergedEvidence(namespace: string, decision: JudgeMerge, group: seq<CandidateMemory>, neighbors: seq<Neighbor>,
                       cited: seq<Cited>, summaryId: string, before: Snapshot, after: Snapshot, event: string)
    requires Sound(before.rows, before.ever) && summaryId !in before.ever && Known(neighbors, before.ever, namespace)
    requires DistinctGroup(group)
    requires Merges(namespace, decision, group, neighbors, cited, summaryId, before, after)
    ensures Evident(after.rows, event) <==>
            Evident(before.rows, event) || CitedVouch(group, decision.mergedRecordIds, event)
  {
    hide Known, Summarises, ResolvesAll, EvidenceKept, FromHistory, DistinctGroup, Ordered, InCitationOrder;
    var ids, summary := decision.mergedRecordIds, after.rows[summaryId].record;
    MergingKeepsSound(namespace, decision, group, neighbors, cited, summaryId, before, after);
    SoundKeepsEvident(before, after);
    if CitedVouch(group, ids, event) {
      var c :| c in group && c.recordId in ids && event in c.sourceEventIds;
      var x := CitedMember(cited, ids, group, neighbors, c);
      SummaryCovers(summary, decision, cited, namespace, x, event);
    }
    if Evident(after.rows, event) {
      var id :| id in after.rows && event in after.rows[id].record.sourceEventIds;
      if id == summaryId {
        var x := SummaryOnlyCovers(summary, decision, cited, namespace, event);
        BehindCited(cited, ids, group, neighbors, before.rows, before.ever, namespace, x, event);
      } else {
        assert id in before.rows && after.rows[id] == before.rows[id];
      }
    }
  }

  lemma SoundKeepsEvident(before: Snapshot, after: Snapshot)
    requires Sound(before.rows, before.ever) && Sound(after.rows, after.ever) && Remembers(before.ever, after.ever)
    ensures forall event :: Evident(before.rows, event) ==> Evident(after.rows, event)
  {
    forall event | Evident(before.rows, event) ensures Evident(after.rows, event) {
      var holder :| holder in before.rows && event in before.rows[holder].record.sourceEventIds;
      assert holder in after.ever && event in after.ever[holder].sourceEventIds;
    }
  }

  /**
   * Any commits by any writers one after another, each citing neighbours it looked up in some state at or before its
   * own.
   */
  ghost predicate Interleaved(states: seq<Snapshot>, calls: seq<Call>, lookedUp: seq<nat>) {
    && |states| == |calls| + 1 && |lookedUp| == |calls|
    && forall k :: 0 <= k < |calls| ==> CommittedAt(states, calls, lookedUp, k)
  }

  ghost predicate CommittedAt(states: seq<Snapshot>, calls: seq<Call>, lookedUp: seq<nat>, k: nat)
    requires k < |calls| && |states| == |calls| + 1 && |lookedUp| == |calls|
  {
    lookedUp[k] <= k && Effect(calls[k], states[k], states[k + 1]) && Informed(calls[k], states[lookedUp[k]].ever)
  }

  /**
   * No event ever stored loses its evidence, and every record ever committed stays on record, over any interleaving.
   */
  lemma {:induction false} InterleavedCommitsKeepEvidence(states: seq<Snapshot>, calls: seq<Call>, lookedUp: seq<nat>,
                                                          from: nat, n: nat)
    requires Interleaved(states, calls, lookedUp) && from <= n < |states| && Sound(states[0].rows, states[0].ever)
    ensures Sound(states[n].rows, states[n].ever) && Remembers(states[from].ever, states[n].ever)
    ensures forall event :: Evident(states[from].rows, event) ==> Evident(states[n].rows, event)
    decreases n
  {
    hide Sound, Effect, Known, Evident;
    if n == 0 {
      assert from == 0;
    } else {
      InterleavedCommitsKeepEvidence(states, calls, lookedUp, if from < n then from else 0, n - 1);
      assert CommittedAt(states, calls, lookedUp, n - 1);
      InterleavedCommitsKeepEvidence(states, calls, lookedUp, lookedUp[n - 1], n - 1);
      StillInformed(calls[n - 1], states[lookedUp[n - 1]].ever, states[n - 1].ever);
      CallKeepsEvidence(calls[n - 1], states[n - 1], states[n]);
    }
  }

  lemma StillInformed(call: Call, ever: map<string, MemoryRecord>, more: map<string, MemoryRecord>)
    requires Informed(call, ever) && Remembers(ever, more)
    ensures Informed(call, more)
  {
  }
}
