/** From a judge's merge decision to the summary record and the neighbours it replaces. */
module MergeDecision {
  import opened MemoryTypes
  import opened Ordering
  import opened Search

  // ---- dedupedFirstSeenUnion ----

  /** s with every repetition after the first occurrence removed. */
  ghost function FirstSeen(s: seq<string>): seq<string> {
    if s == [] then []
    else
      var n := |s| - 1;
      FirstSeen(s[..n]) + if s[n] in s[..n] then [] else [s[n]]
  }

  ghost function Concat(arrays: seq<seq<string>>): seq<string> {
    if arrays == [] then [] else Concat(arrays[..|arrays| - 1]) + arrays[|arrays| - 1]
  }

  /** x occurs in s before y does. */
  ghost predicate SeenBefore(s: seq<string>, x: string, y: string) {
    exists a :: 0 <= a < |s| && s[a] == x && y !in s[..a + 1]
  }

  lemma FirstSeenSnoc(s: seq<string>, x: string)
    ensures FirstSeen(s + [x]) == FirstSeen(s) + if x in s then [] else [x]
  {
    assert (s + [x])[..|s + [x]| - 1] == s;
  }

  lemma {:induction false} FirstSeenElements(s: seq<string>)
    ensures NoDuplicates(FirstSeen(s))
    ensures forall x :: x in FirstSeen(s) <==> x in s
  {
    if s == [] {
    } else {
      var n := |s| - 1;
      FirstSeenElements(s[..n]);
      assert s == s[..n] + [s[n]];
    }
  }

  lemma SeenBeforeGrows(s: seq<string>, last: string, x: string, y: string)
    requires SeenBefore(s, x, y)
    ensures SeenBefore(s + [last], x, y)
  {
    var a :| 0 <= a < |s| && s[a] == x && y !in s[..a + 1];
    assert (s + [last])[..a + 1] == s[..a + 1];
  }

  lemma NewIsLast(s: seq<string>, x: string, y: string)
    requires x in s && y !in s
    ensures SeenBefore(s + [y], x, y)
  {
    var a :| 0 <= a < |s| && s[a] == x;
    assert (s + [y])[..a + 1] == s[..a + 1];
    assert forall z :: z in s[..a + 1] ==> z in s;
  }

  /** Same elements, no repetition, in the order of first occurrence. */
  lemma {:induction false} FirstSeenMeaning(s: seq<string>)
    ensures NoDuplicates(FirstSeen(s))
    ensures forall x :: x in FirstSeen(s) <==> x in s
    ensures forall i, j :: 0 <= i < j < |FirstSeen(s)| ==> SeenBefore(s, FirstSeen(s)[i], FirstSeen(s)[j])
  {
    FirstSeenElements(s);
    if s == [] {
    } else {
      var n := |s| - 1;
      var r, r' := FirstSeen(s), FirstSeen(s[..n]);
      FirstSeenMeaning(s[..n]);
      assert s == s[..n] + [s[n]];
      forall i, j | 0 <= i < j < |r| ensures SeenBefore(s, r[i], r[j]) {
        if j < |r'| {
          SeenBeforeGrows(s[..n], s[n], r'[i], r'[j]);
        } else {
          assert r'[i] in r';
          NewIsLast(s[..n], r[i], s[n]);
        }
      }
    }
  }

  /** The inner loop: one array appended to what was seen of the arrays before it. */
  method AppendUnseen(arr: seq<string>, seen: set<string>, out: seq<string>, ghost before: seq<string>)
    returns (seen': set<string>, out': seq<string>)
    requires out == FirstSeen(before) && forall x :: x in seen <==> x in before
    ensures out' == FirstSeen(before + arr) && forall x :: x in seen' <==> x in before + arr
  {
    seen', out' := seen, out;
    assert before + arr[..0] == before;
    var j := 0;
    while j < |arr|
      invariant 0 <= j <= |arr|
      invariant out' == FirstSeen(before + arr[..j])
      invariant forall x :: x in seen' <==> x in before + arr[..j]
    {
      var item := arr[j];
      assert before + arr[..j + 1] == before + arr[..j] + [item];
      FirstSeenSnoc(before + arr[..j], item);
      if item !in seen' {
        seen' := seen' + {item};
        out' := out' + [item];
      }
      j := j + 1;
    }
    assert arr[..j] == arr;
  }

  method DedupedFirstSeenUnion(arrays: seq<seq<string>>) returns (out: seq<string>)
    ensures out == FirstSeen(Concat(arrays))
  {
    var seen: set<string> := {};
    out := [];
    var i := 0;
    while i < |arrays|
      invariant 0 <= i <= |arrays|
      invariant out == FirstSeen(Concat(arrays[..i]))
      invariant forall x :: x in seen <==> x in Concat(arrays[..i])
    {
      seen, out := AppendUnseen(arrays[i], seen, out, Concat(arrays[..i]));
      assert arrays[..i + 1][..i] == arrays[..i];
      i := i + 1;
    }
    assert arrays[..i] == arrays;
  }

  // ---- resolveMergedMembers ----

  /** One cited entity: a member of the cluster or one of its stored neighbours. */
  datatype Cited = Cited(
    recordId: string,
    sourceEventIds: seq<string>,
    observationType: ObservationType,
    isClusterMember: bool,
    similarity: real,
    seenOrder: nat)

  /** Cluster members first, then falling similarity, then citation order. */
  predicate Precedes(a: Cited, b: Cited) {
    if a.isClusterMember != b.isClusterMember then a.isClusterMember
    else if a.similarity != b.similarity then a.similarity > b.similarity
    else a.seenOrder <= b.seenOrder
  }

  lemma PrecedesIsTotal()
    ensures TotalPreorder(Precedes)
  {
  }

  ghost predicate IsMember(group: seq<CandidateMemory>, id: string) {
    exists m :: 0 <= m < |group| && group[m].recordId == id
  }

  ghost predicate IsNeighbor(neighbors: seq<Neighbor>, id: string) {
    exists k :: 0 <= k < |neighbors| && neighbors[k].record.recordId == id
  }

  /** c describes the cluster member of that id or, when there is none, the neighbour of that id. */
  ghost predicate Resolves(c: Cited, group: seq<CandidateMemory>, neighbors: seq<Neighbor>) {
    if IsMember(group, c.recordId) then
      && c.isClusterMember && c.similarity == 1.0
      && exists m :: 0 <= m < |group| && group[m].recordId == c.recordId
                     && c.sourceEventIds == group[m].sourceEventIds
                     && c.observationType == group[m].fields.observationType
    else
      && !c.isClusterMember
      && exists k :: 0 <= k < |neighbors| && neighbors[k].record.recordId == c.recordId
                     && c.sourceEventIds == neighbors[k].record.sourceEventIds
                     && c.observationType == neighbors[k].record.fields.observationType
                     && c.similarity == neighbors[k].similarity
  }

  /** The known ones among the cited ids, each once. */
  ghost predicate ResolvesAll(cited: seq<Cited>, ids: seq<string>, group: seq<CandidateMemory>,
                              neighbors: seq<Neighbor>) {
    && (forall x :: 0 <= x < |cited| ==> cited[x].recordId in ids && Resolves(cited[x], group, neighbors))
    && (forall x, y :: 0 <= x < y < |cited| ==> cited[x].recordId != cited[y].recordId)
    && (forall id :: id in ids && (IsMember(group, id) || IsNeighbor(neighbors, id)) ==> Cites(cited, id))
  }

  ghost predicate Cites(cited: seq<Cited>, id: string) {
    exists x :: 0 <= x < |cited| && cited[x].recordId == id
  }

  /**
   * Members before neighbours, higher similarity before lower, and what ties in both in the order the judge first
   * cited it.
   */
  ghost predicate InCitationOrder(cited: seq<Cited>, ids: seq<string>) {
    forall x, y :: 0 <= x < y < |cited| ==> CitedBefore(cited[x], cited[y], ids)
  }

  ghost predicate CitedBefore(a: Cited, b: Cited, ids: seq<string>) {
    && (b.isClusterMember ==> a.isClusterMember)
    && (a.isClusterMember == b.isClusterMember ==> a.similarity >= b.similarity)
    && (a.isClusterMember == b.isClusterMember && a.similarity == b.similarity ==>
          SeenBefore(ids, a.recordId, b.recordId))
  }

  /** The order numbers rise with the order of first citation. */
  ghost predicate Numbered(cited: seq<Cited>, ids: seq<string>) {
    forall x, y :: 0 <= x < y < |cited| ==>
      cited[x].seenOrder < cited[y].seenOrder && SeenBefore(ids, cited[x].recordId, cited[y].recordId)
  }

  /** The neighbours among the cited entities: what a merge deletes. */
  function ToDelete(cited: seq<Cited>): seq<string> {
    if cited == [] then []
    else ToDelete(cited[..|cited| - 1]) +
         if cited[|cited| - 1].isClusterMember then [] else [cited[|cited| - 1].recordId]
  }

  method IndexMembers(group: seq<CandidateMemory>) returns (memberById: map<string, CandidateMemory>)
    ensures forall id :: id in memberById <==> IsMember(group, id)
    ensures forall id :: id in memberById ==>
              exists m :: 0 <= m < |group| && group[m] == memberById[id] && group[m].recordId == id
  {
    memberById := map[];
    var x := 0;
    while x < |group|
      invariant 0 <= x <= |group|
      invariant forall y :: 0 <= y < x ==> group[y].recordId in memberById
      invariant forall id :: id in memberById ==>
                  exists m :: 0 <= m < |group| && group[m] == memberById[id] && group[m].recordId == id
    {
      memberById := memberById[group[x].recordId := group[x]];
      x := x + 1;
    }
  }

  method IndexNeighbors(neighbors: seq<Neighbor>) returns (neighborById: map<string, Neighbor>)
    ensures forall id :: id in neighborById <==> IsNeighbor(neighbors, id)
    ensures forall id :: id in neighborById ==>
              exists k :: 0 <= k < |neighbors| && neighbors[k] == neighborById[id] && neighbors[k].record.recordId == id
  {
    neighborById := map[];
    var x := 0;
    while x < |neighbors|
      invariant 0 <= x <= |neighbors|
      invariant forall y :: 0 <= y < x ==> neighbors[y].record.recordId in neighborById
      invariant forall id :: id in neighborById ==>
                  exists k :: 0 <= k < |neighbors| && neighbors[k] == neighborById[id]
                      && neighbors[k].record.recordId == id
    {
      neighborById := neighborById[neighbors[x].record.recordId := neighbors[x]];
      x := x + 1;
    }
  }

  method ResolveMergedMembers(ids: seq<string>, group: seq<CandidateMemory>, neighbors: seq<Neighbor>)
    returns (cited: seq<Cited>, neighborIdsToDelete: seq<string>)
    ensures ResolvesAll(cited, ids, group, neighbors)
    ensures Ordered(cited, Precedes) && InCitationOrder(cited, ids)
    ensures neighborIdsToDelete == ToDelete(cited)
  {
    var memberById := IndexMembers(group);
    var neighborById := IndexNeighbors(neighbors);
    var indexed := CollectCited(ids, group, neighbors, memberById, neighborById);
    cited := Sort(indexed, Precedes);
    PrecedesIsTotal();
    SortOrdered(indexed, Precedes);
    PermutedResolvesAll(indexed, cited, ids, group, neighbors);
    SortedByCitation(indexed, cited, ids);
    neighborIdsToDelete := NeighborIds(cited);
  }

  method NeighborIds(cited: seq<Cited>) returns (ids: seq<string>)
    ensures ids == ToDelete(cited)
  {
    ids := [];
    var x := 0;
    while x < |cited|
      invariant 0 <= x <= |cited|
      invariant ids == ToDelete(cited[..x])
    {
      assert cited[..x + 1][..x] == cited[..x];
      if !cited[x].isClusterMember {
        ids := ids + [cited[x].recordId];
      }
      x := x + 1;
    }
    assert cited[..x] == cited;
  }

  method CollectCited(ids: seq<string>, group: seq<CandidateMemory>, neighbors: seq<Neighbor>,
                      memberById: map<string, CandidateMemory>, neighborById: map<string, Neighbor>)
    returns (indexed: seq<Cited>)
    requires forall id :: id in memberById <==> IsMember(group, id)
    requires forall id :: id in memberById ==>
               exists m :: 0 <= m < |group| && group[m] == memberById[id] && group[m].recordId == id
    requires forall id :: id in neighborById <==> IsNeighbor(neighbors, id)
    requires forall id :: id in neighborById ==>
               exists k :: 0 <= k < |neighbors| && neighbors[k] == neighborById[id]
                   && neighbors[k].record.recordId == id
    ensures ResolvesAll(indexed, ids, group, neighbors) && Numbered(indexed, ids)
  {
    hide ResolvesAll, Numbered, IsMember, IsNeighbor, Resolves;
    var seenIds: set<string> := {};
    indexed := [];
    var i := 0;
    NothingCited(group, neighbors);
    while i < |ids|
      invariant 0 <= i <= |ids|
      invariant forall id :: id in seenIds <==> id in ids[..i]
      invariant ResolvesAll(indexed, ids[..i], group, neighbors)
      invariant forall x :: 0 <= x < |indexed| ==> indexed[x].seenOrder < |indexed|
      invariant Numbered(indexed, ids[..i])
    {
      var id := ids[i];
      assert ids[..i + 1] == ids[..i] + [id];
      StillNumbered(indexed, ids[..i], id);
      SkipResolved(indexed, ids[..i], id, group, neighbors);
      if id !in seenIds {
        seenIds := seenIds + {id};
        if id in memberById {
          var c := memberById[id];
          var entry := Cited(c.recordId, c.sourceEventIds, c.fields.observationType, true, 1.0, |indexed|);
          MemberResolves(entry, c, group, neighbors);
          AppendResolved(indexed, entry, ids[..i], id, group, neighbors);
          AppendNumbered(indexed, entry, ids[..i], id, group, neighbors);
          indexed := indexed + [entry];
        } else if id in neighborById {
          var n := neighborById[id];
          var entry := Cited(n.record.recordId, n.record.sourceEventIds, n.record.fields.observationType, false,
                             n.similarity, |indexed|);
          NeighborResolves(entry, n, group, neighbors);
          AppendResolved(indexed, entry, ids[..i], id, group, neighbors);
          AppendNumbered(indexed, entry, ids[..i], id, group, neighbors);
          indexed := indexed + [entry];
        }
      }
      i := i + 1;
    }
    assert ids[..i] == ids;
  }

  lemma StillNumbered(indexed: seq<Cited>, ids: seq<string>, id: string)
    requires Numbered(indexed, ids)
    ensures Numbered(indexed, ids + [id])
  {
    forall x, y | 0 <= x < y < |indexed| ensures SeenBefore(ids + [id], indexed[x].recordId, indexed[y].recordId) {
      SeenBeforeGrows(ids, id, indexed[x].recordId, indexed[y].recordId);
    }
  }

  lemma NothingCited(group: seq<CandidateMemory>, neighbors: seq<Neighbor>)
    ensures ResolvesAll([], [], group, neighbors) && Numbered([], [])
  {
  }

  /** A repeated or unknown id adds nothing. */
  lemma SkipResolved(indexed: seq<Cited>, ids: seq<string>, id: string, group: seq<CandidateMemory>,
                     neighbors: seq<Neighbor>)
    requires ResolvesAll(indexed, ids, group, neighbors)
    ensures id in ids || !(IsMember(group, id) || IsNeighbor(neighbors, id)) ==>
              ResolvesAll(indexed, ids + [id], group, neighbors)
  {
  }

  lemma MemberResolves(entry: Cited, c: CandidateMemory, group: seq<CandidateMemory>, neighbors: seq<Neighbor>)
    requires exists m :: 0 <= m < |group| && group[m] == c && group[m].recordId == entry.recordId
    requires entry.sourceEventIds == c.sourceEventIds && entry.observationType == c.fields.observationType
    requires entry.isClusterMember && entry.similarity == 1.0
    ensures Resolves(entry, group, neighbors)
  {
  }

  lemma NeighborResolves(entry: Cited, n: Neighbor, group: seq<CandidateMemory>, neighbors: seq<Neighbor>)
    requires !IsMember(group, entry.recordId)
    requires exists k :: 0 <= k < |neighbors| && neighbors[k] == n && neighbors[k].record.recordId == entry.recordId
    requires entry.sourceEventIds == n.record.sourceEventIds
    requires entry.observationType == n.record.fields.observationType
    requires !entry.isClusterMember && entry.similarity == n.similarity
    ensures Resolves(entry, group, neighbors)
  {
  }

  lemma AppendNumbered(indexed: seq<Cited>, entry: Cited, ids: seq<string>, id: string, group: seq<CandidateMemory>,
                       neighbors: seq<Neighbor>)
    requires Numbered(indexed, ids) && id !in ids && entry.recordId == id && ResolvesAll(indexed, ids, group, neighbors)
    requires forall x :: 0 <= x < |indexed| ==> indexed[x].seenOrder < entry.seenOrder
    ensures Numbered(indexed + [entry], ids + [id])
  {
    var more := indexed + [entry];
    StillNumbered(indexed, ids, id);
    forall x, y | 0 <= x < y < |more|
      ensures more[x].seenOrder < more[y].seenOrder && SeenBefore(ids + [id], more[x].recordId, more[y].recordId)
    {
      if y == |indexed| { NewIsLast(ids, more[x].recordId, id); }
    }
  }

  /** Sorting by the order numbers sorts ties by first citation. */
  lemma SortedByCitation(indexed: seq<Cited>, cited: seq<Cited>, ids: seq<string>)
    requires multiset(cited) == multiset(indexed) && Ordered(cited, Precedes) && Numbered(indexed, ids)
    requires forall x, y :: 0 <= x < y < |cited| ==> cited[x].recordId != cited[y].recordId
    ensures InCitationOrder(cited, ids)
  {
    SameElements(cited, indexed);
    forall x, y | 0 <= x < y < |cited| ensures CitedBefore(cited[x], cited[y], ids) {
      assert Precedes(cited[x], cited[y]) && cited[x] in indexed && cited[y] in indexed;
      var a :| 0 <= a < |indexed| && indexed[a] == cited[x];
      var b :| 0 <= b < |indexed| && indexed[b] == cited[y];
      assert b < a ==> indexed[b].seenOrder < indexed[a].seenOrder;
    }
  }

  lemma AppendResolved(indexed: seq<Cited>, entry: Cited, ids: seq<string>, id: string,
                       group: seq<CandidateMemory>, neighbors: seq<Neighbor>)
    requires ResolvesAll(indexed, ids, group, neighbors) && id !in ids
    requires entry.recordId == id && Resolves(entry, group, neighbors)
    ensures ResolvesAll(indexed + [entry], ids + [id], group, neighbors)
  {
    var more := indexed + [entry];
    forall other | other in ids + [id] && (IsMember(group, other) || IsNeighbor(neighbors, other))
      ensures Cites(more, other)
    {
      if other == id {
        assert more[|indexed|].recordId == id;
      } else {
        var x :| 0 <= x < |indexed| && indexed[x].recordId == other;
        assert more[x].recordId == other;
      }
    }
  }

  lemma PermutedResolvesAll(s: seq<Cited>, t: seq<Cited>, ids: seq<string>,
                            group: seq<CandidateMemory>, neighbors: seq<Neighbor>)
    requires multiset(s) == multiset(t) && ResolvesAll(s, ids, group, neighbors)
    ensures ResolvesAll(t, ids, group, neighbors)
  {
    SameElements(s, t);
    assert NoDuplicates(s);
    NoDuplicatesPermutation(s, t);
    forall x | 0 <= x < |t| ensures t[x].recordId in ids && Resolves(t[x], group, neighbors) {
      assert t[x] in s;
    }
    forall x, y | 0 <= x < y < |t| ensures t[x].recordId != t[y].recordId {
      assert t[x] in s && t[y] in s && t[x] != t[y];
      var a :| 0 <= a < |s| && s[a] == t[x];
      var b :| 0 <= b < |s| && s[b] == t[y];
    }
    forall id | Cites(s, id) ensures Cites(t, id) {
      var a :| 0 <= a < |s| && s[a].recordId == id;
      assert s[a] in t;
      var x :| 0 <= x < |t| && t[x] == s[a];
    }
  }

  lemma {:induction false} ToDeleteMeaning(cited: seq<Cited>)
    requires forall x, y :: 0 <= x < y < |cited| ==> cited[x].recordId != cited[y].recordId
    ensures forall id :: id in ToDelete(cited) <==>
              exists x :: 0 <= x < |cited| && !cited[x].isClusterMember && cited[x].recordId == id
    ensures NoDuplicates(ToDelete(cited))
  {
    if cited == [] {
    } else {
      var n := |cited| - 1;
      ToDeleteMeaning(cited[..n]);
      var rest := ToDelete(cited[..n]);
      forall id | id in ToDelete(cited)
        ensures exists x :: 0 <= x < |cited| && !cited[x].isClusterMember && cited[x].recordId == id
      {
        if id in rest {
          var x :| 0 <= x < n && !cited[..n][x].isClusterMember && cited[..n][x].recordId == id;
          assert !cited[x].isClusterMember && cited[x].recordId == id;
        }
      }
      forall k | 0 <= k < |rest| ensures rest[k] != cited[n].recordId {
        assert rest[k] in rest;
      }
      forall x | 0 <= x < |cited| && !cited[x].isClusterMember ensures cited[x].recordId in ToDelete(cited) {
        if x < n { assert cited[..n][x] == cited[x]; }
      }
    }
  }

  // ---- composeSummaryRecord ----

  function EventArrays(cited: seq<Cited>): (r: seq<seq<string>>)
    ensures |r| == |cited|
  {
    seq(|cited|, x requires 0 <= x < |cited| => cited[x].sourceEventIds)
  }

  /** The judge's type when it gave one, else the type of the first cited entity. */
  function SummaryType(decision: JudgeMerge, cited: seq<Cited>): ObservationType {
    match decision.observationType
    case Some(t) => t
    case None => if cited == [] then ToolUse else cited[0].observationType
  }

  ghost predicate Summarises(summary: MemoryRecord, decision: JudgeMerge, cited: seq<Cited>, namespace: string) {
    && summary.namespace == namespace
    && summary.sourceEventIds == FirstSeen(Concat(EventArrays(cited)))
    && summary.fields == Fields("llm-reconciled", decision.title, decision.summary, decision.facts, decision.concepts,
                                decision.filesTouched, SummaryType(decision, cited))
  }

  method ComposeSummaryRecord(decision: JudgeMerge, cited: seq<Cited>, namespace: string, recordId: string, now: string)
    returns (summary: MemoryRecord)
    ensures Summarises(summary, decision, cited, namespace)
    ensures summary.recordId == recordId && summary.createdAt == now && summary.namespace == namespace
    ensures summary.fields.strategy == "llm-reconciled"
    ensures summary.fields.title == decision.title && summary.fields.summary == decision.summary
    ensures summary.fields.facts == decision.facts && summary.fields.concepts == decision.concepts
    ensures summary.fields.filesTouched == decision.filesTouched
    ensures decision.observationType.Some? ==> summary.fields.observationType == decision.observationType.value
  {
    var sourceEventIds := DedupedFirstSeenUnion(EventArrays(cited));
    var fields := Fields("llm-reconciled", decision.title, decision.summary, decision.facts, decision.concepts,
                         decision.filesTouched, SummaryType(decision, cited));
    summary := MemoryRecord(recordId, namespace, sourceEventIds, fields, now);
  }

  lemma {:induction false} InConcat(arrays: seq<seq<string>>, i: nat, event: string)
    requires i < |arrays| && event in arrays[i]
    ensures event in Concat(arrays)
  {
    if i < |arrays| - 1 { InConcat(arrays[..|arrays| - 1], i, event); }
  }

  /** A summary vouches for every event any cited entity vouched for. */
  lemma SummaryCovers(summary: MemoryRecord, decision: JudgeMerge, cited: seq<Cited>, namespace: string, x: nat,
                      event: string)
    requires Summarises(summary, decision, cited, namespace)
    requires x < |cited| && event in cited[x].sourceEventIds
    ensures event in summary.sourceEventIds
  {
    InConcat(EventArrays(cited), x, event);
    FirstSeenMeaning(Concat(EventArrays(cited)));
  }

  lemma {:induction false} FromConcat(arrays: seq<seq<string>>, event: string) returns (i: nat)
    requires event in Concat(arrays)
    ensures i < |arrays| && event in arrays[i]
  {
    var n := |arrays| - 1;
    if event in Concat(arrays[..n]) {
      i := FromConcat(arrays[..n], event);
    } else {
      i := n;
    }
  }

  /** A summary vouches for nothing else. */
  lemma SummaryOnlyCovers(summary: MemoryRecord, decision: JudgeMerge, cited: seq<Cited>, namespace: string,
                          event: string)
    returns (x: nat)
    requires Summarises(summary, decision, cited, namespace) && event in summary.sourceEventIds
    ensures x < |cited| && event in cited[x].sourceEventIds
  {
    FirstSeenMeaning(Concat(EventArrays(cited)));
    x := FromConcat(EventArrays(cited), event);
  }

  lemma {:induction false} ConcatSplits(arrays: seq<seq<string>>, n: nat)
    requires n <= |arrays|
    ensures Concat(arrays[..n]) <= Concat(arrays)
  {
    if n == |arrays| {
      assert arrays[..n] == arrays;
    } else {
      ConcatSplits(arrays[..|arrays| - 1], n);
      assert arrays[..|arrays| - 1][..n] == arrays[..n];
    }
  }

  /** Events of an entity come before those that only later entities bring. */
  lemma SummaryEventOrder(summary: MemoryRecord, decision: JudgeMerge, cited: seq<Cited>, namespace: string, x: nat,
                          i: nat, j: nat)
    requires Summarises(summary, decision, cited, namespace) && x < |cited|
    requires i < |summary.sourceEventIds| && j < |summary.sourceEventIds|
    requires summary.sourceEventIds[i] in cited[x].sourceEventIds
    requires forall y :: 0 <= y <= x ==> summary.sourceEventIds[j] !in cited[y].sourceEventIds
    ensures i < j
  {
    var arrays, e, f := EventArrays(cited), summary.sourceEventIds[i], summary.sourceEventIds[j];
    var all, head := Concat(arrays), Concat(arrays[..x + 1]);
    ConcatSplits(arrays, x + 1);
    InConcat(arrays[..x + 1], x, e);
    if f in head { var y := FromConcat(arrays[..x + 1], f); }
    FirstSeenMeaning(all);
    NotSeenBefore(all, head, f, e);
  }

  lemma NotSeenBefore(all: seq<string>, head: seq<string>, later: string, earlier: string)
    requires head <= all && earlier in head && later !in head
    ensures !SeenBefore(all, later, earlier)
  {
    forall a | 0 <= a < |head| ensures all[a] != later {
      assert all[a] == head[a] && head[a] in head;
    }
    var k :| 0 <= k < |head| && head[k] == earlier;
    forall a | 0 <= a < |all| && all[a] == later ensures earlier in all[..a + 1] {
      assert all[..a + 1][k] == earlier;
    }
  }

  /**
   * Without a judge's type: the type of the cited member the judge named first, or, with no member cited, of a
   * neighbour no cited one is nearer than, the first named of those as near.
   */
  lemma FallbackType(summary: MemoryRecord, decision: JudgeMerge, cited: seq<Cited>, namespace: string,
                     group: seq<CandidateMemory>, neighbors: seq<Neighbor>)
    requires Summarises(summary, decision, cited, namespace) && decision.observationType.None? && cited != []
    requires ResolvesAll(cited, decision.mergedRecordIds, group, neighbors)
    requires InCitationOrder(cited, decision.mergedRecordIds)
    ensures summary.fields.observationType == cited[0].observationType
    ensures forall id :: id in decision.mergedRecordIds && IsMember(group, id) && id != cited[0].recordId ==>
              IsMember(group, cited[0].recordId) && SeenBefore(decision.mergedRecordIds, cited[0].recordId, id)
    ensures forall x :: 0 < x < |cited| && !IsMember(group, cited[0].recordId) ==>
              cited[x].similarity <= cited[0].similarity
    ensures forall x :: 0 < x < |cited| && !IsMember(group, cited[0].recordId)
                        && cited[x].similarity == cited[0].similarity ==>
              SeenBefore(decision.mergedRecordIds, cited[0].recordId, cited[x].recordId)
  {
    var ids := decision.mergedRecordIds;
    assert Resolves(cited[0], group, neighbors);
    forall id | id in ids && IsMember(group, id) && id != cited[0].recordId
      ensures IsMember(group, cited[0].recordId) && SeenBefore(ids, cited[0].recordId, id)
    {
      assert Cites(cited, id);
      var x :| 0 <= x < |cited| && cited[x].recordId == id;
      assert Resolves(cited[x], group, neighbors) && CitedBefore(cited[0], cited[x], ids);
    }
    forall x | 0 < x < |cited| && !IsMember(group, cited[0].recordId)
      ensures cited[x].similarity <= cited[0].similarity
      ensures cited[x].similarity == cited[0].similarity ==> SeenBefore(ids, cited[0].recordId, cited[x].recordId)
    {
      assert Resolves(cited[x], group, neighbors) && CitedBefore(cited[0], cited[x], ids);
    }
  }
}
