/** The hybrid read path: fusion, two-stage truncation, join; and the reconciler's neighbour lookup. */
module Search {
  import opened MemoryTypes
  import opened Ordering
  import opened Cosine
  import opened Rrf

  // ---- The rich order and the two ways to rank ----

  function CreatedAt(created: map<string, string>, id: string): string {
    if id in created then created[id] else ""
  }

  /** fused_score DESC, created_at DESC, record_id ASC. */
  predicate Richer(created: map<string, string>, a: Fused, b: Fused) {
    || a.score > b.score
    || (a.score == b.score
        && if CreatedAt(created, a.recordId) != CreatedAt(created, b.recordId)
           then TextLe(CreatedAt(created, b.recordId), CreatedAt(created, a.recordId))
           else TextLe(a.recordId, b.recordId))
  }

  function ByRichness(created: map<string, string>): (Fused, Fused) -> bool {
    (a, b) => Richer(created, a, b)
  }

  lemma RicherIsTotal(created: map<string, string>)
    ensures TotalPreorder(ByRichness(created))
  {
    forall a: Fused, b: Fused ensures Richer(created, a, b) || Richer(created, b, a) {
      TextLeTotal(a.recordId, b.recordId);
      TextLeTotal(CreatedAt(created, a.recordId), CreatedAt(created, b.recordId));
    }
    forall a: Fused, b: Fused, c: Fused | Richer(created, a, b) && Richer(created, b, c) ensures Richer(created, a, c) {
      RicherTransitive(created, a, b, c);
    }
    var le := ByRichness(created);
    assert forall a: Fused, b: Fused :: le(a, b) == Richer(created, a, b);
  }

  lemma RicherTransitive(created: map<string, string>, a: Fused, b: Fused, c: Fused)
    requires Richer(created, a, b) && Richer(created, b, c)
    ensures Richer(created, a, c)
  {
    var x, y, z := CreatedAt(created, a.recordId), CreatedAt(created, b.recordId), CreatedAt(created, c.recordId);
    if a.score == b.score == c.score {
      TextLeTotal(x, y);
      TextLeTotal(y, z);
      if x != y && y != z {
        TextLeTransitive(z, y, x);
        TextLeTotal(x, z);
      } else if x == y && y == z {
        TextLeTransitive(a.recordId, b.recordId, c.recordId);
      }
    }
  }

  ghost predicate DistinctIds(hits: seq<Fused>) {
    forall i, j :: 0 <= i < j < |hits| ==> hits[i].recordId != hits[j].recordId
  }

  lemma DistinctNoTies(hits: seq<Fused>, created: map<string, string>)
    requires DistinctIds(hits)
    ensures NoTies(hits, ByRichness(created))
  {
    forall a, b | a in hits && b in hits && Richer(created, a, b) && Richer(created, b, a) ensures a == b {
      TextLeTotal(a.recordId, b.recordId);
      TextLeTotal(CreatedAt(created, a.recordId), CreatedAt(created, b.recordId));
    }
  }

  /** A total order that breaks ties between equal scores in some way. */
  ghost predicate RefinesScore(le: (Fused, Fused) -> bool) {
    && TotalPreorder(le)
    && (forall x: Fused, y: Fused :: x.score > y.score ==> le(x, y))
    && (forall x: Fused, y: Fused :: le(x, y) ==> x.score >= y.score)
  }

  lemma RicherRefinesScore(created: map<string, string>)
    ensures RefinesScore(ByRichness(created))
  {
    RicherIsTotal(created);
  }

  /** Sorting every hit by the rich order and taking limit. */
  function FullRank(fused: seq<Fused>, le: (Fused, Fused) -> bool, limit: nat): seq<Fused> {
    Sort(fused, le)[..Kept(limit, |fused|)]
  }

  /** What search does to the fused hits: cut at 2 * limit by (score, id), then rank what is left. */
  function TwoStage(fused: seq<Fused>, le: (Fused, Fused) -> bool, limit: nat): seq<Fused> {
    FullRank(fused[..Kept(2 * limit, |fused|)], le, limit)
  }

  /** The first hit that was cut scores strictly below the last place on the page. */
  predicate CutIsClear(fused: seq<Fused>, limit: nat)
    requires limit >= 1
  {
    |fused| <= 2 * limit || fused[2 * limit].score < fused[limit - 1].score
  }

  // ---- Scores of a best-k selection ----

  ghost function Scores(hits: seq<Fused>): (r: seq<real>)
    ensures |r| == |hits|
  {
    seq(|hits|, i requires 0 <= i < |hits| => hits[i].score)
  }

  ghost function Without(s: seq<Fused>, i: nat): (r: seq<Fused>)
    requires i < |s|
    ensures |r| == |s| - 1
  {
    s[..i] + s[i + 1..]
  }

  lemma ScoreOut(t: seq<Fused>, j: nat)
    requires j < |t|
    ensures multiset(t) == multiset{t[j]} + multiset(Without(t, j))
    ensures multiset(Scores(t)) == multiset{t[j].score} + multiset(Scores(Without(t, j)))
  {
    assert t == t[..j] + [t[j]] + t[j + 1..];
    assert Scores(t) == Scores(t[..j]) + [t[j].score] + Scores(t[j + 1..]);
    assert Scores(t[..j] + t[j + 1..]) == Scores(t[..j]) + Scores(t[j + 1..]);
  }

  lemma FindIn(s: seq<Fused>, t: seq<Fused>) returns (j: nat)
    requires multiset(s) == multiset(t) && s != []
    ensures j < |t| && t[j] == s[0]
    ensures multiset(Without(s, 0)) == multiset(Without(t, j))
  {
    assert s[0] in multiset(t);
    j :| 0 <= j < |t| && t[j] == s[0];
    ScoreOut(s, 0);
    ScoreOut(t, j);
    assert multiset(Without(s, 0)) == multiset(s) - multiset{s[0]};
    assert multiset(Without(t, j)) == multiset(t) - multiset{s[0]};
  }

  lemma {:induction false} SameScores(s: seq<Fused>, t: seq<Fused>)
    requires multiset(s) == multiset(t)
    ensures multiset(Scores(s)) == multiset(Scores(t))
    decreases |s|
  {
    if s == [] {
      EmptyToo(t);
    } else {
      var j := FindIn(s, t);
      SameScores(Without(s, 0), Without(t, j));
      ScoreOut(s, 0);
      ScoreOut(t, j);
    }
  }

  lemma EmptyToo(t: seq<Fused>)
    requires multiset(t) == multiset([])
    ensures t == []
  {
    assert |t| == |multiset(t)|;
  }

  predicate Above(x: real, y: real) { x >= y }

  ghost predicate FallsByScore(hits: seq<Fused>) {
    forall i, j :: 0 <= i < j < |hits| ==> hits[i].score >= hits[j].score
  }

  /** Any two score-sorted arrangements of the same hits show the same scores. */
  lemma ScoresDetermined(s: seq<Fused>, t: seq<Fused>)
    requires multiset(s) == multiset(t) && FallsByScore(s) && FallsByScore(t)
    ensures Scores(s) == Scores(t)
  {
    SameScores(s, t);
    OrderedUnique(Scores(s), Scores(t), Above);
  }

  lemma SortFalls(hits: seq<Fused>, le: (Fused, Fused) -> bool)
    requires RefinesScore(le)
    ensures FallsByScore(Sort(hits, le))
  {
    SortOrdered(hits, le);
  }

  lemma ScoresOfCut(hits: seq<Fused>, n: nat)
    requires n <= |hits|
    ensures Scores(hits[..n]) == Scores(hits)[..n]
  {
  }

  lemma FullRankScores(hits: seq<Fused>, le: (Fused, Fused) -> bool, limit: nat)
    requires FallsByScore(hits) && RefinesScore(le)
    ensures |FullRank(hits, le, limit)| == Kept(limit, |hits|)
    ensures Scores(FullRank(hits, le, limit)) == Scores(hits[..Kept(limit, |hits|)])
  {
    var n := Kept(limit, |hits|);
    SortFalls(hits, le);
    ScoresDetermined(Sort(hits, le), hits);
    ScoresOfCut(Sort(hits, le), n);
    ScoresOfCut(hits, n);
  }

  /** Whatever ties there are, both rankings show the same scores, position by position. */
  lemma TwoStageScores(fused: seq<Fused>, le: (Fused, Fused) -> bool, limit: nat)
    requires FallsByScore(fused) && RefinesScore(le)
    ensures |TwoStage(fused, le, limit)| == |FullRank(fused, le, limit)| == Kept(limit, |fused|)
    ensures Scores(TwoStage(fused, le, limit)) == Scores(FullRank(fused, le, limit))
         == Scores(fused[..Kept(limit, |fused|)])
  {
    var shortlist := fused[..Kept(2 * limit, |fused|)];
    FullRankScores(fused, le, limit);
    FullRankScores(shortlist, le, limit);
    assert shortlist[..Kept(limit, |fused|)] == fused[..Kept(limit, |fused|)];
  }

  // ---- When the two rankings return the same records ----

  lemma ScoreAt(hits: seq<Fused>, other: seq<Fused>, i: nat)
    requires Scores(hits) == Scores(other) && i < |hits|
    ensures |other| == |hits| && hits[i].score == other[i].score
  {
    assert Scores(hits)[i] == hits[i].score && Scores(other)[i] == other[i].score;
  }

  lemma PageScoresHigh(fused: seq<Fused>, le: (Fused, Fused) -> bool, limit: nat, i: nat)
    requires limit >= 1 && FallsByScore(fused) && RefinesScore(le) && limit <= |fused| && i < limit
    ensures |TwoStage(fused, le, limit)| == limit
    ensures TwoStage(fused, le, limit)[i].score >= fused[limit - 1].score
  {
    TwoStageScores(fused, le, limit);
    ScoreAt(TwoStage(fused, le, limit), fused[..limit], i);
  }

  /** Past a clear cut nothing scores as high as the last place on the page. */
  lemma ClearCutSeparates(fused: seq<Fused>, le: (Fused, Fused) -> bool, limit: nat, page: seq<Fused>,
                          spare: seq<Fused>)
    requires limit >= 1 && FallsByScore(fused) && CutIsClear(fused, limit)
    requires forall x: Fused, y: Fused :: x.score > y.score ==> le(x, y)
    requires Ordered(page + spare, le)
    requires multiset(page + spare) == multiset(fused[..Kept(2 * limit, |fused|)])
    requires forall i :: 0 <= i < |page| && limit <= |fused| ==> page[i].score >= fused[limit - 1].score
    ensures Separates(page, spare + fused[Kept(2 * limit, |fused|)..], fused, le)
  {
    var m := Kept(2 * limit, |fused|);
    var rest := spare + fused[m..];
    assert page + rest == (page + spare) + fused[m..];
    assert fused == fused[..m] + fused[m..];
    forall i, j | 0 <= i < |page| && 0 <= j < |rest| ensures le(page[i], rest[j]) {
      if j < |spare| {
        assert le((page + spare)[i], (page + spare)[|page| + j]);
      } else {
        assert rest[j] == fused[m + (j - |spare|)];
      }
    }
  }

  lemma PrefixOrdered(s: seq<Fused>, n: nat, le: (Fused, Fused) -> bool)
    requires n <= |s| && Ordered(s, le)
    ensures Ordered(s[..n], le)
  {
  }

  /** A clear cut makes the shortcut exact, whatever the tie-break. */
  lemma ClearCutSameRecords(fused: seq<Fused>, le: (Fused, Fused) -> bool, limit: nat)
    requires limit >= 1 && FallsByScore(fused) && CutIsClear(fused, limit)
    requires RefinesScore(le) && NoTies(fused, le)
    ensures TwoStage(fused, le, limit) == FullRank(fused, le, limit)
  {
    hide FallsByScore, CutIsClear, NoTies, Separates, Ordered, Sort;
    var m, n := Kept(2 * limit, |fused|), Kept(limit, |fused|);
    var sorted := Sort(fused[..m], le);
    var page, spare := TwoStage(fused, le, limit), sorted[n..];
    assert page + spare == sorted;
    SortOrdered(fused[..m], le);
    PrefixOrdered(sorted, n, le);
    forall i | 0 <= i < |page| && limit <= |fused| ensures page[i].score >= fused[limit - 1].score {
      PageScoresHigh(fused, le, limit, i);
    }
    ClearCutSeparates(fused, le, limit, page, spare);
    SplitUnique(page, spare + fused[m..], fused, limit, le);
  }

  /** Every hit has a creation time. */
  ghost predicate Dated(created: map<string, string>, fused: seq<Fused>) {
    forall i :: 0 <= i < |fused| ==> fused[i].recordId in created
  }

  /** One hit is newer than all the others, which were created together. */
  ghost function NewestIs(fused: seq<Fused>, lost: Fused): map<string, string> {
    map hit | hit in fused :: hit.recordId := if hit.recordId == lost.recordId then "2" else "1"
  }

  lemma NewestAt(fused: seq<Fused>, lost: Fused, hit: Fused)
    requires hit in fused
    ensures hit.recordId in NewestIs(fused, lost)
    ensures CreatedAt(NewestIs(fused, lost), hit.recordId) == if hit.recordId == lost.recordId then "2" else "1"
  {
  }

  lemma OlderRanksLower(fused: seq<Fused>, a: Fused, lost: Fused)
    requires a in fused && lost in fused && a.score == lost.score && a.recordId != lost.recordId
    ensures !Richer(NewestIs(fused, lost), a, lost)
  {
    hide NewestIs, CreatedAt;
    NewestAt(fused, lost, a);
    NewestAt(fused, lost, lost);
    assert !TextLe("2", "1");
  }

  lemma CutHitIsNotShown(fused: seq<Fused>, le: (Fused, Fused) -> bool, limit: nat)
    requires DistinctIds(fused) && |fused| > 2 * limit
    ensures fused[2 * limit] !in TwoStage(fused, le, limit)
  {
    var shortlist := fused[..2 * limit];
    SameElements(Sort(shortlist, le), shortlist);
    forall x | x in TwoStage(fused, le, limit) ensures x != fused[2 * limit] {
      assert x in Sort(shortlist, le);
      assert x in shortlist;
    }
  }

  /** A hit that beats every other hit of its score, with the score of the last place, is on the full page. */
  lemma BestOfItsScoreRanks(fused: seq<Fused>, le: (Fused, Fused) -> bool, limit: nat, best: Fused)
    requires 1 <= limit <= |fused| && FallsByScore(fused) && RefinesScore(le)
    requires best in fused && best.score == fused[limit - 1].score
    requires forall x :: x in fused && x.score == best.score && le(x, best) ==> x == best
    ensures best in FullRank(fused, le, limit)
  {
    var full, sorted := FullRank(fused, le, limit), Sort(fused, le);
    TwoStageScores(fused, le, limit);
    SortOrdered(fused, le);
    SameElements(sorted, fused);
    assert best in sorted;
    var at :| 0 <= at < |sorted| && sorted[at] == best;
    var last := full[limit - 1];
    assert last == sorted[limit - 1] && last in sorted;
    if at < limit {
      assert full[at] == best;
    } else {
      assert le(sorted[limit - 1], sorted[at]);
      ScoreAt(full, fused[..limit], limit - 1);
      assert last in full;
    }
  }

  lemma NewestIsDated(fused: seq<Fused>, lost: Fused)
    ensures Dated(NewestIs(fused, lost), fused)
  {
    hide NewestIs, CreatedAt;
    forall i | 0 <= i < |fused| ensures fused[i].recordId in NewestIs(fused, lost) {
      NewestAt(fused, lost, fused[i]);
    }
  }

  lemma NewestWinsTies(fused: seq<Fused>, lost: Fused)
    requires DistinctIds(fused) && lost in fused
    ensures forall x :: x in fused && x.score == lost.score && Richer(NewestIs(fused, lost), x, lost) ==> x == lost
  {
    hide NewestIs, Richer;
    forall x | x in fused && x.score == lost.score && Richer(NewestIs(fused, lost), x, lost) ensures x == lost {
      if x.recordId != lost.recordId { OlderRanksLower(fused, x, lost); }
    }
  }

  /** A newest record just past the cut belongs on the page but never gets there. */
  lemma BlurredCutLosesRecord(fused: seq<Fused>, limit: nat)
    requires limit >= 1 && FallsByScore(fused) && DistinctIds(fused) && !CutIsClear(fused, limit)
    ensures var created := NewestIs(fused, fused[2 * limit]);
            && Dated(created, fused)
            && TwoStage(fused, ByRichness(created), limit) != FullRank(fused, ByRichness(created), limit)
  {
    hide NewestIs, Richer, TwoStage, FullRank, Dated, RefinesScore, DistinctIds;
    var lost := fused[2 * limit];
    var created := NewestIs(fused, lost);
    NewestIsDated(fused, lost);
    NewestWinsTies(fused, lost);
    RicherRefinesScore(created);
    CutHitIsNotShown(fused, ByRichness(created), limit);
    BestOfItsScoreRanks(fused, ByRichness(created), limit, lost);
  }

  /** The two-stage shortcut returns the full ranking, for all creation times, exactly when the cut is clear. */
  lemma TwoStageExact(fused: seq<Fused>, limit: nat)
    requires limit >= 1 && FallsByScore(fused) && DistinctIds(fused)
    ensures (forall created :: Dated(created, fused) ==>
               TwoStage(fused, ByRichness(created), limit) == FullRank(fused, ByRichness(created), limit))
        <==> CutIsClear(fused, limit)
  {
    if CutIsClear(fused, limit) {
      forall created | Dated(created, fused)
        ensures TwoStage(fused, ByRichness(created), limit) == FullRank(fused, ByRichness(created), limit)
      {
        ClearCutIsExact(fused, created, limit);
      }
    } else {
      BlurredCutLosesRecord(fused, limit);
    }
  }

  lemma ClearCutIsExact(fused: seq<Fused>, created: map<string, string>, limit: nat)
    requires limit >= 1 && FallsByScore(fused) && DistinctIds(fused) && CutIsClear(fused, limit)
    ensures TwoStage(fused, ByRichness(created), limit) == FullRank(fused, ByRichness(created), limit)
  {
    RicherRefinesScore(created);
    DistinctNoTies(fused, created);
    ClearCutSameRecords(fused, ByRichness(created), limit);
  }

  /** In particular when no score is shared by more than limit + 1 hits. */
  lemma FewTiesClearCut(fused: seq<Fused>, limit: nat)
    requires limit >= 1 && FallsByScore(fused)
    requires forall i :: 0 <= i && i + limit + 1 < |fused| ==> fused[i].score != fused[i + (limit + 1)].score
    ensures CutIsClear(fused, limit)
  {
    if |fused| > 2 * limit {
      assert fused[limit - 1].score != fused[(limit - 1) + (limit + 1)].score;
    }
  }

  // ---- search ----

  datatype LexHit = LexHit(record: MemoryRecord, rank: int)

  ghost predicate LexicalRows(lexRanked: seq<LexHit>) {
    forall i :: 0 <= i < |lexRanked| ==> lexRanked[i].rank >= 1
  }

  /** Index entries carry the record they are filed under, and vectors as wide as the query. */
  ghost predicate IndexRows(entries: seq<Entry>, q: Vec) {
    SameWidth(q, entries) && forall i :: 0 <= i < |entries| ==> entries[i].record.recordId == entries[i].recordId
  }

  function LexicalRanks(lexRanked: seq<LexHit>): (r: seq<Ranked>)
    ensures |r| == |lexRanked|
    ensures forall i :: 0 <= i < |r| ==> r[i].recordId == lexRanked[i].record.recordId && r[i].rank == lexRanked[i].rank
  {
    seq(|lexRanked|, i requires 0 <= i < |lexRanked| => Ranked(lexRanked[i].record.recordId, lexRanked[i].rank))
  }

  /** Ranks by place, from one. */
  function VectorRanks(vecRanked: seq<Hit>): (r: seq<Ranked>)
    ensures |r| == |vecRanked|
    ensures forall i :: 0 <= i < |r| ==> r[i].recordId == vecRanked[i].recordId && r[i].rank == i + 1
  {
    seq(|vecRanked|, i requires 0 <= i < |vecRanked| => Ranked(vecRanked[i].recordId, i + 1))
  }

  /** Lexical rows first, index entries for the ids that are still missing. */
  ghost predicate JoinTable(byId: map<string, MemoryRecord>, lexRanked: seq<LexHit>, entries: seq<Entry>) {
    && (forall id :: id in byId ==> byId[id].recordId == id)
    && (forall i :: 0 <= i < |lexRanked| ==> lexRanked[i].record.recordId in byId)
    && (forall i :: 0 <= i < |entries| ==> entries[i].recordId in byId)
    && (forall id :: id in byId ==>
          || LexHolds(lexRanked, id, byId[id])
          || ((forall i :: 0 <= i < |lexRanked| ==> lexRanked[i].record.recordId != id)
              && IndexHolds(entries, id, byId[id])))
  }

  ghost predicate LexHolds(lexRanked: seq<LexHit>, id: string, record: MemoryRecord) {
    exists i :: 0 <= i < |lexRanked| && lexRanked[i].record == record && record.recordId == id
  }

  ghost predicate IndexHolds(entries: seq<Entry>, id: string, record: MemoryRecord) {
    exists i :: 0 <= i < |entries| && entries[i].record == record && entries[i].recordId == id
  }

  method JoinById(lexRanked: seq<LexHit>, entries: seq<Entry>) returns (byId: map<string, MemoryRecord>)
    requires forall i :: 0 <= i < |entries| ==> entries[i].record.recordId == entries[i].recordId
    ensures JoinTable(byId, lexRanked, entries)
  {
    byId := map[];
    var i := 0;
    while i < |lexRanked|
      invariant 0 <= i <= |lexRanked|
      invariant forall id :: id in byId ==> byId[id].recordId == id && LexHolds(lexRanked, id, byId[id])
      invariant forall k :: 0 <= k < i ==> lexRanked[k].record.recordId in byId
    {
      byId := byId[lexRanked[i].record.recordId := lexRanked[i].record];
      i := i + 1;
    }
    ghost var lexical := byId;
    i := 0;
    while i < |entries|
      invariant 0 <= i <= |entries|
      invariant forall id :: id in lexical ==> id in byId && byId[id] == lexical[id]
      invariant forall id :: id in byId ==>
                  byId[id].recordId == id && (id in lexical || IndexHolds(entries, id, byId[id]))
      invariant forall k :: 0 <= k < i ==> entries[k].recordId in byId
    {
      if entries[i].recordId !in byId {
        byId := byId[entries[i].recordId := entries[i].record];
      }
      i := i + 1;
    }
  }

  function Timestamps(byId: map<string, MemoryRecord>): map<string, string> {
    map id | id in byId :: byId[id].createdAt
  }

  /** result shows hits, record by record. */
  ghost predicate Shows(result: seq<MemoryRecord>, hits: seq<Fused>, byId: map<string, MemoryRecord>) {
    && |result| == |hits|
    && forall i :: 0 <= i < |hits| ==> hits[i].recordId in byId && result[i] == byId[hits[i].recordId]
  }

  /** Every id of either ranking can be joined back to a record. */
  lemma FusedIdsJoin(all: seq<Fused>, lexRanked: seq<LexHit>, vecRanked: seq<Hit>, entries: seq<Entry>, k: real,
                     byId: map<string, MemoryRecord>)
    requires LexicalRows(lexRanked) && k > 0.0
    requires OneBased(LexicalRanks(lexRanked)) && OneBased(VectorRanks(vecRanked))
    requires AllHits(all, LexicalRanks(lexRanked), VectorRanks(vecRanked), k)
    requires JoinTable(byId, lexRanked, entries)
    requires forall i :: 0 <= i < |vecRanked| ==> vecRanked[i].recordId in byId
    ensures forall i :: 0 <= i < |all| ==> all[i].recordId in byId
  {
    forall i | 0 <= i < |all| ensures all[i].recordId in byId {
      var id := all[i].recordId;
      if Lists(LexicalRanks(lexRanked), id) {
        var j :| 0 <= j < |lexRanked| && LexicalRanks(lexRanked)[j].recordId == id;
        assert lexRanked[j].record.recordId in byId;
      } else {
        var j :| 0 <= j < |vecRanked| && VectorRanks(vecRanked)[j].recordId == id;
        assert vecRanked[j].recordId in byId;
      }
    }
  }

  lemma {:induction false} ScoredFromIndex(sqrt: real -> real, q: Vec, entries: seq<Entry>,
                                           byId: map<string, MemoryRecord>)
    requires IsSqrt(sqrt) && SameWidth(q, entries)
    requires forall i :: 0 <= i < |entries| ==> entries[i].recordId in byId
    ensures forall h :: h in Scored(sqrt, q, entries) ==> h.recordId in byId
  {
    if entries == [] {
    } else {
      ScoredFromIndex(sqrt, q, entries[..|entries| - 1], byId);
    }
  }

  lemma NearestFromIndex(sqrt: real -> real, q: Vec, entries: seq<Entry>, k: int, byId: map<string, MemoryRecord>)
    requires IsSqrt(sqrt) && SameWidth(q, entries)
    requires forall i :: 0 <= i < |entries| ==> entries[i].recordId in byId
    ensures forall i :: 0 <= i < |Nearest(sqrt, q, entries, k)| ==> Nearest(sqrt, q, entries, k)[i].recordId in byId
  {
    var scored := Scored(sqrt, q, entries);
    ScoredFromIndex(sqrt, q, entries, byId);
    SameElements(scored, Sort(scored, Closer));
    forall i | 0 <= i < |Nearest(sqrt, q, entries, k)| ensures Nearest(sqrt, q, entries, k)[i].recordId in byId {
      assert Sort(scored, Closer)[i] in Sort(scored, Closer);
    }
  }

  /** ranked is every hit of the two retrievers' lists, fused and sorted by (score, id). */
  ghost predicate CompleteFusion(ranked: seq<Fused>, lexRanked: seq<LexHit>, vecRanked: seq<Hit>, k: real)
    requires LexicalRows(lexRanked) && k > 0.0
  {
    IsComplete(ranked, LexicalRanks(lexRanked), VectorRanks(vecRanked), k)
  }

  /** There is one complete fusion; its ids are distinct and its scores fall. */
  lemma CompleteFusionShape(ranked: seq<Fused>, other: seq<Fused>, lexRanked: seq<LexHit>, vecRanked: seq<Hit>, k: real)
    requires LexicalRows(lexRanked) && k > 0.0
    requires CompleteFusion(ranked, lexRanked, vecRanked, k) && CompleteFusion(other, lexRanked, vecRanked, k)
    ensures ranked == other && DistinctIds(ranked) && FallsByScore(ranked)
  {
    var L, V := LexicalRanks(lexRanked), VectorRanks(vecRanked);
    var all :| AllHits(all, L, V, k) && ranked == Sort(all, Better);
    SameFusion(ranked, other, lexRanked, vecRanked, k);
    BetterIsTotal();
    SortOrdered(all, Better);
    NoDuplicatesIds(all, ranked);
  }

  lemma SameFusion(ranked: seq<Fused>, other: seq<Fused>, lexRanked: seq<LexHit>, vecRanked: seq<Hit>, k: real)
    requires LexicalRows(lexRanked) && k > 0.0
    requires CompleteFusion(ranked, lexRanked, vecRanked, k) && CompleteFusion(other, lexRanked, vecRanked, k)
    ensures ranked == other
  {
    CompleteUnique(ranked, other, LexicalRanks(lexRanked), VectorRanks(vecRanked), k);
  }

  /** Steps 6 to 8: fuse, join, re-sort, cut. The page is the two-stage ranking of all fused hits. */
  method FuseAndJoin(sqrt: real -> real, lexRanked: seq<LexHit>, entries: seq<Entry>, queryVec: Vec,
                     limit: nat, fetchDepth: int, rrfK: real)
    returns (result: seq<MemoryRecord>, byId: map<string, MemoryRecord>, ghost ranked: seq<Fused>)
    requires IsSqrt(sqrt) && LexicalRows(lexRanked) && IndexRows(entries, queryVec) && limit >= 1 && rrfK > 0.0
    ensures JoinTable(byId, lexRanked, entries)
    ensures CompleteFusion(ranked, lexRanked, Nearest(sqrt, queryVec, entries, fetchDepth), rrfK)
    ensures Shows(result, TwoStage(ranked, ByRichness(Timestamps(byId)), limit), byId)
  {
    var vecRanked := TopKByCosine(sqrt, queryVec, entries, fetchDepth);
    var fused;
    fused, ranked := Fuse(lexRanked, vecRanked, rrfK, limit);
    byId := JoinById(lexRanked, entries);
    NearestFromIndex(sqrt, queryVec, entries, fetchDepth, byId);
    RankedIdsJoin(ranked, lexRanked, vecRanked, entries, rrfK, byId);
    JoinedKeepsAll(fused, byId);
    result := RankJoined(fused, byId, limit, ranked);
  }

  /** Step 6: the fused shortlist, a prefix of the complete fusion. */
  method Fuse(lexRanked: seq<LexHit>, vecRanked: seq<Hit>, rrfK: real, limit: nat)
    returns (fused: seq<Fused>, ghost ranked: seq<Fused>)
    requires LexicalRows(lexRanked) && limit >= 1 && rrfK > 0.0
    ensures CompleteFusion(ranked, lexRanked, vecRanked, rrfK)
    ensures fused == ranked[..Kept(2 * limit, |ranked|)]
  {
    var L, V := LexicalRanks(lexRanked), VectorRanks(vecRanked);
    var maybeFused := RrfFuse(L, V, rrfK, 2 * limit);
    fused := maybeFused.value;
    ghost var all :| AllHits(all, L, V, rrfK) && fused == Sort(all, Better)[..Kept(2 * limit, |all|)];
    ranked := Sort(all, Better);
  }

  /** Steps 7 and 8 on the fused ids. */
  method RankJoined(fused: seq<Fused>, byId: map<string, MemoryRecord>, limit: nat, ghost all: seq<Fused>)
    returns (result: seq<MemoryRecord>)
    requires fused == all[..Kept(2 * limit, |all|)]
    requires Joined(fused, byId) == fused && forall i :: 0 <= i < |fused| ==> fused[i].recordId in byId
    ensures Shows(result, TwoStage(all, ByRichness(Timestamps(byId)), limit), byId)
  {
    var joined := Joined(fused, byId);
    var le := ByRichness(Timestamps(byId));
    result := FirstRecords(joined, le, byId, limit);
  }

  method FirstRecords(joined: seq<Fused>, le: (Fused, Fused) -> bool, byId: map<string, MemoryRecord>, limit: nat)
    returns (result: seq<MemoryRecord>)
    requires forall i :: 0 <= i < |joined| ==> joined[i].recordId in byId
    ensures Shows(result, FullRank(joined, le, limit), byId)
  {
    var sorted := Sort(joined, le);
    var page := if |sorted| <= limit then sorted else sorted[..limit];
    assert page == FullRank(joined, le, limit);
    SameElements(joined, sorted);
    forall i | 0 <= i < |page| ensures page[i].recordId in byId {
      assert sorted[i] in sorted;
    }
    result := seq(|page|, i requires 0 <= i < |page| && page[i].recordId in byId => byId[page[i].recordId]);
  }

  lemma RankedIdsJoin(ranked: seq<Fused>, lexRanked: seq<LexHit>, vecRanked: seq<Hit>, entries: seq<Entry>, k: real,
                      byId: map<string, MemoryRecord>)
    requires LexicalRows(lexRanked) && k > 0.0 && CompleteFusion(ranked, lexRanked, vecRanked, k)
    requires JoinTable(byId, lexRanked, entries)
    requires forall i :: 0 <= i < |vecRanked| ==> vecRanked[i].recordId in byId
    ensures forall i :: 0 <= i < |ranked| ==> ranked[i].recordId in byId
  {
    var all :| AllHits(all, LexicalRanks(lexRanked), VectorRanks(vecRanked), k) && ranked == Sort(all, Better);
    FusedIdsJoin(all, lexRanked, vecRanked, entries, k, byId);
    SameElements(all, ranked);
    forall i | 0 <= i < |ranked| ensures ranked[i].recordId in byId {
      assert ranked[i] in ranked;
    }
  }

  /** The hits whose id has a record. */
  function Joined(fused: seq<Fused>, byId: map<string, MemoryRecord>): seq<Fused> {
    if fused == [] then []
    else (if fused[0].recordId in byId then [fused[0]] else []) + Joined(fused[1..], byId)
  }

  lemma {:induction false} JoinedKeepsAll(fused: seq<Fused>, byId: map<string, MemoryRecord>)
    requires forall i :: 0 <= i < |fused| ==> fused[i].recordId in byId
    ensures Joined(fused, byId) == fused
  {
    if fused == [] {
    } else {
      JoinedKeepsAll(fused[1..], byId);
    }
  }

  /** The page holds as many records as there are hits to fill it, all different. */
  lemma {:induction false} PageIsFull(result: seq<MemoryRecord>, ranked: seq<Fused>, le: (Fused, Fused) -> bool,
                                      byId: map<string, MemoryRecord>, limit: nat)
    requires DistinctIds(ranked) && forall id :: id in byId ==> byId[id].recordId == id
    requires Shows(result, TwoStage(ranked, le, limit), byId)
    ensures |result| == Kept(limit, |ranked|)
    ensures forall i, j :: 0 <= i < j < |result| ==> result[i].recordId != result[j].recordId
  {
    var shortlist := ranked[..Kept(2 * limit, |ranked|)];
    var page := TwoStage(ranked, le, limit);
    NoDuplicatesIds(shortlist, Sort(shortlist, le));
    forall i, j | 0 <= i < j < |result| ensures result[i].recordId != result[j].recordId {
      assert page[i].recordId != page[j].recordId;
    }
  }

  lemma NoDuplicatesIds(s: seq<Fused>, t: seq<Fused>)
    requires multiset(s) == multiset(t) && DistinctIds(s)
    ensures DistinctIds(t)
  {
    NoDuplicatesPermutation(s, t);
    SameElements(s, t);
    forall i, j | 0 <= i < j < |t| ensures t[i].recordId != t[j].recordId {
      assert t[i] in s && t[j] in s && t[i] != t[j];
      var a :| 0 <= a < |s| && s[a] == t[i];
      var b :| 0 <= b < |s| && s[b] == t[j];
    }
  }

  function Records(lexRanked: seq<LexHit>): (r: seq<MemoryRecord>)
    ensures |r| == |lexRanked| && forall i :: 0 <= i < |r| ==> r[i] == lexRanked[i].record
  {
    seq(|lexRanked|, i requires 0 <= i < |lexRanked| => lexRanked[i].record)
  }

  const DEFAULT_RRF_K := 60.0

  /** An absent or non-positive setting falls back to the default. */
  function RrfKOf(cfgRrfK: real): (k: real)
    ensures k > 0.0 && (cfgRrfK > 0.0 ==> k == cfgRrfK)
  {
    if cfgRrfK > 0.0 then cfgRrfK else DEFAULT_RRF_K
  }

  /** Without a usable setting, an id that both lists rank up to 61 beats one that a single list ranks first. */
  lemma DefaultReach(lexical: seq<Ranked>, vector: seq<Ranked>, cfgRrfK: real, both: string, r: int, first: string)
    requires Once(lexical) && Once(vector) && cfgRrfK <= 0.0
    requires Ranked(both, r) in lexical && Ranked(both, r) in vector
    requires || (Ranked(first, 1) in lexical && !Lists(vector, first))
             || (Ranked(first, 1) in vector && !Lists(lexical, first))
    ensures HitOf(lexical, vector, RrfKOf(cfgRrfK), both).score > HitOf(lexical, vector, RrfKOf(cfgRrfK), first).score
            <==> r <= 61
  {
    AgreementReach(lexical, vector, RrfKOf(cfgRrfK), both, r, first);
  }

  /** Two places of a page: the higher score first, then the newer record, then the lower id. */
  lemma PageIsRanked(result: seq<MemoryRecord>, ranked: seq<Fused>, byId: map<string, MemoryRecord>, limit: nat,
                     i: nat, j: nat)
    returns (x: Fused, y: Fused)
    requires forall id :: id in byId ==> byId[id].recordId == id
    requires Shows(result, TwoStage(ranked, ByRichness(Timestamps(byId)), limit), byId) && i < j < |result|
    ensures x in ranked && y in ranked && x.recordId == result[i].recordId && y.recordId == result[j].recordId
    ensures x.score >= y.score
    ensures x.score == y.score ==>
              if result[i].createdAt != result[j].createdAt then TextLe(result[j].createdAt, result[i].createdAt)
              else TextLe(result[i].recordId, result[j].recordId)
  {
    var le, shortlist := ByRichness(Timestamps(byId)), ranked[..Kept(2 * limit, |ranked|)];
    var sorted := Sort(shortlist, le);
    RicherIsTotal(Timestamps(byId));
    SortOrdered(shortlist, le);
    SameElements(shortlist, sorted);
    x, y := sorted[i], sorted[j];
    assert x in sorted && y in sorted && x in shortlist && y in shortlist;
    assert le(x, y);
  }

  /** What the outside contributed to one search. */
  datatype SearchInputs = SearchInputs(
    lexRanked: seq<LexHit>,          // the lexical retriever's rows, at most fetchDepth
    queryHasTokens: bool,
    embedderReady: bool,
    queryVec: Option<Vec>,           // None: the embedder threw
    index: Option<seq<Entry>>)       // None: loading the vector index threw

  ghost predicate Usable(inputs: SearchInputs) {
    && LexicalRows(inputs.lexRanked)
    && (inputs.queryVec.Some? && inputs.index.Some? ==> IndexRows(inputs.index.value, inputs.queryVec.value))
  }

  ghost predicate VectorStageRuns(inputs: SearchInputs) {
    inputs.embedderReady && inputs.queryVec.Some? && inputs.index.Some?
  }

  /** Never below the lexical baseline: every failed vector stage returns the first `limit` lexical rows. */
  method Search(sqrt: real -> real, inputs: SearchInputs, limit: int, fetchDepth: int, cfgRrfK: real)
    returns (result: seq<MemoryRecord>, ghost byId: map<string, MemoryRecord>, ghost ranked: seq<Fused>)
    requires IsSqrt(sqrt) && Usable(inputs)
    ensures limit <= 0 || (inputs.lexRanked == [] && !inputs.queryHasTokens) ==> result == []
    ensures limit > 0 && (inputs.lexRanked != [] || inputs.queryHasTokens) && !VectorStageRuns(inputs) ==>
              result == Records(inputs.lexRanked)[..Kept(limit, |inputs.lexRanked|)]
    ensures limit > 0 && (inputs.lexRanked != [] || inputs.queryHasTokens) && VectorStageRuns(inputs) ==>
              && JoinTable(byId, inputs.lexRanked, inputs.index.value)
              && CompleteFusion(ranked, inputs.lexRanked,
                                Nearest(sqrt, inputs.queryVec.value, inputs.index.value, fetchDepth), RrfKOf(cfgRrfK))
              && Shows(result, TwoStage(ranked, ByRichness(Timestamps(byId)), limit), byId)
  {
    byId, ranked := map[], [];
    if limit <= 0 { return [], byId, ranked; }
    var lexRanked := inputs.lexRanked;
    if |lexRanked| == 0 && !inputs.queryHasTokens { return [], byId, ranked; }
    var baseline := Records(lexRanked)[..Kept(limit, |lexRanked|)];
    if !inputs.embedderReady { return baseline, byId, ranked; }
    if inputs.queryVec.None? { return baseline, byId, ranked; }
    if inputs.index.None? { return baseline, byId, ranked; }
    var table;
    result, table, ranked := FuseAndJoin(sqrt, lexRanked, inputs.index.value, inputs.queryVec.value, limit, fetchDepth,
                                         RrfKOf(cfgRrfK));
    byId := table;
  }

  /** A hybrid page is full, free of duplicates, and, behind a clear cut, what ranking every hit would show. */
  lemma HybridPage(result: seq<MemoryRecord>, ranked: seq<Fused>, lexRanked: seq<LexHit>, vecRanked: seq<Hit>,
                   entries: seq<Entry>, byId: map<string, MemoryRecord>, k: real, limit: nat)
    requires LexicalRows(lexRanked) && k > 0.0 && limit >= 1
    requires JoinTable(byId, lexRanked, entries) && CompleteFusion(ranked, lexRanked, vecRanked, k)
    requires Shows(result, TwoStage(ranked, ByRichness(Timestamps(byId)), limit), byId)
    ensures |result| == Kept(limit, |ranked|)
    ensures forall i, j :: 0 <= i < j < |result| ==> result[i].recordId != result[j].recordId
    ensures CutIsClear(ranked, limit) ==> Shows(result, FullRank(ranked, ByRichness(Timestamps(byId)), limit), byId)
  {
    CompleteFusionShape(ranked, ranked, lexRanked, vecRanked, k);
    PageIsFull(result, ranked, ByRichness(Timestamps(byId)), byId, limit);
    if CutIsClear(ranked, limit) { ClearCutIsExact(ranked, Timestamps(byId), limit); }
  }

  // ---- lookupNeighbors ----

  datatype Neighbor = Neighbor(record: MemoryRecord, similarity: real)

  predicate Nearer(x: Neighbor, y: Neighbor) { x.similarity >= y.similarity }

  /** Entries at or above the threshold, in index order. */
  ghost function Within(sqrt: real -> real, index: seq<Entry>, centroid: Vec, threshold: real): seq<Neighbor>
    requires IsSqrt(sqrt) && SameWidth(centroid, index)
  {
    if index == [] then []
    else
      var last := index[|index| - 1];
      var similarity := CosineOf(sqrt, centroid, last.vec);
      Within(sqrt, index[..|index| - 1], centroid, threshold) +
      if similarity >= threshold then [Neighbor(last.record, similarity)] else []
  }

  /** What is within the threshold is every entry whose cosine reaches it, with that cosine. */
  lemma {:induction false} WithinMeaning(sqrt: real -> real, index: seq<Entry>, centroid: Vec, threshold: real,
                                         n: Neighbor)
    requires IsSqrt(sqrt) && SameWidth(centroid, index)
    ensures n in Within(sqrt, index, centroid, threshold) <==>
            exists i :: 0 <= i < |index| && index[i].record == n.record
                        && n.similarity == CosineOf(sqrt, centroid, index[i].vec) && n.similarity >= threshold
  {
    hide IsSqrt, CosineOf;
    if index == [] {
    } else {
      var m := |index| - 1;
      WithinMeaning(sqrt, index[..m], centroid, threshold, n);
      forall i | 0 <= i < m ensures index[..m][i] == index[i] {
      }
    }
  }

  lemma NearerIsTotal()
    ensures TotalPreorder(Nearer)
  {
  }

  method ScanIndex(sqrt: real -> real, index: seq<Entry>, centroid: Vec, threshold: real)
    returns (scored: seq<Neighbor>)
    requires IsSqrt(sqrt) && SameWidth(centroid, index)
    ensures scored == Within(sqrt, index, centroid, threshold)
    ensures forall n :: n in scored ==>
              n.similarity >= threshold && exists i :: 0 <= i < |index| && index[i].record == n.record
  {
    scored := [];
    var i := 0;
    while i < |index|
      invariant 0 <= i <= |index|
      invariant SameWidth(centroid, index[..i])
      invariant scored == Within(sqrt, index[..i], centroid, threshold)
      invariant forall n :: n in scored ==>
                n.similarity >= threshold && exists j :: 0 <= j < |index| && index[j].record == n.record
    {
      var similarity := Cosine.Cosine(sqrt, centroid, index[i].vec);
      if similarity >= threshold {
        scored := scored + [Neighbor(index[i].record, similarity)];
      }
      assert index[..i + 1][..i] == index[..i];
      i := i + 1;
    }
    assert index[..i] == index;
  }

  method LookupNeighbors(sqrt: real -> real, index: seq<Entry>, centroid: Vec, threshold: real, cap: int)
    returns (neighbors: seq<Neighbor>)
    requires IsSqrt(sqrt) && SameWidth(centroid, index)
    ensures IsTop(neighbors, Within(sqrt, index, centroid, threshold), cap, Nearer)
    ensures forall n :: n in neighbors ==>
              n.similarity >= threshold && exists i :: 0 <= i < |index| && index[i].record == n.record
    ensures forall x, y :: 0 <= x < y < |neighbors| ==> neighbors[x].similarity >= neighbors[y].similarity
    ensures cap >= 0 ==> |neighbors| <= cap
    // Nothing within the threshold is left out before the cap is reached.
    ensures |neighbors| < cap ==> forall n :: n in Within(sqrt, index, centroid, threshold) ==> n in neighbors
  {
    NearerIsTotal();
    ghost var all := Within(sqrt, index, centroid, threshold);
    SortCutIsTop(all, cap, Nearer);
    if cap <= 0 { return []; }
    var scored := ScanIndex(sqrt, index, centroid, threshold);
    var sorted := Sort(scored, Nearer);
    SortOrdered(scored, Nearer);
    SameElements(scored, sorted);
    neighbors := if |sorted| <= cap then sorted else sorted[..cap];
    assert neighbors == sorted[..Kept(cap, |all|)];
    forall n | n in neighbors ensures n in scored {
      assert n in sorted;
    }
  }
}
