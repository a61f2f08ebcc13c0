/** Which pairs of rankings leave a clear cut behind, and one that does not. */
module RankingCut {
  import opened MemoryTypes
  import opened Ordering
  import opened Cosine
  import opened Rrf
  import opened Search

  // ---- A clear cut from the rankings themselves ----

  /** The ids both rankings list. */
  ghost function Shared(lexical: seq<Ranked>, vector: seq<Ranked>): set<string> {
    set r | r in lexical && Lists(vector, r.recordId) :: r.recordId
  }

  /** In one ranking every id has its own weight. */
  lemma WeightsTellApart(list: seq<Ranked>, k: real, a: string, b: string)
    requires Ranking(list) && k > 0.0 && Lists(list, a) && Lists(list, b)
    requires Contribution(list, k, a) == Contribution(list, k, b)
    ensures a == b
  {
    var i :| 0 <= i < |list| && list[i].recordId == a;
    var j :| 0 <= j < |list| && list[j].recordId == b;
    RankedContribution(list, k, i);
    RankedContribution(list, k, j);
    if list[i].rank < list[j].rank { WeightFalls(k, list[i].rank, list[j].rank); }
    if list[j].rank < list[i].rank { WeightFalls(k, list[j].rank, list[i].rank); }
  }

  lemma AtMostOne(ids: set<string>)
    requires forall a, b :: a in ids && b in ids ==> a == b
    ensures |ids| <= 1
  {
    if ids != {} {
      var a :| a in ids;
      assert ids == {a};
    }
  }

  lemma UnionCount(a: set<string>, b: set<string>, c: set<string>)
    ensures |a + b + c| <= |a| + |b| + |c|
  {
    assert |a + b| + |a * b| == |a| + |b|;
    assert |(a + b) + c| + |(a + b) * c| == |a + b| + |c|;
  }

  /** Ids of equal score: besides the shared ones at most one from each ranking alone. */
  lemma EqualScores(ids: set<string>, lexical: seq<Ranked>, vector: seq<Ranked>, k: real, score: real)
    requires Ranking(lexical) && Ranking(vector) && k > 0.0
    requires forall id :: id in ids ==>
               (Lists(lexical, id) || Lists(vector, id)) && HitOf(lexical, vector, k, id).score == score
    ensures |ids| <= |Shared(lexical, vector)| + 2
  {
    var inLexical := set id | id in ids && !Lists(vector, id);
    var inVector := set id | id in ids && !Lists(lexical, id);
    forall a, b | a in inLexical && b in inLexical ensures a == b {
      Unlisted(vector, k, a);
      Unlisted(vector, k, b);
      WeightsTellApart(lexical, k, a, b);
    }
    forall a, b | a in inVector && b in inVector ensures a == b {
      Unlisted(lexical, k, a);
      Unlisted(lexical, k, b);
      WeightsTellApart(vector, k, a, b);
    }
    AtMostOne(inLexical);
    AtMostOne(inVector);
    UnionCount(Shared(lexical, vector), inLexical, inVector);
    forall id | id in ids ensures id in Shared(lexical, vector) + inLexical + inVector {
      if Lists(lexical, id) && Lists(vector, id) {
        var i :| 0 <= i < |lexical| && lexical[i].recordId == id;
        assert lexical[i] in lexical;
      }
    }
    SubsetCount(ids, Shared(lexical, vector) + inLexical + inVector);
  }

  ghost function IdSet(hits: seq<Fused>): set<string> {
    if hits == [] then {} else IdSet(hits[..|hits| - 1]) + {hits[|hits| - 1].recordId}
  }

  lemma {:induction false} IdSetMeaning(hits: seq<Fused>)
    requires DistinctIds(hits)
    ensures |IdSet(hits)| == |hits|
    ensures forall id :: id in IdSet(hits) ==> exists j :: 0 <= j < |hits| && hits[j].recordId == id
  {
    if hits == [] {
    } else {
      var rest, last := hits[..|hits| - 1], hits[|hits| - 1];
      IdSetMeaning(rest);
      forall id | id in IdSet(hits) ensures exists j :: 0 <= j < |hits| && hits[j].recordId == id {
        if id == last.recordId {
          assert hits[|hits| - 1].recordId == id;
        } else {
          var j :| 0 <= j < |rest| && rest[j].recordId == id;
          assert hits[j].recordId == id;
        }
      }
      forall j | 0 <= j < |rest| ensures rest[j].recordId != last.recordId {
        assert rest[j] == hits[j];
      }
    }
  }

  lemma RankedIsHit(ranked: seq<Fused>, lexical: seq<Ranked>, vector: seq<Ranked>, k: real, j: nat)
    requires OneBased(lexical) && OneBased(vector) && k > 0.0
    requires IsComplete(ranked, lexical, vector, k) && j < |ranked|
    ensures ranked[j] == HitOf(lexical, vector, k, ranked[j].recordId)
    ensures Lists(lexical, ranked[j].recordId) || Lists(vector, ranked[j].recordId)
  {
    var all :| AllHits(all, lexical, vector, k) && ranked == Sort(all, Better);
    SameElements(all, ranked);
    assert ranked[j] in ranked;
    var i :| 0 <= i < |all| && all[i] == ranked[j];
  }

  /** No more hits share a score than the rankings share ids, and two. */
  lemma TiesAreShared(ranked: seq<Fused>, lexical: seq<Ranked>, vector: seq<Ranked>, k: real, i: nat, n: nat)
    requires Ranking(lexical) && Ranking(vector) && k > 0.0 && IsComplete(ranked, lexical, vector, k)
    requires DistinctIds(ranked) && FallsByScore(ranked)
    requires n >= 1 && i + n <= |ranked| && ranked[i].score == ranked[i + (n - 1)].score
    ensures n <= |Shared(lexical, vector)| + 2
  {
    hide IsComplete, HitOf, Lists, Shared, IdSet;
    var window, score := ranked[i..i + n], ranked[i].score;
    IdSetMeaning(window);
    forall id | id in IdSet(window)
      ensures (Lists(lexical, id) || Lists(vector, id)) && HitOf(lexical, vector, k, id).score == score
    {
      var j :| 0 <= j < n && window[j].recordId == id;
      RankedIsHit(ranked, lexical, vector, k, i + j);
      TiedWithin(ranked, i, n, j);
    }
    EqualScores(IdSet(window), lexical, vector, k, score);
  }

  lemma TiedWithin(ranked: seq<Fused>, i: nat, n: nat, j: nat)
    requires FallsByScore(ranked) && j < n && i + n <= |ranked| && ranked[i].score == ranked[i + (n - 1)].score
    ensures ranked[i + j].score == ranked[i].score
  {
    assert j > 0 ==> ranked[i].score >= ranked[i + j].score;
    assert j < n - 1 ==> ranked[i + j].score >= ranked[i + (n - 1)].score;
  }

  /** Rankings that share fewer ids than a page holds leave a clear cut, whatever the constant of the fusion. */
  lemma FewSharedClearCut(ranked: seq<Fused>, lexRanked: seq<LexHit>, vecRanked: seq<Hit>, k: real, limit: nat)
    requires LexicalRows(lexRanked) && k > 0.0 && limit >= 1 && CompleteFusion(ranked, lexRanked, vecRanked, k)
    requires Ranking(LexicalRanks(lexRanked)) && Ranking(VectorRanks(vecRanked))
    requires |Shared(LexicalRanks(lexRanked), VectorRanks(vecRanked))| < limit
    ensures CutIsClear(ranked, limit)
  {
    var lexical, vector := LexicalRanks(lexRanked), VectorRanks(vecRanked);
    CompleteFusionShape(ranked, ranked, lexRanked, vecRanked, k);
    forall i | 0 <= i && i + limit + 1 < |ranked| ensures ranked[i].score != ranked[i + (limit + 1)].score {
      if ranked[i].score == ranked[i + (limit + 1)].score {
        TiesAreShared(ranked, lexical, vector, k, i, limit + 2);
      }
    }
    FewTiesClearCut(ranked, limit);
  }

  // ---- A search whose page misses the newest record ----

  function Dating(id: string, createdAt: string): MemoryRecord {
    MemoryRecord(id, "n", [], Fields("", "", "", [], [], [], ToolUse), createdAt)
  }

  function LexicalHits(): (r: seq<LexHit>)
    ensures |r| == 3
  {
    [LexHit(Dating("a", "1"), 1), LexHit(Dating("x", "1"), 2), LexHit(Dating("z", "2"), 3)]
  }

  function VectorHits(): (r: seq<Hit>)
    ensures |r| == 3
  {
    [Hit("b", Dating("b", "1"), 1.0), Hit("y", Dating("y", "1"), 0.6), Hit("z", Dating("z", "2"), 0.0)]
  }

  const QUERY: Vec := [1.0, 0.0]

  function VectorIndex(): (entries: seq<Entry>)
    ensures |entries| == 3
  {
    [Entry("b", Dating("b", "1"), [1.0, 0.0]), Entry("y", Dating("y", "1"), [0.6, 0.8]),
     Entry("z", Dating("z", "2"), [0.0, 1.0])]
  }

  /** Between unit vectors of the plane the cosine is the dot product. */
  lemma PlaneCosine(sqrt: real -> real, a: Vec, b: Vec)
    requires IsSqrt(sqrt) && |a| == 2 && |b| == 2
    requires a[0] * a[0] + a[1] * a[1] == 1.0 && b[0] * b[0] + b[1] * b[1] == 1.0
    ensures CosineOf(sqrt, a, b) == a[0] * b[0] + a[1] * b[1]
    ensures !IsZero(b)
  {
    PlaneDot(a, a);
    PlaneDot(b, b);
    PlaneDot(a, b);
    SqrtUnique(sqrt, 1.0, 1.0);
  }

  lemma PlaneDot(a: Vec, b: Vec)
    requires |a| == 2 && |b| == 2
    ensures Dot(a, b, 2) == a[0] * b[0] + a[1] * b[1]
  {
    assert Dot(a, b, 1) == a[0] * b[0];
  }

  ghost function HitFor(sqrt: real -> real, q: Vec, e: Entry): Hit
    requires IsSqrt(sqrt) && |q| == |e.vec|
  {
    Hit(e.recordId, e.record, CosineOf(sqrt, q, e.vec))
  }

  lemma ScoredNext(sqrt: real -> real, q: Vec, entries: seq<Entry>, n: nat)
    requires IsSqrt(sqrt) && n < |entries| && SameWidth(q, entries) && !IsZero(entries[n].vec)
    ensures Scored(sqrt, q, entries[..n + 1]) == Scored(sqrt, q, entries[..n]) + [HitFor(sqrt, q, entries[n])]
  {
    assert entries[..n + 1][..n] == entries[..n] && entries[..n + 1][n] == entries[n];
  }

  lemma ScoredThree(sqrt: real -> real, q: Vec, entries: seq<Entry>)
    requires IsSqrt(sqrt) && |entries| == 3 && SameWidth(q, entries)
    requires forall i :: 0 <= i < 3 ==> !IsZero(entries[i].vec)
    ensures Scored(sqrt, q, entries) ==
              [HitFor(sqrt, q, entries[0]), HitFor(sqrt, q, entries[1]), HitFor(sqrt, q, entries[2])]
  {
    hide IsSqrt, Scored, IsZero, HitFor;
    NothingScored(sqrt, q);
    assert entries[..0] == [] && entries[..3] == entries;
    ScoredNext(sqrt, q, entries, 0);
    ScoredNext(sqrt, q, entries, 1);
    ScoredNext(sqrt, q, entries, 2);
  }

  lemma IndexHits(sqrt: real -> real, i: nat)
    requires IsSqrt(sqrt) && i < 3
    ensures |VectorIndex()[i].vec| == |QUERY| && !IsZero(VectorIndex()[i].vec)
    ensures HitFor(sqrt, QUERY, VectorIndex()[i]) == VectorHits()[i]
  {
    hide IsSqrt, CosineOf, IsZero;
    PlaneCosine(sqrt, QUERY, VectorIndex()[i].vec);
  }

  /** The vector list of the example is what the index gives for the query. */
  lemma NearestHits(sqrt: real -> real)
    requires IsSqrt(sqrt)
    ensures SameWidth(QUERY, VectorIndex()) && Nearest(sqrt, QUERY, VectorIndex(), 3) == VectorHits()
  {
    hide IsSqrt, Scored, Sort, IsZero, HitFor, VectorIndex, VectorHits;
    forall i | 0 <= i < 3
      ensures |VectorIndex()[i].vec| == |QUERY| && !IsZero(VectorIndex()[i].vec)
      ensures HitFor(sqrt, QUERY, VectorIndex()[i]) == VectorHits()[i]
    {
      IndexHits(sqrt, i);
    }
    ScoredThree(sqrt, QUERY, VectorIndex());
    assert Scored(sqrt, QUERY, VectorIndex()) == VectorHits();
    FallingHits();
    SortOfOrdered(VectorHits(), Closer);
    assert VectorHits()[..3] == VectorHits();
  }

  lemma FallingHits()
    ensures Ordered(VectorHits(), Closer)
  {
  }

  lemma NothingScored(sqrt: real -> real, q: Vec)
    requires IsSqrt(sqrt)
    ensures Scored(sqrt, q, []) == []
  {
  }

  function LexicalList(): (r: seq<Ranked>)
    ensures |r| == 3
  {
    [Ranked("a", 1), Ranked("x", 2), Ranked("z", 3)]
  }

  function VectorList(): (r: seq<Ranked>)
    ensures |r| == 3
  {
    [Ranked("b", 1), Ranked("y", 2), Ranked("z", 3)]
  }

  /** With the constant 1: a, b and z score one half each, x and y one third. */
  function Fusion(): (r: seq<Fused>)
    ensures |r| == 5
  {
    [Fused("a", 0.5, Some(1), None), Fused("b", 0.5, None, Some(1)), Fused("z", 0.5, Some(3), Some(3)),
     Fused("x", 1.0 / 3.0, Some(2), None), Fused("y", 1.0 / 3.0, None, Some(2))]
  }

  lemma Weights()
    ensures Weight(1.0, 1) == 0.5 && Weight(1.0, 2) == 1.0 / 3.0 && Weight(1.0, 3) == 0.25
  {
  }

  lemma LexicalShares()
    ensures Ranking(LexicalList())
    ensures forall id :: Lists(LexicalList(), id) <==> id == "a" || id == "x" || id == "z"
    ensures Contribution(LexicalList(), 1.0, "a") == 0.5 && RankIn(LexicalList(), "a") == Some(1)
    ensures Contribution(LexicalList(), 1.0, "x") == 1.0 / 3.0 && RankIn(LexicalList(), "x") == Some(2)
    ensures Contribution(LexicalList(), 1.0, "z") == 0.25 && RankIn(LexicalList(), "z") == Some(3)
    ensures Contribution(LexicalList(), 1.0, "b") == 0.0 && RankIn(LexicalList(), "b") == None
    ensures Contribution(LexicalList(), 1.0, "y") == 0.0 && RankIn(LexicalList(), "y") == None
  {
    hide Contribution, RankIn, Weight;
    var list := LexicalList();
    assert list[0].recordId == "a" && list[1].recordId == "x" && list[2].recordId == "z";
    Weights();
    RankedContribution(list, 1.0, 0);
    RankedContribution(list, 1.0, 1);
    RankedContribution(list, 1.0, 2);
    Unlisted(list, 1.0, "b");
    Unlisted(list, 1.0, "y");
  }

  lemma VectorShares()
    ensures Ranking(VectorList())
    ensures forall id :: Lists(VectorList(), id) <==> id == "b" || id == "y" || id == "z"
    ensures Contribution(VectorList(), 1.0, "b") == 0.5 && RankIn(VectorList(), "b") == Some(1)
    ensures Contribution(VectorList(), 1.0, "y") == 1.0 / 3.0 && RankIn(VectorList(), "y") == Some(2)
    ensures Contribution(VectorList(), 1.0, "z") == 0.25 && RankIn(VectorList(), "z") == Some(3)
    ensures Contribution(VectorList(), 1.0, "a") == 0.0 && RankIn(VectorList(), "a") == None
    ensures Contribution(VectorList(), 1.0, "x") == 0.0 && RankIn(VectorList(), "x") == None
  {
    hide Contribution, RankIn, Weight;
    var list := VectorList();
    assert list[0].recordId == "b" && list[1].recordId == "y" && list[2].recordId == "z";
    Weights();
    RankedContribution(list, 1.0, 0);
    RankedContribution(list, 1.0, 1);
    RankedContribution(list, 1.0, 2);
    Unlisted(list, 1.0, "a");
    Unlisted(list, 1.0, "x");
  }

  lemma FusionHits()
    ensures OneBased(LexicalList()) && OneBased(VectorList())
    ensures HitOf(LexicalList(), VectorList(), 1.0, "a") == Fusion()[0]
    ensures HitOf(LexicalList(), VectorList(), 1.0, "b") == Fusion()[1]
    ensures HitOf(LexicalList(), VectorList(), 1.0, "z") == Fusion()[2]
    ensures HitOf(LexicalList(), VectorList(), 1.0, "x") == Fusion()[3]
    ensures HitOf(LexicalList(), VectorList(), 1.0, "y") == Fusion()[4]
  {
    hide LexicalList, VectorList, Contribution, RankIn, Lists;
    LexicalShares();
    VectorShares();
  }

  lemma FusionIds()
    ensures Fusion()[0].recordId == "a" && Fusion()[1].recordId == "b" && Fusion()[2].recordId == "z"
    ensures Fusion()[3].recordId == "x" && Fusion()[4].recordId == "y"
    ensures DistinctIds(Fusion())
    ensures forall i :: 0 <= i < 5 ==> Fusion()[i].recordId in ["a", "b", "z", "x", "y"]
  {
  }

  lemma FusionIsAllHits()
    ensures OneBased(LexicalList()) && OneBased(VectorList())
    ensures AllHits(Fusion(), LexicalList(), VectorList(), 1.0)
  {
    hide LexicalList, VectorList, Contribution, RankIn, Lists, HitOf, Fusion;
    LexicalShares();
    VectorShares();
    FusionHits();
    FusionIds();
    forall id | Lists(LexicalList(), id) || Lists(VectorList(), id)
      ensures HitOf(LexicalList(), VectorList(), 1.0, id) in Fusion()
    {
      assert Fusion()[0] in Fusion() && Fusion()[1] in Fusion() && Fusion()[2] in Fusion();
      assert Fusion()[3] in Fusion() && Fusion()[4] in Fusion();
    }
  }

  lemma FusionIsOrdered()
    ensures Ordered(Fusion(), Better) && Fusion()[2].score == Fusion()[0].score
  {
    assert TextLe("a", "b") && TextLe("b", "z") && TextLe("a", "z") && TextLe("x", "y");
  }

  lemma OrderedIsComplete(hits: seq<Fused>, lexical: seq<Ranked>, vector: seq<Ranked>, k: real)
    requires OneBased(lexical) && OneBased(vector) && k > 0.0
    requires AllHits(hits, lexical, vector, k) && Ordered(hits, Better)
    ensures IsComplete(hits, lexical, vector, k)
  {
    BetterIsTotal();
    SortOrdered(hits, Better);
    AllHitsNoTies(hits, lexical, vector, k);
    OrderedUnique(hits, Sort(hits, Better), Better);
  }

  lemma RanksOfHits()
    ensures LexicalRows(LexicalHits())
    ensures LexicalRanks(LexicalHits()) == LexicalList() && VectorRanks(VectorHits()) == VectorList()
  {
  }

  /** z is the newest, and everything else was created before it. */
  lemma NewestIsZ(created: map<string, string>)
    requires created == NewestIs(Fusion(), Fusion()[2])
    ensures forall i :: 0 <= i < 3 ==>
              CreatedAt(created, LexicalHits()[i].record.recordId) == LexicalHits()[i].record.createdAt
    ensures forall i :: 0 <= i < 3 ==> CreatedAt(created, VectorHits()[i].recordId) == VectorHits()[i].record.createdAt
  {
    hide NewestIs, CreatedAt, Fusion, DistinctIds;
    FusionIds();
    var hits := Fusion();
    NewestAt(hits, hits[2], hits[0]);
    NewestAt(hits, hits[2], hits[1]);
    NewestAt(hits, hits[2], hits[2]);
    NewestAt(hits, hits[2], hits[3]);
    NewestAt(hits, hits[2], hits[4]);
  }

  /**
   * A page of one, with the constant 1, three lexical rows and an index of three entries: z is newest and ties for the
   * top, yet is not shown.
   */
  lemma ReachableBlur(sqrt: real -> real)
    requires IsSqrt(sqrt)
    ensures SameWidth(QUERY, VectorIndex()) && Nearest(sqrt, QUERY, VectorIndex(), 3) == VectorHits()
    ensures LexicalRows(LexicalHits()) && Ranking(LexicalRanks(LexicalHits())) && Ranking(VectorRanks(VectorHits()))
    ensures CompleteFusion(Fusion(), LexicalHits(), Nearest(sqrt, QUERY, VectorIndex(), 3), 1.0)
    ensures !CutIsClear(Fusion(), 1)
    ensures var created := NewestIs(Fusion(), Fusion()[2]);
            && (forall i :: 0 <= i < 3 ==>
                CreatedAt(created, LexicalHits()[i].record.recordId) == LexicalHits()[i].record.createdAt)
            && (forall i :: 0 <= i < 3 ==>
                CreatedAt(created, VectorHits()[i].recordId) == VectorHits()[i].record.createdAt)
            && TwoStage(Fusion(), ByRichness(created), 1) != FullRank(Fusion(), ByRichness(created), 1)
  {
    hide LexicalList, VectorList, LexicalHits, VectorHits, LexicalRanks, VectorRanks, LexicalRows, Fusion, Ranking;
    hide AllHits, Ordered, Better, TwoStage, FullRank, NewestIs, CreatedAt, ByRichness, DistinctIds, FallsByScore;
    hide IsSqrt, Nearest, VectorIndex;
    NearestHits(sqrt);
    RanksOfHits();
    LexicalShares();
    VectorShares();
    FusionIsAllHits();
    FusionIsOrdered();
    OrderedIsComplete(Fusion(), LexicalList(), VectorList(), 1.0);
    CompleteFusionShape(Fusion(), Fusion(), LexicalHits(), VectorHits(), 1.0);
    BlurredCutLosesRecord(Fusion(), 1);
    NewestIsZ(NewestIs(Fusion(), Fusion()[2]));
  }
}
