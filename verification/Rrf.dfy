/** Reciprocal rank fusion in exact arithmetic. */
module Rrf {
  import opened MemoryTypes
  import opened Ordering

  datatype Ranked = Ranked(recordId: string, rank: int)

  datatype Fused = Fused(recordId: string, score: real, lexRank: Option<int>, vecRank: Option<int>)

  /** Ranks are 1-based. */
  ghost predicate OneBased(list: seq<Ranked>) {
    forall i :: 0 <= i < |list| ==> list[i].rank >= 1
  }

  /** One row per id, best first. */
  ghost predicate Ranking(list: seq<Ranked>) {
    && OneBased(list)
    && (forall i, j :: 0 <= i < j < |list| ==> list[i].recordId != list[j].recordId && list[i].rank < list[j].rank)
  }

  /** One row per id, in any order. */
  ghost predicate Once(list: seq<Ranked>) {
    OneBased(list) && forall i, j :: 0 <= i < j < |list| ==> list[i].recordId != list[j].recordId
  }

  ghost predicate Lists(list: seq<Ranked>, id: string) {
    exists i :: 0 <= i < |list| && list[i].recordId == id
  }

  function Weight(k: real, rank: int): real
    requires k > 0.0 && rank >= 1
  {
    1.0 / (k + rank as real)
  }

  /** What a list adds to the score of id; absence adds nothing. */
  ghost function Contribution(list: seq<Ranked>, k: real, id: string): real
    requires OneBased(list) && k > 0.0
  {
    if list == [] then 0.0
    else
      var last := list[|list| - 1];
      Contribution(list[..|list| - 1], k, id) + if last.recordId == id then Weight(k, last.rank) else 0.0
  }

  ghost function RankIn(list: seq<Ranked>, id: string): Option<int> {
    if list == [] then None
    else if list[|list| - 1].recordId == id then Some(list[|list| - 1].rank)
    else RankIn(list[..|list| - 1], id)
  }

  ghost function HitOf(lexical: seq<Ranked>, vector: seq<Ranked>, k: real, id: string): Fused
    requires OneBased(lexical) && OneBased(vector) && k > 0.0
  {
    Fused(id, Contribution(lexical, k, id) + Contribution(vector, k, id), RankIn(lexical, id), RankIn(vector, id))
  }

  /** fused_score DESC, then record_id ASC. */
  predicate Better(a: Fused, b: Fused) {
    a.score > b.score || (a.score == b.score && TextLe(a.recordId, b.recordId))
  }

  lemma BetterIsTotal()
    ensures TotalPreorder(Better)
  {
    forall a: Fused, b: Fused ensures Better(a, b) || Better(b, a) {
      TextLeTotal(a.recordId, b.recordId);
    }
    forall a: Fused, b: Fused, c: Fused | Better(a, b) && Better(b, c) ensures Better(a, c) {
      if TextLe(a.recordId, b.recordId) && TextLe(b.recordId, c.recordId) {
        TextLeTransitive(a.recordId, b.recordId, c.recordId);
      }
    }
  }

  /** all holds one fused hit for every id of either list, in some order. */
  ghost predicate AllHits(all: seq<Fused>, lexical: seq<Ranked>, vector: seq<Ranked>, k: real)
    requires OneBased(lexical) && OneBased(vector) && k > 0.0
  {
    && (forall i :: 0 <= i < |all| ==>
          all[i] == HitOf(lexical, vector, k, all[i].recordId)
          && (Lists(lexical, all[i].recordId) || Lists(vector, all[i].recordId)))
    && (forall i, j :: 0 <= i < j < |all| ==> all[i].recordId != all[j].recordId)
    && (forall id :: Lists(lexical, id) || Lists(vector, id) ==> HitOf(lexical, vector, k, id) in all)
  }

  /** fused is the best `limit` of the union of both lists. */
  ghost predicate IsFusion(fused: seq<Fused>, lexical: seq<Ranked>, vector: seq<Ranked>, k: real, limit: int)
    requires OneBased(lexical) && OneBased(vector) && k > 0.0
  {
    exists all :: AllHits(all, lexical, vector, k) && fused == Sort(all, Better)[..Kept(limit, |all|)]
  }

  /** ranked is the whole union of both lists, best first. */
  ghost predicate IsComplete(ranked: seq<Fused>, lexical: seq<Ranked>, vector: seq<Ranked>, k: real)
    requires OneBased(lexical) && OneBased(vector) && k > 0.0
  {
    exists all :: AllHits(all, lexical, vector, k) && ranked == Sort(all, Better)
  }

  // ---- rrfFuse ----

  datatype Accumulator = Accumulator(score: real, lexRank: Option<int>, vecRank: Option<int>)

  const EMPTY := Accumulator(0.0, None, None)

  /** The map holds, for each id seen so far, what the consumed prefixes contribute. */
  ghost predicate Accumulated(scores: map<string, Accumulator>, order: seq<string>,
                              lexical: seq<Ranked>, vector: seq<Ranked>, k: real)
    requires OneBased(lexical) && OneBased(vector) && k > 0.0
  {
    && NoDuplicates(order)
    && (forall id :: id in order <==> id in scores)
    && (forall id :: id in scores <==> Lists(lexical, id) || Lists(vector, id))
    && (forall id :: id in scores ==>
          scores[id] == Accumulator(Contribution(lexical, k, id) + Contribution(vector, k, id),
                                    RankIn(lexical, id), RankIn(vector, id)))
  }

  function EntryFor(scores: map<string, Accumulator>, r: Ranked): Accumulator {
    if r.recordId in scores then scores[r.recordId] else EMPTY
  }

  function LexicalEntry(scores: map<string, Accumulator>, r: Ranked, k: real): Accumulator
    requires k > 0.0 && r.rank >= 1
  {
    var entry := EntryFor(scores, r);
    entry.(lexRank := Some(r.rank), score := entry.score + Weight(k, r.rank))
  }

  function VectorEntry(scores: map<string, Accumulator>, r: Ranked, k: real): Accumulator
    requires k > 0.0 && r.rank >= 1
  {
    var entry := EntryFor(scores, r);
    entry.(vecRank := Some(r.rank), score := entry.score + Weight(k, r.rank))
  }

  /** Map insertion order: a new id goes last, a known one stays where it is. */
  function Arrivals(scores: map<string, Accumulator>, order: seq<string>, r: Ranked): seq<string> {
    if r.recordId in scores then order else order + [r.recordId]
  }

  lemma ListsSnoc(list: seq<Ranked>, r: Ranked, id: string)
    ensures Lists(list + [r], id) <==> Lists(list, id) || r.recordId == id
  {
    var more := list + [r];
    if Lists(list, id) {
      var i :| 0 <= i < |list| && list[i].recordId == id;
      assert more[i].recordId == id;
    }
    if r.recordId == id { assert more[|list|].recordId == id; }
  }

  lemma {:induction false} Unlisted(list: seq<Ranked>, k: real, id: string)
    requires OneBased(list) && k > 0.0 && !Lists(list, id)
    ensures Contribution(list, k, id) == 0.0 && RankIn(list, id) == None
  {
    if list == [] {
    } else {
      var n := |list| - 1;
      assert list == list[..n] + [list[n]];
      ListsSnoc(list[..n], list[n], id);
      Unlisted(list[..n], k, id);
    }
  }

  /** One more row adds its weight to its own id and to no other. */
  lemma ListSnoc(list: seq<Ranked>, r: Ranked, k: real, id: string)
    requires OneBased(list) && r.rank >= 1 && k > 0.0
    ensures OneBased(list + [r]) && (Lists(list + [r], id) <==> Lists(list, id) || r.recordId == id)
    ensures Contribution(list + [r], k, id) ==
              Contribution(list, k, id) + if r.recordId == id then 1.0 / (k + r.rank as real) else 0.0
    ensures RankIn(list + [r], id) == if r.recordId == id then Some(r.rank) else RankIn(list, id)
  {
    assert (list + [r])[..|list + [r]| - 1] == list;
    ListsSnoc(list, r, id);
  }

  lemma AccumulateLexical(scores: map<string, Accumulator>, order: seq<string>, lexical: seq<Ranked>, r: Ranked,
                          k: real)
    requires OneBased(lexical) && r.rank >= 1 && k > 0.0
    requires Accumulated(scores, order, lexical, [], k)
    ensures OneBased(lexical + [r])
    ensures Accumulated(scores[r.recordId := LexicalEntry(scores, r, k)], Arrivals(scores, order, r), lexical + [r],
                        [], k)
  {
    hide Contribution, RankIn, Lists;
    var more := lexical + [r];
    forall id
      ensures Lists(more, id) <==> Lists(lexical, id) || r.recordId == id
      ensures Contribution(more, k, id) ==
                Contribution(lexical, k, id) + if r.recordId == id then Weight(k, r.rank) else 0.0
      ensures RankIn(more, id) == if r.recordId == id then Some(r.rank) else RankIn(lexical, id)
    {
      ListSnoc(lexical, r, k, id);
    }
    if r.recordId !in scores {
      Unlisted(lexical, k, r.recordId);
      Unlisted([], k, r.recordId);
    }
  }

  lemma AccumulateVector(scores: map<string, Accumulator>, order: seq<string>,
                         lexical: seq<Ranked>, vector: seq<Ranked>,
                         r: Ranked, k: real)
    requires OneBased(lexical) && OneBased(vector) && r.rank >= 1 && k > 0.0
    requires Accumulated(scores, order, lexical, vector, k)
    ensures OneBased(vector + [r])
    ensures Accumulated(scores[r.recordId := VectorEntry(scores, r, k)], Arrivals(scores, order, r), lexical,
                        vector + [r], k)
  {
    hide Contribution, RankIn, Lists;
    var more := vector + [r];
    forall id
      ensures Lists(more, id) <==> Lists(vector, id) || r.recordId == id
      ensures Contribution(more, k, id) ==
                Contribution(vector, k, id) + if r.recordId == id then Weight(k, r.rank) else 0.0
      ensures RankIn(more, id) == if r.recordId == id then Some(r.rank) else RankIn(vector, id)
    {
      ListSnoc(vector, r, k, id);
    }
    if r.recordId !in scores {
      Unlisted(lexical, k, r.recordId);
      Unlisted(vector, k, r.recordId);
    }
  }

  lemma NothingAccumulated(k: real)
    requires k > 0.0
    ensures Accumulated(map[], [], [], [], k)
  {
  }

  method ScoreLexical(lexical: seq<Ranked>, k: real) returns (scores: map<string, Accumulator>, order: seq<string>)
    requires OneBased(lexical) && k > 0.0
    ensures Accumulated(scores, order, lexical, [], k)
  {
    scores, order := map[], [];
    NothingAccumulated(k);
    hide Accumulated, LexicalEntry;
    var i := 0;
    while i < |lexical|
      invariant 0 <= i <= |lexical|
      invariant Accumulated(scores, order, lexical[..i], [], k)
    {
      var r := lexical[i];
      AccumulateLexical(scores, order, lexical[..i], r, k);
      assert lexical[..i + 1] == lexical[..i] + [r];
      order := Arrivals(scores, order, r);
      scores := scores[r.recordId := LexicalEntry(scores, r, k)];
      i := i + 1;
    }
    assert lexical[..i] == lexical;
  }

  method ScoreVector(scores0: map<string, Accumulator>, order0: seq<string>, lexical: seq<Ranked>, vector: seq<Ranked>,
                     k: real)
    returns (scores: map<string, Accumulator>, order: seq<string>)
    requires OneBased(lexical) && OneBased(vector) && k > 0.0
    requires Accumulated(scores0, order0, lexical, [], k)
    ensures Accumulated(scores, order, lexical, vector, k)
  {
    hide Accumulated, VectorEntry;
    assert vector[..0] == [];
    scores, order := scores0, order0;
    var i := 0;
    while i < |vector|
      invariant 0 <= i <= |vector|
      invariant Accumulated(scores, order, lexical, vector[..i], k)
    {
      var r := vector[i];
      AccumulateVector(scores, order, lexical, vector[..i], r, k);
      assert vector[..i + 1] == vector[..i] + [r];
      order := Arrivals(scores, order, r);
      scores := scores[r.recordId := VectorEntry(scores, r, k)];
      i := i + 1;
    }
    assert vector[..i] == vector;
  }

  /** Reads the map out in insertion order. */
  method Materialise(scores: map<string, Accumulator>, order: seq<string>, ghost lexical: seq<Ranked>,
                     ghost vector: seq<Ranked>, ghost k: real)
    returns (all: seq<Fused>)
    requires OneBased(lexical) && OneBased(vector) && k > 0.0
    requires Accumulated(scores, order, lexical, vector, k)
    ensures AllHits(all, lexical, vector, k)
  {
    all := [];
    var i := 0;
    while i < |order|
      invariant 0 <= i <= |order| && |all| == i
      invariant forall j :: 0 <= j < i ==> all[j] == HitOf(lexical, vector, k, order[j])
    {
      var id := order[i];
      assert id in order && id in scores;
      var entry := scores[id];
      all := all + [Fused(id, entry.score, entry.lexRank, entry.vecRank)];
      i := i + 1;
    }
    OrderIsAllHits(scores, order, all, lexical, vector, k);
  }

  /** None is the thrown error for a non-positive k. */
  method RrfFuse(lexical: seq<Ranked>, vector: seq<Ranked>, k: real, limit: int) returns (fused: Option<seq<Fused>>)
    requires OneBased(lexical) && OneBased(vector)
    ensures limit <= 0 ==> fused == Some([])
    ensures limit > 0 && k <= 0.0 ==> fused == None
    ensures limit > 0 && k > 0.0 ==> fused.Some? && IsFusion(fused.value, lexical, vector, k, limit)
    // With one row per id the ranks are the lists' own, and the score is the sum of the reciprocals of k plus rank.
    ensures limit > 0 && k > 0.0 && Once(lexical) && Once(vector) ==>
              fused.Some? && forall h :: h in fused.value ==> RankedAs(h, lexical, vector) && ScoredAs(h, k)
    ensures limit > 0 && k > 0.0 ==>
              && fused.Some? && |fused.value| <= limit
              && forall i, j :: 0 <= i < j < |fused.value| ==>
                   || fused.value[i].score > fused.value[j].score
                   || (fused.value[i].score == fused.value[j].score
                       && TextLe(fused.value[i].recordId, fused.value[j].recordId))
  {
    if limit <= 0 { return Some([]); }
    if k <= 0.0 { return None; }
    var scores, order := ScoreLexical(lexical, k);
    scores, order := ScoreVector(scores, order, lexical, vector, k);
    var all := Materialise(scores, order, lexical, vector, k);
    var sorted := Sort(all, Better);
    var cut := if |sorted| <= limit then sorted else sorted[..limit];
    assert cut == sorted[..Kept(limit, |all|)];
    FusionIsScored(cut, lexical, vector, k, limit);
    FusionIsOrdered(cut, lexical, vector, k, limit);
    return Some(cut);
  }

  /** The hit's ranks are those of its rows. */
  ghost predicate RankedAs(h: Fused, lexical: seq<Ranked>, vector: seq<Ranked>) {
    && (if h.lexRank.Some? then Ranked(h.recordId, h.lexRank.value) in lexical else !Lists(lexical, h.recordId))
    && (if h.vecRank.Some? then Ranked(h.recordId, h.vecRank.value) in vector else !Lists(vector, h.recordId))
  }

  ghost predicate ScoredAs(h: Fused, k: real)
    requires k > 0.0
  {
    && (h.lexRank.Some? ==> h.lexRank.value >= 1) && (h.vecRank.Some? ==> h.vecRank.value >= 1)
    && h.score == (if h.lexRank.Some? then 1.0 / (k + h.lexRank.value as real) else 0.0)
                  + (if h.vecRank.Some? then 1.0 / (k + h.vecRank.value as real) else 0.0)
  }

  lemma OneListScore(list: seq<Ranked>, k: real, id: string)
    requires Once(list) && k > 0.0
    ensures match RankIn(list, id)
            case None => !Lists(list, id) && Contribution(list, k, id) == 0.0
            case Some(r) => r >= 1 && Ranked(id, r) in list && Contribution(list, k, id) == 1.0 / (k + r as real)
  {
    hide Contribution, RankIn;
    if i :| 0 <= i < |list| && list[i].recordId == id {
      RankedContribution(list, k, i);
      assert list[i] == Ranked(id, list[i].rank);
    } else {
      Unlisted(list, k, id);
    }
  }

  lemma HitIsScored(lexical: seq<Ranked>, vector: seq<Ranked>, k: real, id: string)
    requires Once(lexical) && Once(vector) && k > 0.0
    ensures RankedAs(HitOf(lexical, vector, k, id), lexical, vector) && ScoredAs(HitOf(lexical, vector, k, id), k)
  {
    hide Contribution, RankIn, Lists, Once;
    OneListScore(lexical, k, id);
    OneListScore(vector, k, id);
  }

  /** Of a complete fusion of lists with one row per id, every hit is ranked and scored like that. */
  lemma CompleteIsScored(ranked: seq<Fused>, lexical: seq<Ranked>, vector: seq<Ranked>, k: real)
    requires Once(lexical) && Once(vector) && k > 0.0 && IsComplete(ranked, lexical, vector, k)
    ensures forall h :: h in ranked ==> RankedAs(h, lexical, vector) && ScoredAs(h, k)
  {
    hide HitOf, Lists, RankedAs, ScoredAs, Better;
    var all :| AllHits(all, lexical, vector, k) && ranked == Sort(all, Better);
    SameElements(all, ranked);
    forall h | h in ranked ensures RankedAs(h, lexical, vector) && ScoredAs(h, k) {
      assert h in all;
      var i :| 0 <= i < |all| && all[i] == h;
      HitIsScored(lexical, vector, k, h.recordId);
    }
  }

  /** A fusion falls by score, equal scores by id. */
  lemma FusionIsOrdered(fused: seq<Fused>, lexical: seq<Ranked>, vector: seq<Ranked>, k: real, limit: int)
    requires OneBased(lexical) && OneBased(vector) && k > 0.0 && IsFusion(fused, lexical, vector, k, limit) && limit > 0
    ensures |fused| <= limit
    ensures forall i, j :: 0 <= i < j < |fused| ==>
              || fused[i].score > fused[j].score
              || (fused[i].score == fused[j].score && TextLe(fused[i].recordId, fused[j].recordId))
  {
    hide AllHits, TextLe;
    var all :| AllHits(all, lexical, vector, k) && fused == Sort(all, Better)[..Kept(limit, |all|)];
    BetterIsTotal();
    SortOrdered(all, Better);
    forall i, j | 0 <= i < j < |fused| ensures Better(fused[i], fused[j]) {
    }
  }

  /** A fusion leaves nothing out before it is full. */
  lemma FusionIsFull(fused: seq<Fused>, lexical: seq<Ranked>, vector: seq<Ranked>, k: real, limit: int, id: string)
    requires OneBased(lexical) && OneBased(vector) && k > 0.0 && IsFusion(fused, lexical, vector, k, limit) && limit > 0
    requires |fused| < limit && (Lists(lexical, id) || Lists(vector, id))
    ensures exists i :: 0 <= i < |fused| && fused[i].recordId == id
  {
    hide Lists, Better;
    var all :| AllHits(all, lexical, vector, k) && fused == Sort(all, Better)[..Kept(limit, |all|)];
    SameElements(all, Sort(all, Better));
    assert fused == Sort(all, Better);
    assert HitOf(lexical, vector, k, id) in all;
  }

  lemma FusionIsScored(fused: seq<Fused>, lexical: seq<Ranked>, vector: seq<Ranked>, k: real, limit: int)
    requires OneBased(lexical) && OneBased(vector) && k > 0.0 && IsFusion(fused, lexical, vector, k, limit)
    ensures Once(lexical) && Once(vector) ==>
              forall h :: h in fused ==> RankedAs(h, lexical, vector) && ScoredAs(h, k)
  {
    hide HitOf, Lists, Once, RankedAs, ScoredAs, Better;
    if Once(lexical) && Once(vector) {
      var all :| AllHits(all, lexical, vector, k) && fused == Sort(all, Better)[..Kept(limit, |all|)];
      SameElements(all, Sort(all, Better));
      forall h | h in fused ensures RankedAs(h, lexical, vector) && ScoredAs(h, k) {
        assert h in Sort(all, Better) && h in all;
        var i :| 0 <= i < |all| && all[i] == h;
        HitIsScored(lexical, vector, k, h.recordId);
      }
    }
  }

  /** The constant decides how far agreement carries: an id ranked r twice beats one ranked first once iff r < k + 2. */
  lemma AgreementReach(lexical: seq<Ranked>, vector: seq<Ranked>, k: real, both: string, r: int, first: string)
    requires Once(lexical) && Once(vector) && k > 0.0
    requires Ranked(both, r) in lexical && Ranked(both, r) in vector
    requires || (Ranked(first, 1) in lexical && !Lists(vector, first))
             || (Ranked(first, 1) in vector && !Lists(lexical, first))
    ensures HitOf(lexical, vector, k, both).score > HitOf(lexical, vector, k, first).score <==> r as real < k + 2.0
  {
    RowScore(lexical, k, both, r);
    RowScore(vector, k, both, r);
    if !Lists(vector, first) {
      Unlisted(vector, k, first);
      RowScore(lexical, k, first, 1);
    } else {
      Unlisted(lexical, k, first);
      RowScore(vector, k, first, 1);
    }
    TwiceReciprocal(k + r as real, k + 1.0);
  }

  lemma RowScore(list: seq<Ranked>, k: real, id: string, r: int)
    requires Once(list) && k > 0.0 && Ranked(id, r) in list
    ensures r >= 1 && Contribution(list, k, id) == 1.0 / (k + r as real)
  {
    hide Contribution, RankIn;
    var i :| 0 <= i < |list| && list[i] == Ranked(id, r);
    RankedContribution(list, k, i);
  }

  lemma TwiceReciprocal(x: real, y: real)
    requires x > 0.0 && y > 0.0
    ensures 1.0 / x + 1.0 / x > 1.0 / y <==> x < y + y
  {
    var h := x / 2.0;
    InverseUnique(1.0 / x + 1.0 / x, 1.0 / h, h);
    if h < y { Reciprocal(h, y); }
    if y < h { Reciprocal(y, h); }
  }

  lemma InverseUnique(p: real, q: real, h: real)
    requires p * h == 1.0 && q * h == 1.0
    ensures p == q
  {
    assert p == p * (q * h) == q * (p * h) == q;
  }

  lemma OrderIsAllHits(scores: map<string, Accumulator>, order: seq<string>, all: seq<Fused>,
                       lexical: seq<Ranked>, vector: seq<Ranked>, k: real)
    requires OneBased(lexical) && OneBased(vector) && k > 0.0
    requires Accumulated(scores, order, lexical, vector, k) && |all| == |order|
    requires forall j :: 0 <= j < |order| ==> all[j] == HitOf(lexical, vector, k, order[j])
    ensures AllHits(all, lexical, vector, k)
  {
    forall id | Lists(lexical, id) || Lists(vector, id) ensures HitOf(lexical, vector, k, id) in all {
      assert id in scores && id in order;
      var j :| 0 <= j < |order| && order[j] == id;
      assert all[j] == HitOf(lexical, vector, k, id);
    }
    forall i | 0 <= i < |all| ensures Lists(lexical, all[i].recordId) || Lists(vector, all[i].recordId) {
      var id := order[i];
      assert id in order && id in scores;
    }
  }

  // ---- Algebra ----

  lemma AllHitsNoTies(all: seq<Fused>, lexical: seq<Ranked>, vector: seq<Ranked>, k: real)
    requires OneBased(lexical) && OneBased(vector) && k > 0.0 && AllHits(all, lexical, vector, k)
    ensures NoTies(all, Better)
  {
    forall x, y | x in all && y in all && Better(x, y) && Better(y, x) ensures x == y {
      TextLeTotal(x.recordId, y.recordId);
    }
  }

  /** The ranking does not depend on the order in which ids entered the map. */
  lemma FusionUnique(first: seq<Fused>, second: seq<Fused>, lexical: seq<Ranked>, vector: seq<Ranked>, k: real)
    requires OneBased(lexical) && OneBased(vector) && k > 0.0
    requires AllHits(first, lexical, vector, k) && AllHits(second, lexical, vector, k)
    ensures |first| == |second|
    ensures Sort(first, Better) == Sort(second, Better)
  {
    assert NoDuplicates(first) && NoDuplicates(second);
    SameHits(first, second, lexical, vector, k);
    SameHits(second, first, lexical, vector, k);
    SameSetSameElements(first, second);
    SameElements(first, second);
    BetterIsTotal();
    SortOrdered(first, Better);
    SortOrdered(second, Better);
    AllHitsNoTies(first, lexical, vector, k);
    SameElements(first, Sort(first, Better));
    OrderedUnique(Sort(first, Better), Sort(second, Better), Better);
  }

  lemma CompleteUnique(ranked: seq<Fused>, other: seq<Fused>, lexical: seq<Ranked>, vector: seq<Ranked>, k: real)
    requires OneBased(lexical) && OneBased(vector) && k > 0.0
    requires IsComplete(ranked, lexical, vector, k) && IsComplete(other, lexical, vector, k)
    ensures ranked == other
  {
    var all :| AllHits(all, lexical, vector, k) && ranked == Sort(all, Better);
    var all' :| AllHits(all', lexical, vector, k) && other == Sort(all', Better);
    FusionUnique(all, all', lexical, vector, k);
  }

  lemma SameHits(first: seq<Fused>, second: seq<Fused>, lexical: seq<Ranked>, vector: seq<Ranked>, k: real)
    requires OneBased(lexical) && OneBased(vector) && k > 0.0
    requires AllHits(first, lexical, vector, k) && AllHits(second, lexical, vector, k)
    ensures forall x :: x in first ==> x in second
  {
    forall x | x in first ensures x in second {
      var i :| 0 <= i < |first| && first[i] == x;
      assert x == HitOf(lexical, vector, k, x.recordId);
    }
  }

  /** A worse rank always weighs strictly less, and every rank weighs something. */
  lemma WeightFalls(k: real, better: int, worse: int)
    requires k > 0.0 && 1 <= better < worse
    ensures Weight(k, better) > Weight(k, worse) > 0.0
  {
    Reciprocal(k + better as real, k + worse as real);
  }

  lemma Reciprocal(x: real, y: real)
    requires 0.0 < x < y
    ensures 1.0 / x > 1.0 / y > 0.0
  {
    var a, b := 1.0 / x, 1.0 / y;
    assert a * x == 1.0 && b * y == 1.0;
    if a <= b { ProductMonotone(a, b, x, y); }
  }

  lemma ProductMonotone(a: real, b: real, x: real, y: real)
    requires 0.0 < a <= b && 0.0 < x < y
    ensures a * x < b * y
  {
    assert b * y - a * x == (b - a) * x + b * (y - x);
  }

  lemma {:induction false} RankedContribution(list: seq<Ranked>, k: real, i: nat)
    requires Once(list) && k > 0.0 && i < |list|
    ensures Contribution(list, k, list[i].recordId) == Weight(k, list[i].rank)
    ensures RankIn(list, list[i].recordId) == Some(list[i].rank)
  {
    var n := |list| - 1;
    if i < n {
      RankedContribution(list[..n], k, i);
    } else {
      assert !Lists(list[..n], list[i].recordId);
      Unlisted(list[..n], k, list[i].recordId);
    }
  }

  ghost function HitsInOrder(list: seq<Ranked>, lexical: seq<Ranked>, vector: seq<Ranked>, k: real): (hits: seq<Fused>)
    requires OneBased(lexical) && OneBased(vector) && k > 0.0
  {
    seq(|list|, i requires 0 <= i < |list| => HitOf(lexical, vector, k, list[i].recordId))
  }

  /** Some list names every id exactly once. */
  ghost predicate NamesAll(list: seq<Ranked>, lexical: seq<Ranked>, vector: seq<Ranked>) {
    && Ranking(list)
    && forall id :: Lists(lexical, id) || Lists(vector, id) <==> Lists(list, id)
  }

  ghost predicate FallingScores(hits: seq<Fused>) {
    forall i, j :: 0 <= i < j < |hits| ==> hits[i].score > hits[j].score
  }

  lemma InOrderIsAllHits(list: seq<Ranked>, lexical: seq<Ranked>, vector: seq<Ranked>, k: real)
    requires OneBased(lexical) && OneBased(vector) && k > 0.0 && NamesAll(list, lexical, vector)
    ensures AllHits(HitsInOrder(list, lexical, vector, k), lexical, vector, k)
  {
    var own := HitsInOrder(list, lexical, vector, k);
    forall id | Lists(lexical, id) || Lists(vector, id) ensures HitOf(lexical, vector, k, id) in own {
      var i :| 0 <= i < |list| && list[i].recordId == id;
      assert own[i] == HitOf(lexical, vector, k, id);
    }
    forall i | 0 <= i < |own| ensures Lists(lexical, own[i].recordId) || Lists(vector, own[i].recordId) {
      assert list[i].recordId == own[i].recordId;
      assert Lists(list, own[i].recordId);
    }
  }

  lemma SortedAlready(hits: seq<Fused>)
    requires FallingScores(hits)
    ensures Sort(hits, Better) == hits
  {
    BetterIsTotal();
    SortOrdered(hits, Better);
    OrderedUnique(hits, Sort(hits, Better), Better);
  }

  /** When one list names every id and scores fall along it, fusion returns that list in its own order. */
  lemma FusionKeepsOrder(fused: seq<Fused>, list: seq<Ranked>, lexical: seq<Ranked>, vector: seq<Ranked>, k: real,
                         limit: int)
    requires OneBased(lexical) && OneBased(vector) && k > 0.0 && NamesAll(list, lexical, vector)
    requires FallingScores(HitsInOrder(list, lexical, vector, k))
    requires IsFusion(fused, lexical, vector, k, limit)
    ensures fused == HitsInOrder(list, lexical, vector, k)[..Kept(limit, |list|)]
  {
    var all :| AllHits(all, lexical, vector, k) && fused == Sort(all, Better)[..Kept(limit, |all|)];
    InOrderIsAllHits(list, lexical, vector, k);
    FusionUnique(all, HitsInOrder(list, lexical, vector, k), lexical, vector, k);
    SortedAlready(HitsInOrder(list, lexical, vector, k));
  }

  /** With an empty partner the other list comes back in its own order. */
  lemma LexicalOnly(fused: seq<Fused>, lexical: seq<Ranked>, k: real, limit: int)
    requires Ranking(lexical) && k > 0.0 && IsFusion(fused, lexical, [], k, limit)
    ensures |fused| == Kept(limit, |lexical|)
    ensures forall i :: 0 <= i < |fused| ==>
              fused[i] == Fused(lexical[i].recordId, Weight(k, lexical[i].rank), Some(lexical[i].rank), None)
  {
    var own := HitsInOrder(lexical, lexical, [], k);
    forall i | 0 <= i < |own|
      ensures own[i] == Fused(lexical[i].recordId, Weight(k, lexical[i].rank), Some(lexical[i].rank), None)
    {
      RankedContribution(lexical, k, i);
    }
    forall i, j | 0 <= i < j < |own| ensures own[i].score > own[j].score {
      WeightFalls(k, lexical[i].rank, lexical[j].rank);
    }
    FusionKeepsOrder(fused, lexical, lexical, [], k, limit);
  }

  /** Two identical lists agree on the result: that list. */
  lemma Agreement(fused: seq<Fused>, list: seq<Ranked>, k: real, limit: int)
    requires Ranking(list) && k > 0.0 && IsFusion(fused, list, list, k, limit)
    ensures |fused| == Kept(limit, |list|)
    ensures forall i :: 0 <= i < |fused| ==>
              fused[i] == Fused(list[i].recordId, Weight(k, list[i].rank) + Weight(k, list[i].rank),
                                Some(list[i].rank), Some(list[i].rank))
  {
    var own := HitsInOrder(list, list, list, k);
    forall i | 0 <= i < |own|
      ensures own[i] == Fused(list[i].recordId, Weight(k, list[i].rank) + Weight(k, list[i].rank),
                              Some(list[i].rank), Some(list[i].rank))
    {
      RankedContribution(list, k, i);
    }
    forall i, j | 0 <= i < j < |own| ensures own[i].score > own[j].score {
      WeightFalls(k, list[i].rank, list[j].rank);
    }
    FusionKeepsOrder(fused, list, list, list, k, limit);
  }

  function Mirror(hit: Fused): Fused {
    Fused(hit.recordId, hit.score, hit.vecRank, hit.lexRank)
  }

  function Mirrored(hits: seq<Fused>): (r: seq<Fused>)
    ensures |r| == |hits|
  {
    seq(|hits|, i requires 0 <= i < |hits| => Mirror(hits[i]))
  }

  lemma MirrorCons(x: Fused, s: seq<Fused>)
    ensures Mirrored([x] + s) == [Mirror(x)] + Mirrored(s)
  {
  }

  lemma MirrorNothing()
    ensures Mirrored([]) == []
  {
  }

  lemma MirrorHead(x: Fused, s: seq<Fused>)
    requires s != []
    ensures Mirrored(s)[0] == Mirror(s[0]) && Mirrored(s)[1..] == Mirrored(s[1..])
    ensures Better(Mirror(x), Mirrored(s)[0]) <==> Better(x, s[0])
  {
  }

  lemma {:induction false} MirrorInsert(x: Fused, s: seq<Fused>)
    ensures Insert(Mirror(x), Mirrored(s), Better) == Mirrored(Insert(x, s, Better))
  {
    MirrorCons(x, s);
    hide TextLe, Better, Mirrored;
    if s == [] {
      MirrorNothing();
      assert [x] == [x] + [];
    } else {
      MirrorHead(x, s);
      MirrorInsert(x, s[1..]);
      assert s == [s[0]] + s[1..];
      MirrorCons(s[0], Insert(x, s[1..], Better));
    }
  }

  lemma {:induction false} MirrorSort(s: seq<Fused>)
    ensures Sort(Mirrored(s), Better) == Mirrored(Sort(s, Better))
  {
    if s == [] {
    } else {
      hide Better, Mirrored, Insert;
      MirrorSort(s[1..]);
      MirrorHead(s[0], s);
      MirrorInsert(s[0], Sort(s[1..], Better));
    }
  }

  /** Exchanging the lists exchanges the rank fields and nothing else. */
  lemma Symmetry(fused: seq<Fused>, swapped: seq<Fused>, lexical: seq<Ranked>, vector: seq<Ranked>, k: real, limit: int)
    requires OneBased(lexical) && OneBased(vector) && k > 0.0
    requires IsFusion(fused, lexical, vector, k, limit) && IsFusion(swapped, vector, lexical, k, limit)
    ensures swapped == Mirrored(fused)
  {
    var all :| AllHits(all, lexical, vector, k) && fused == Sort(all, Better)[..Kept(limit, |all|)];
    var other :| AllHits(other, vector, lexical, k) && swapped == Sort(other, Better)[..Kept(limit, |other|)];
    MirrorIsAllHits(all, lexical, vector, k);
    FusionUnique(Mirrored(all), other, vector, lexical, k);
    MirrorSort(all);
    MirrorCut(Sort(all, Better), Kept(limit, |all|));
  }

  lemma MirrorCut(s: seq<Fused>, n: nat)
    requires n <= |s|
    ensures Mirrored(s)[..n] == Mirrored(s[..n])
  {
  }

  lemma MirrorIsAllHits(all: seq<Fused>, lexical: seq<Ranked>, vector: seq<Ranked>, k: real)
    requires OneBased(lexical) && OneBased(vector) && k > 0.0 && AllHits(all, lexical, vector, k)
    ensures AllHits(Mirrored(all), vector, lexical, k)
  {
    var mirror := Mirrored(all);
    forall id | Lists(vector, id) || Lists(lexical, id) ensures HitOf(vector, lexical, k, id) in mirror {
      var i :| 0 <= i < |all| && all[i] == HitOf(lexical, vector, k, id);
      assert mirror[i] == HitOf(vector, lexical, k, id);
    }
  }

  lemma VectorOnly(fused: seq<Fused>, vector: seq<Ranked>, k: real, limit: int)
    requires Ranking(vector) && k > 0.0 && IsFusion(fused, [], vector, k, limit)
    ensures |fused| == Kept(limit, |vector|)
    ensures forall i :: 0 <= i < |fused| ==>
              fused[i] == Fused(vector[i].recordId, Weight(k, vector[i].rank), None, Some(vector[i].rank))
  {
    var own := HitsInOrder(vector, [], vector, k);
    forall i | 0 <= i < |own|
      ensures own[i] == Fused(vector[i].recordId, Weight(k, vector[i].rank), None, Some(vector[i].rank))
    {
      RankedContribution(vector, k, i);
    }
    forall i, j | 0 <= i < j < |own| ensures own[i].score > own[j].score {
      WeightFalls(k, vector[i].rank, vector[j].rank);
    }
    FusionKeepsOrder(fused, vector, [], vector, k, limit);
  }
}
