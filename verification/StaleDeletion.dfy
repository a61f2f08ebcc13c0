/** Two writers that looked up the same record: the second one reports a deletion and removes nothing. */
module StaleDeletion {
  import opened MemoryTypes
  import opened Ordering
  import opened Cosine
  import opened Clustering
  import opened Storage
  import opened Search
  import opened MergeDecision
  import opened Commits
  import opened Reconciler
  import Breaker = CircuitBreaker

  const PLAIN := Fields("rule", "", "", [], [], [], ToolUse)
  const UNIT: Vec := [1.0]

  /** The record both writers find, and how it looks to them. */
  const SHARED := MemoryRecord("r", "n", ["e"], PLAIN, "0")
  const FOUND := Neighbor(SHARED, 1.0)

  function Candidate(id: string, event: string): CandidateMemory {
    CandidateMemory(id, "n", [event], PLAIN, Some(UNIT))
  }

  // ---- A judge that merges one candidate with the shared record ----

  function Decision(c: CandidateMemory): JudgeMerge {
    JudgeMerge([c.recordId, "r"], "", "", [], [], [], None)
  }

  function CitedBoth(c: CandidateMemory): seq<Cited> {
    [Cited(c.recordId, c.sourceEventIds, c.fields.observationType, true, 1.0, 0),
     Cited("r", SHARED.sourceEventIds, SHARED.fields.observationType, false, 1.0, 1)]
  }

  ghost function SummaryOf(c: CandidateMemory, id: string, now: string): MemoryRecord {
    MemoryRecord(id, "n", FirstSeen(Concat(EventArrays(CitedBoth(c)))),
                 Fields("llm-reconciled", "", "", [], [], [], SummaryType(Decision(c), CitedBoth(c))), now)
  }

  /** The store after the merge: the summary in, the shared record out if it is still there. */
  ghost function MergedInto(before: Snapshot, c: CandidateMemory, id: string, now: string): Snapshot {
    var summary := SummaryOf(c, id, now);
    Snapshot((before.rows - {"r"})[id := Row(summary, None)], before.ever[id := summary], before.closed)
  }

  lemma CitesBoth(c: CandidateMemory)
    requires c.recordId != "r"
    ensures CitedBoth(c) != [] && Ordered(CitedBoth(c), Precedes) && ToDelete(CitedBoth(c)) == ["r"]
    ensures ResolvesAll(CitedBoth(c), Decision(c).mergedRecordIds, [c], [FOUND])
    ensures InCitationOrder(CitedBoth(c), Decision(c).mergedRecordIds)
  {
    var cited, group, neighbors := CitedBoth(c), [c], [FOUND];
    assert group[0].recordId == c.recordId && neighbors[0].record.recordId == "r";
    assert IsMember(group, c.recordId) && !IsMember(group, "r");
    assert Resolves(cited[0], group, neighbors) && Resolves(cited[1], group, neighbors);
    assert Cites(cited, c.recordId) && Cites(cited, "r") by {
      assert cited[0].recordId == c.recordId && cited[1].recordId == "r";
    }
    assert cited[..1][..0] == [] && ToDelete(cited[..1]) == [];
  }

  lemma RowSwapped(rows: map<string, Row>, id: string, row: Row)
    requires id != "r" && id !in rows && row.record.recordId == id
    ensures var after := (rows - {"r"})[id := row];
            && Replaced(rows, after, row.record, ["r"]) && |after| + |Present(["r"], rows)| == |rows| + 1
  {
    var after := (rows - {"r"})[id := row];
    assert after.Keys == rows.Keys - {"r"} + {id};
    assert Present(["r"], rows) == rows.Keys * {"r"};
  }

  lemma MergesBoth(before: Snapshot, c: CandidateMemory, id: string, now: string)
    requires c.recordId != "r" && id != "r" && id !in before.rows
    ensures Merges("n", Decision(c), [c], [FOUND], CitedBoth(c), id, before, MergedInto(before, c, id, now))
  {
    hide CitedBoth, ResolvesAll, Ordered, Precedes, FirstSeen, Concat, EventArrays, SummaryType, Replaced, Present;
    hide ToDelete, InCitationOrder;
    CitesBoth(c);
    RowSwapped(before.rows, id, Row(SummaryOf(c, id, now), None));
  }

  // ---- The first writer ----

  const START := Snapshot(map["r" := Row(SHARED, Some(UNIT))], map["r" := SHARED], false)

  ghost function Meanwhile(): Snapshot {
    MergedInto(START, Candidate("a", "f"), "s", "1")
  }

  ghost function FirstMerge(): Call {
    var c := Candidate("a", "f");
    Collapse("n", Decision(c), [c], [FOUND], CitedBoth(c), "s")
  }

  lemma MeanwhileShape()
    ensures Meanwhile().rows.Keys == {"s"} && Meanwhile().ever.Keys == {"r", "s"} && Meanwhile().ever["r"] == SHARED
    ensures !Meanwhile().closed
  {
    hide SummaryOf;
  }

  lemma FirstWriter()
    ensures Sound(START.rows, START.ever) && Effect(FirstMerge(), START, Meanwhile())
    ensures Informed(FirstMerge(), START.ever) && Sound(Meanwhile().rows, Meanwhile().ever)
  {
    hide Merges, Sound, SummaryOf, CitedBoth;
    MergesBoth(START, Candidate("a", "f"), "s", "1");
    StartIsSound();
    CallKeepsEvidence(FirstMerge(), START, Meanwhile());
  }

  lemma StartIsSound()
    ensures Sound(START.rows, START.ever)
  {
    forall id, event | id in START.ever && event in START.ever[id].sourceEventIds ensures Evident(START.rows, event) {
      assert "r" in START.rows && START.rows["r"].record.sourceEventIds == START.ever[id].sourceEventIds;
    }
  }

  // ---- The second writer, whose lookup was before the first one's commit ----

  const CONFIG := Config("n", "p", 0.9, 0.5, 5)

  const LATE := Candidate("b", "g")

  const ANSWERS := World(Some([Entry("r", SHARED, UNIT)]), Reply(Merge(Decision(LATE))), TimedOut, None, "2", None)

  const CLUSTERS := [Cluster([0], Some(UNIT))]

  const VERDICT := Verdict([FOUND], Collapsed(CitedBoth(LATE)))

  function SummaryId(x: nat): (id: string)
    ensures |id| == x + 2
  {
    seq(x + 2, _ => 't')
  }

  ghost function LateRun(): History {
    History([Batch([LATE], Some(UNIT))], [ANSWERS],
            [Meanwhile(), MergedInto(Meanwhile(), LATE, SummaryId(0), "2")], [VERDICT],
            [NOTHING, Counts(1, 1, 0, 1, 1, 0, 0, false)], [[], [Breaker.Success]])
  }

  lemma UnitCosine(sqrt: real -> real)
    requires IsSqrt(sqrt)
    ensures CosineOf(sqrt, UNIT, UNIT) == 1.0 && Normalized(sqrt, UNIT) == UNIT
  {
    assert Dot(UNIT, UNIT, 1) == Dot(UNIT, UNIT, 0) + 1.0 == 1.0;
    SqrtUnique(sqrt, 1.0, 1.0);
  }

  lemma WithinOne(sqrt: real -> real, index: seq<Entry>, centroid: Vec, threshold: real)
    requires IsSqrt(sqrt) && |index| == 1 && SameWidth(centroid, index)
    requires CosineOf(sqrt, centroid, index[0].vec) >= threshold
    ensures Within(sqrt, index, centroid, threshold) ==
              [Neighbor(index[0].record, CosineOf(sqrt, centroid, index[0].vec))]
  {
    assert index[..0] == [] && Within(sqrt, index[..0], centroid, threshold) == [];
  }

  lemma FindsShared(sqrt: real -> real)
    requires IsSqrt(sqrt)
    ensures Pool(sqrt, CONFIG, UNIT, ANSWERS.index.value, [FOUND])
  {
    hide CosineOf, IsSqrt;
    UnitCosine(sqrt);
    var index := ANSWERS.index.value;
    WithinOne(sqrt, index, UNIT, 0.5);
    CutIsTop([FOUND], [FOUND], 5, Nearer);
    assert [FOUND][..1] == [FOUND];
  }

  lemma OnePartition()
    ensures OneWidth([LATE]) && Partition(CLUSTERS, 1) && InCluster(CLUSTERS, 0, 0)
    ensures forall x, i :: InCluster(CLUSTERS, x, i) ==> x == 0 && i == 0
  {
    assert InCluster(CLUSTERS, 0, 0) && Covered(CLUSTERS, 0);
  }

  lemma OneCentroid(sqrt: real -> real)
    requires IsSqrt(sqrt) && OneWidth([LATE])
    ensures CentroidOf(sqrt, [LATE], [0]) == Some(UNIT)
  {
    hide IsSqrt, CentroidOf;
    IdenticalMembersCentroid(sqrt, [LATE], [0], UNIT);
    UnitCosine(sqrt);
  }

  lemma OneCluster(sqrt: real -> real)
    requires IsSqrt(sqrt)
    ensures OneWidth([LATE]) && Batched(sqrt, [LATE], 0.9, CLUSTERS, LateRun().batches)
  {
    hide IsSqrt, CentroidOf, OneWidth, Partition, InCluster, Meanwhile, MergedInto, SummaryId, CitedBoth, Similar;
    OnePartition();
    OneCentroid(sqrt);
    assert SimilarChain(sqrt, [LATE], 0.9, [0], 0, 0);
    assert Connected(sqrt, [LATE], 0.9, 0, 0);
    assert Clustered(sqrt, [LATE], 0.9, CLUSTERS);
    assert Group([LATE], [0]) == [LATE];
    assert Batches([LATE], CLUSTERS) == LateRun().batches;
  }

  lemma LateEnds()
    ensures EndsAs(CONFIG, [LATE], ANSWERS, SummaryId(0), [FOUND], Meanwhile(),
                   MergedInto(Meanwhile(), LATE, SummaryId(0), "2"), VERDICT.ending)
  {
    hide Merges, CitedBoth, Meanwhile, Sound, Effect, Informed, START, FirstMerge, FirstSeen, Concat, EventArrays;
    MeanwhileShape();
    MergesBoth(Meanwhile(), LATE, SummaryId(0), "2");
    assert IsMember([LATE], "b") by { assert [LATE][0].recordId == "b"; }
    assert Decision(LATE).mergedRecordIds[0] == "b";
  }

  lemma LateSettles(sqrt: real -> real)
    requires IsSqrt(sqrt)
    ensures Settles(sqrt, CONFIG, Batch([LATE], Some(UNIT)), ANSWERS, SummaryId(0), Meanwhile(),
                    MergedInto(Meanwhile(), LATE, SummaryId(0), "2"), VERDICT)
  {
    hide Pool, EndsAs, CitedBoth, Meanwhile, IsSqrt, START, FirstMerge, Sound, Effect, Informed, SummaryOf, SummaryId;
    MeanwhileShape();
    FindsShared(sqrt);
    LateEnds();
  }

  const ENVIRONMENT: Environment := (x, past) => ANSWERS

  lemma LateIsRun(sqrt: real -> real)
    requires IsSqrt(sqrt)
    ensures IsRun(sqrt, CONFIG, [LATE], ENVIRONMENT, SummaryId, LateRun(), Meanwhile(), LateRun().states[1])
  {
    hide Settles, Batched, Meanwhile, MergedInto, CitedBoth;
    OneCluster(sqrt);
    LateSettles(sqrt);
    CitesBoth(LATE);
    assert Outcomes(ANSWERS) == [Breaker.Success];
    assert StepOf(sqrt, CONFIG, SummaryId(0), LateRun(), 0);
  }

  lemma LateIsPrepared()
    ensures FreshIds(LateRun().batches, SummaryId, Meanwhile().ever) && InformedRun(CONFIG, LateRun(), 1)
  {
    hide Meanwhile, MergedInto, CitedBoth;
    MeanwhileShape();
    forall x: nat, y: nat | x < y ensures SummaryId(x) != SummaryId(y) {
      assert |SummaryId(x)| != |SummaryId(y)|;
    }
    forall x: nat ensures SummaryId(x) != "b" && SummaryId(x) != "r" && SummaryId(x) != "s" {
      assert |SummaryId(x)| != 1;
    }
  }

  /** The cited row is gone, so its deletion removes nothing. */
  lemma LateMisses()
    ensures !AllHit(LateRun(), 1) && Meanwhile().rows.Keys <= LateRun().states[1].rows.Keys
    ensures Balance(LateRun(), 1) == |Meanwhile().rows| + 1
  {
    hide Sound, Effect, Informed, Meanwhile, CitedBoth, SummaryOf;
    MeanwhileShape();
    CitesBoth(LATE);
    assert "r" in ToDelete(CitedBoth(LATE)) && !Hits(LateRun().states[0], LateRun().verdicts[0]);
    assert LateRun().states[1].rows.Keys == Meanwhile().rows.Keys - {"r"} + {SummaryId(0)};
  }

  /**
   * The index the second writer was answered listed the row as it was stored then. By the time it commits, the first
   * writer has merged that row away: one deletion is reported, no row is removed, and the counts are off by one.
   */
  lemma ReportedNotRemoved(sqrt: real -> real)
    requires IsSqrt(sqrt)
    ensures Sound(START.rows, START.ever) && Effect(FirstMerge(), START, Meanwhile())
    ensures Informed(FirstMerge(), START.ever) && Reflects(ANSWERS.index.value, START.rows, "n")
    ensures var run := LateRun();
            && IsRun(sqrt, CONFIG, [LATE], ENVIRONMENT, SummaryId, run, Meanwhile(), run.states[1])
            && FreshIds(run.batches, SummaryId, Meanwhile().ever) && Sound(Meanwhile().rows, Meanwhile().ever)
            && InformedRun(CONFIG, run, 1) && !AllHit(run, 1)
            && run.counts[1].recordsDeleted == 1 && Meanwhile().rows.Keys <= run.states[1].rows.Keys
            && Balance(run, 1) == |Meanwhile().rows| + 1
  {
    hide Sound, Effect, Informed, IsRun, FreshIds, InformedRun, AllHit, Balance, Meanwhile, MergedInto, CitedBoth;
    FirstWriter();
    LateIsRun(sqrt);
    LateIsPrepared();
    LateMisses();
  }
}
