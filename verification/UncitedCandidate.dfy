/** A candidate the merging judge does not cite: its cluster is reported as merged, and what it vouches for is lost. */
module UncitedCandidate {
  import opened MemoryTypes
  import opened Ordering
  import opened Cosine
  import opened Storage
  import opened Search
  import opened MergeDecision
  import opened Commits
  import opened Reconciler
  import opened StaleDeletion
  import Breaker = CircuitBreaker

  /** The judge merges the stored record alone, into a summary of its own. */
  const ALONE := JudgeMerge(["r"], "", "", [], [], [], None)

  const CITED := [Cited("r", SHARED.sourceEventIds, SHARED.fields.observationType, false, 1.0, 0)]

  const REPLY := World(Some([Entry("r", SHARED, UNIT)]), Reply(Merge(ALONE)), TimedOut, None, "1", None)

  const ENV: Environment := (x, past) => REPLY

  ghost function Summary(): MemoryRecord {
    MemoryRecord(SummaryId(0), "n", FirstSeen(Concat(EventArrays(CITED))),
                 Fields("llm-reconciled", "", "", [], [], [], SummaryType(ALONE, CITED)), "1")
  }

  ghost function Afterwards(): Snapshot {
    Snapshot((START.rows - {"r"})[SummaryId(0) := Row(Summary(), None)], START.ever[SummaryId(0) := Summary()], false)
  }

  ghost function LosingRun(): History {
    History([Batch([LATE], Some(UNIT))], [REPLY], [START, Afterwards()], [Verdict([FOUND], Collapsed(CITED))],
            [NOTHING, Counts(1, 1, 0, 1, 1, 0, 0, false)], [[], [Breaker.Success]])
  }

  lemma CitesAlone()
    ensures CITED != [] && Ordered(CITED, Precedes) && InCitationOrder(CITED, ["r"]) && ToDelete(CITED) == ["r"]
    ensures ResolvesAll(CITED, ["r"], [LATE], [FOUND]) && !KnowsNone(["r"], [LATE], [FOUND])
  {
    var group, neighbors := [LATE], [FOUND];
    assert neighbors[0].record.recordId == "r" && group[0].recordId == "b";
    assert !IsMember(group, "r") && IsNeighbor(neighbors, "r");
    assert Resolves(CITED[0], group, neighbors);
    assert Cites(CITED, "r") by { assert CITED[0].recordId == "r"; }
    assert !IsMember(group, "r") ==> forall id :: id in ["r"] ==> id == "r";
    assert CITED[..0] == [] && ToDelete(CITED[..0]) == [];
    assert ["r"][0] == "r";
  }

  lemma MergesAlone()
    ensures Merges("n", ALONE, [LATE], [FOUND], CITED, SummaryId(0), START, Afterwards())
  {
    hide CITED, ResolvesAll, Ordered, Precedes, FirstSeen, Concat, EventArrays, SummaryType, Replaced, Present;
    hide ToDelete, InCitationOrder, KnowsNone;
    CitesAlone();
    assert |SummaryId(0)| == 2;
    RowSwapped(START.rows, SummaryId(0), Row(Summary(), None));
  }

  lemma LosingEnds()
    ensures EndsAs(CONFIG, [LATE], REPLY, SummaryId(0), [FOUND], START, Afterwards(), Collapsed(CITED))
  {
    hide Merges, CITED, KnowsNone, START, ToDelete, Ordered, Precedes, InCitationOrder, ResolvesAll;
    hide FirstSeen, Concat, EventArrays, SummaryType;
    MergesAlone();
    CitesAlone();
  }

  lemma LosingSettles(sqrt: real -> real)
    requires IsSqrt(sqrt)
    ensures Settles(sqrt, CONFIG, Batch([LATE], Some(UNIT)), REPLY, SummaryId(0), START, Afterwards(),
                    Verdict([FOUND], Collapsed(CITED)))
  {
    hide Pool, EndsAs, IsSqrt, CITED, SummaryId, Summary;
    FindsShared(sqrt);
    LosingEnds();
  }

  lemma LosingCounts()
    ensures Sessions(REPLY, Verdict([FOUND], Collapsed(CITED))) == [Breaker.Success]
    ensures Counted(NOTHING, Counts(1, 1, 0, 1, 1, 0, 0, false), [LATE], [Breaker.Success],
                    Verdict([FOUND], Collapsed(CITED)))
  {
    hide Outcomes, CITED, ToDelete, Ordered, Precedes, InCitationOrder, ResolvesAll, KnowsNone;
    CitesAlone();
    OneSession();
  }

  lemma OneSession()
    ensures Outcomes(REPLY) == [Breaker.Success] && Breaker.Failure !in [Breaker.Success]
  {
  }

  lemma LosingStep(sqrt: real -> real)
    requires IsSqrt(sqrt)
    ensures StepOf(sqrt, CONFIG, SummaryId(0), LosingRun(), 0)
  {
    hide Settles, START, Afterwards, CITED, IsSqrt, SummaryId, Counted, Sessions, REPLY;
    LosingSettles(sqrt);
    LosingCounts();
  }

  lemma LosingIsRun(sqrt: real -> real)
    requires IsSqrt(sqrt)
    ensures IsRun(sqrt, CONFIG, [LATE], ENV, SummaryId, LosingRun(), START, Afterwards())
  {
    hide StepOf, Batched, START, Afterwards, CITED, IsSqrt;
    OneCluster(sqrt);
    LosingStep(sqrt);
    assert LosingRun().batches == LateRun().batches;
  }

  lemma LosingIsPrepared()
    ensures FreshBatch(CONFIG, [LATE], SummaryId, 1, START.ever) && Recalls(ENV, START.ever, "n")
  {
    forall x: nat, y: nat | x < y ensures SummaryId(x) != SummaryId(y) {
      assert |SummaryId(x)| != |SummaryId(y)|;
    }
    forall x: nat ensures SummaryId(x) != "b" && SummaryId(x) != "r" {
      assert |SummaryId(x)| != 1;
    }
  }

  lemma LosingBringsNothing()
    ensures !Evident(START.rows, "g") && !Brought(LosingRun(), 1, "g")
  {
    assert !CitesId(REPLY, "b");
  }

  /**
   * The index lists the row as it is, nothing fails, no other writer is at work: the run reports a merge and one
   * deletion, and its only candidate's event is evident nowhere.
   */
  lemma CandidateIsLost(sqrt: real -> real)
    requires IsSqrt(sqrt)
    ensures Sound(START.rows, START.ever) && Reflects(REPLY.index.value, START.rows, "n")
    ensures IsRun(sqrt, CONFIG, [LATE], ENV, SummaryId, LosingRun(), START, Afterwards())
    ensures FreshBatch(CONFIG, [LATE], SummaryId, 1, START.ever) && Recalls(ENV, START.ever, "n")
    ensures LosingRun().counts[1] == Counts(1, 1, 0, 1, 1, 0, 0, false)
    ensures "g" in LATE.sourceEventIds && !Evident(Afterwards().rows, "g")
  {
    hide IsRun, FreshBatch, Recalls, Evident, Brought, Sound, Afterwards, AllHit, OthersSpared;
    StartIsSound();
    LosingIsRun(sqrt);
    LosingIsPrepared();
    LosingBringsNothing();
    RunConserves(sqrt, CONFIG, [LATE], ENV, SummaryId, 1, LosingRun(), START, Afterwards());
  }
}
