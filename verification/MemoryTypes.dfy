/** The wire types shared by the collector's modules. */
module MemoryTypes {

  datatype Option<+T> = None | Some(value: T)

  type Vec = seq<real>

  datatype ObservationType = ToolUse | Decision | Failure | Discovery | Pattern | SessionSummary

  /** What a candidate and a stored record have in common. */
  datatype Fields = Fields(
    strategy: string,
    title: string,
    summary: string,
    facts: seq<string>,
    concepts: seq<string>,
    filesTouched: seq<string>,
    observationType: ObservationType)

  datatype MemoryRecord = MemoryRecord(
    recordId: string,
    namespace: string,
    sourceEventIds: seq<string>,
    fields: Fields,
    createdAt: string)

  datatype CandidateMemory = CandidateMemory(
    recordId: string,
    namespace: string,
    sourceEventIds: seq<string>,
    fields: Fields,
    embedding: Option<Vec>)

  /** What the judge said: collapse the cited records into one, or commit the cluster as it is. */
  datatype JudgeMerge = JudgeMerge(
    mergedRecordIds: seq<string>,
    title: string,
    summary: string,
    facts: seq<string>,
    concepts: seq<string>,
    filesTouched: seq<string>,
    observationType: Option<ObservationType>)

  datatype JudgeResponse = Merge(decision: JudgeMerge) | KeepSeparate
}
