/** The memory tables behind the storage backend: rows, full-text index, embeddings, transactions. */
module Storage {
  import opened MemoryTypes

  datatype Row = Row(record: MemoryRecord, embedding: Option<Vec>)

  datatype FtsRow = FtsRow(recordId: string, namespace: string, title: string, summary: string, factsText: string)

  datatype Tables = Tables(rows: map<string, Row>, fts: seq<FtsRow>)

  /** One call on the synchronous transaction handle. */
  datatype Op = Put(record: MemoryRecord) | Embed(recordId: string, vec: Vec) | Delete(recordIds: seq<string>)

  function Spaced(facts: seq<string>): string {
    if facts == [] then ""
    else if |facts| == 1 then facts[0]
    else facts[0] + " " + Spaced(facts[1..])
  }

  /** Facts are set apart by one space. */
  lemma {:induction false} SpacedJoins(a: seq<string>, b: seq<string>)
    requires a != [] && b != []
    ensures Spaced(a + b) == Spaced(a) + " " + Spaced(b)
  {
    if |a| == 1 {
      assert (a + b)[1..] == b;
    } else {
      assert (a + b)[1..] == a[1..] + b;
      SpacedJoins(a[1..], b);
      assert a[0] + " " + (Spaced(a[1..]) + " " + Spaced(b)) == a[0] + " " + Spaced(a[1..]) + " " + Spaced(b);
    }
  }

  function FtsOf(record: MemoryRecord): FtsRow {
    FtsRow(record.recordId, record.namespace, record.fields.title, record.fields.summary, Spaced(record.fields.facts))
  }

  function WithoutFts(fts: seq<FtsRow>, id: string): seq<FtsRow> {
    if fts == [] then []
    else (if fts[0].recordId == id then [] else [fts[0]]) + WithoutFts(fts[1..], id)
  }

  // ---- What one statement does; None is a thrown constraint error ----

  function Inserted(t: Tables, record: MemoryRecord): Option<Tables> {
    if record.recordId in t.rows then None
    else Some(Tables(t.rows[record.recordId := Row(record, None)], t.fts + [FtsOf(record)]))
  }

  function Embedded(t: Tables, id: string, embedding: Option<Vec>): Tables {
    if id in t.rows then t.(rows := t.rows[id := t.rows[id].(embedding := embedding)]) else t
  }

  /** The three-step cascade: FTS row, embedding column, primary row. */
  function Deleted(t: Tables, id: string): Tables {
    var t1 := t.(fts := WithoutFts(t.fts, id));
    var t2 := Embedded(t1, id, None);
    t2.(rows := t2.rows - {id})
  }

  function DeletedAll(t: Tables, ids: seq<string>): Tables {
    if ids == [] then t else Deleted(DeletedAll(t, ids[..|ids| - 1]), ids[|ids| - 1])
  }

  function Step(t: Tables, op: Op): Option<Tables> {
    match op
    case Put(record) => Inserted(t, record)
    case Embed(id, vec) => Some(Embedded(t, id, Some(vec)))
    case Delete(ids) => Some(DeletedAll(t, ids))
  }

  function Run(t: Tables, ops: seq<Op>): Option<Tables> {
    if ops == [] then Some(t)
    else match Run(t, ops[..|ops| - 1])
      case None => None
      case Some(u) => Step(u, ops[|ops| - 1])
  }

  // ---- What the statements mean for the stored records ----

  ghost predicate InFts(fts: seq<FtsRow>, id: string) {
    exists k :: 0 <= k < |fts| && fts[k].recordId == id
  }

  /** The full-text index holds exactly one row for every stored record, carrying that record's text. */
  ghost predicate Indexed(t: Tables) {
    && (forall id :: id in t.rows ==> t.rows[id].record.recordId == id && InFts(t.fts, id))
    && (forall k :: 0 <= k < |t.fts| ==>
          t.fts[k].recordId in t.rows && t.fts[k] == FtsOf(t.rows[t.fts[k].recordId].record))
    && (forall j, k :: 0 <= j < k < |t.fts| ==> t.fts[j].recordId != t.fts[k].recordId)
  }

  /** A stored record is found in the full-text index under its id, with its own title, summary and facts. */
  lemma TextIsIndexed(t: Tables, id: string)
    requires Indexed(t) && id in t.rows
    ensures exists k :: 0 <= k < |t.fts| && t.fts[k].recordId == id
                        && t.fts[k].namespace == t.rows[id].record.namespace
                        && t.fts[k].title == t.rows[id].record.fields.title
                        && t.fts[k].summary == t.rows[id].record.fields.summary
                        && t.fts[k].factsText == Spaced(t.rows[id].record.fields.facts)
  {
    assert InFts(t.fts, id);
    var k :| 0 <= k < |t.fts| && t.fts[k].recordId == id;
  }

  lemma {:induction false} WithoutFtsMeaning(fts: seq<FtsRow>, id: string)
    requires forall j, k :: 0 <= j < k < |fts| ==> fts[j].recordId != fts[k].recordId
    ensures var r := WithoutFts(fts, id);
            && (forall x :: x in r <==> x in fts && x.recordId != id)
            && (forall j, k :: 0 <= j < k < |r| ==> r[j].recordId != r[k].recordId)
  {
    if fts == [] {
    } else {
      WithoutFtsMeaning(fts[1..], id);
      var rest := WithoutFts(fts[1..], id);
      var r := WithoutFts(fts, id);
      assert fts == [fts[0]] + fts[1..];
      forall k | 0 <= k < |rest| ensures rest[k].recordId != fts[0].recordId {
        assert rest[k] in rest;
      }
    }
  }

  lemma InsertKeepsIndexed(t: Tables, record: MemoryRecord)
    requires Indexed(t) && record.recordId !in t.rows
    ensures Indexed(Inserted(t, record).value)
  {
    hide Spaced;
    var u := Inserted(t, record).value;
    forall id | id in u.rows ensures InFts(u.fts, id) {
      if id == record.recordId {
        assert u.fts[|t.fts|].recordId == id;
      } else {
        var k :| 0 <= k < |t.fts| && t.fts[k].recordId == id;
        assert u.fts[k].recordId == id;
      }
    }
  }

  lemma DeletedRows(t: Tables, id: string)
    ensures Deleted(t, id).rows == t.rows - {id}
    ensures Deleted(t, id).fts == WithoutFts(t.fts, id)
  {
  }

  lemma KeptFtsRow(t: Tables, row: FtsRow)
    requires Indexed(t) && row in t.fts
    ensures row.recordId in t.rows && row == FtsOf(t.rows[row.recordId].record)
  {
    var j :| 0 <= j < |t.fts| && t.fts[j] == row;
  }

  lemma DeleteKeepsIndexed(t: Tables, id: string)
    requires Indexed(t)
    ensures Indexed(Deleted(t, id))
  {
    hide FtsOf, WithoutFts;
    WithoutFtsMeaning(t.fts, id);
    DeletedRows(t, id);
    var rows', fts' := t.rows - {id}, WithoutFts(t.fts, id);
    forall k | 0 <= k < |fts'| ensures fts'[k].recordId in rows' && fts'[k] == FtsOf(rows'[fts'[k].recordId].record) {
      assert fts'[k] in fts';
      KeptFtsRow(t, fts'[k]);
    }
    forall other | other in rows' ensures InFts(fts', other) {
      var j :| 0 <= j < |t.fts| && t.fts[j].recordId == other;
      assert t.fts[j] in fts';
      var k :| 0 <= k < |fts'| && fts'[k] == t.fts[j];
    }
  }

  lemma {:induction false} DeleteAllKeepsIndexed(t: Tables, ids: seq<string>)
    requires Indexed(t)
    ensures Indexed(DeletedAll(t, ids))
  {
    if ids == [] {
    } else {
      var n := |ids| - 1;
      DeleteAllKeepsIndexed(t, ids[..n]);
      DeleteKeepsIndexed(DeletedAll(t, ids[..n]), ids[n]);
    }
  }

  lemma {:induction false} DeletedAllRows(t: Tables, ids: seq<string>)
    ensures DeletedAll(t, ids).rows == t.rows - (set id | id in ids)
  {
    if ids == [] {
    } else {
      var n := |ids| - 1;
      DeletedAllRows(t, ids[..n]);
      DeletedRows(DeletedAll(t, ids[..n]), ids[n]);
      assert ids == ids[..n] + [ids[n]];
      assert (set id | id in ids) == (set id | id in ids[..n]) + {ids[n]};
    }
  }

  /** Every committed batch keeps the index in step with the rows. */
  lemma {:induction false} RunKeepsIndexed(t: Tables, ops: seq<Op>)
    requires Indexed(t) && Run(t, ops).Some?
    ensures Indexed(Run(t, ops).value)
  {
    if ops == [] {
    } else {
      var n := |ops| - 1;
      RunKeepsIndexed(t, ops[..n]);
      var u := Run(t, ops[..n]).value;
      match ops[n]
      case Put(record) => InsertKeepsIndexed(u, record);
      case Embed(id, vec) =>
        var v := Embedded(u, id, Some(vec));
        assert v.fts == u.fts;
        forall other | other in v.rows ensures InFts(v.fts, other) {
          assert other in u.rows;
        }
      case Delete(ids) => DeleteAllKeepsIndexed(u, ids);
    }
  }

  // ---- Evidence: the source events some stored record still vouches for ----

  ghost predicate Evident(rows: map<string, Row>, event: string) {
    exists id :: id in rows && event in rows[id].record.sourceEventIds
  }

  /** Every record ever committed keeps all its evidence somewhere in the store. */
  ghost predicate EvidenceKept(rows: map<string, Row>, ever: map<string, MemoryRecord>) {
    forall id, event :: id in ever && event in ever[id].sourceEventIds ==> Evident(rows, event)
  }

  /** Stored rows are among the records ever committed, unchanged. */
  ghost predicate FromHistory(rows: map<string, Row>, ever: map<string, MemoryRecord>) {
    forall id :: id in rows ==> id in ever && ever[id] == rows[id].record
  }

  /** The history after a committed batch. */
  ghost function Recorded(ever: map<string, MemoryRecord>, ops: seq<Op>): map<string, MemoryRecord> {
    if ops == [] then ever
    else
      var before := Recorded(ever, ops[..|ops| - 1]);
      match ops[|ops| - 1]
      case Put(record) => before[record.recordId := record]
      case _ => before
  }

  lemma {:induction false} RunKeepsHistory(t: Tables, ever: map<string, MemoryRecord>, ops: seq<Op>)
    requires Indexed(t) && FromHistory(t.rows, ever) && Run(t, ops).Some?
    ensures FromHistory(Run(t, ops).value.rows, Recorded(ever, ops))
  {
    if ops == [] {
    } else {
      var n := |ops| - 1;
      RunKeepsHistory(t, ever, ops[..n]);
      RunKeepsIndexed(t, ops[..n]);
      var u := Run(t, ops[..n]).value;
      match ops[n]
      case Delete(ids) => DeletedAllRows(u, ids);
      case _ =>
    }
  }

  class SqliteStorage {
    var rows: map<string, Row>
    var fts: seq<FtsRow>
    var closed: bool
    ghost var ever: map<string, MemoryRecord>

    ghost predicate Valid()
      reads this
    {
      Indexed(Tables(rows, fts)) && FromHistory(rows, ever)
    }

    constructor ()
      ensures Valid() && rows == map[] && fts == [] && ever == map[] && !closed
    {
      rows, fts, ever, closed := map[], [], map[], false;
    }

    method Close()
      modifies this`closed
      ensures closed
    {
      closed := true;
    }

    /**
     * All or nothing: a fault at any statement, or a thrown constraint error, undoes the whole batch. A fault past the
     * last statement strikes at the commit.
     */
    method WithTransaction(ops: seq<Op>, faultAt: Option<nat>) returns (ok: bool)
      requires Valid()
      modifies this`rows, this`fts, this`ever
      ensures Valid()
      ensures ok <==>
                !closed && Run(Tables(old(rows), old(fts)), ops).Some? && faultAt.None?
      ensures ok ==> Tables(rows, fts) == Run(Tables(old(rows), old(fts)), ops).value
      ensures ok ==> ever == Recorded(old(ever), ops)
      ensures !ok ==> rows == old(rows) && fts == old(fts) && ever == old(ever)
    {
      if closed { return false; }
      var savedRows, savedFts := rows, fts;
      ghost var t := Tables(rows, fts);
      var i := 0;
      while i < |ops|
        invariant 0 <= i <= |ops|
        invariant Run(t, ops[..i]) == Some(Tables(rows, fts))
        invariant ever == old(ever)
        invariant faultAt.Some? ==> faultAt.value >= i
      {
        assert ops[..i + 1][..i] == ops[..i];
        var done := Execute(ops[i]);
        if !done || faultAt == Some(i) {
          if !done {
            RunPrefixFails(t, ops, i + 1);
          }
          rows, fts := savedRows, savedFts;
          return false;
        }
        i := i + 1;
      }
      assert ops[..i] == ops;
      if faultAt.Some? {
        rows, fts := savedRows, savedFts;
        return false;
      }
      RunKeepsIndexed(t, ops);
      RunKeepsHistory(t, ever, ops);
      ever := Recorded(ever, ops);
      return true;
    }

    /** One statement of an open transaction. */
    method Execute(op: Op) returns (done: bool)
      modifies this`rows, this`fts
      ensures done <==> Step(Tables(old(rows), old(fts)), op).Some?
      ensures done ==> Tables(rows, fts) == Step(Tables(old(rows), old(fts)), op).value
    {
      match op {
      case Put(record) =>
        if record.recordId in rows { return false; }
        rows := rows[record.recordId := Row(record, None)];
        fts := fts + [FtsOf(record)];
      case Embed(id, vec) =>
        if id in rows {
          rows := rows[id := rows[id].(embedding := Some(vec))];
        }
      case Delete(ids) =>
        ghost var t := Tables(rows, fts);
        var k := 0;
        while k < |ids|
          invariant 0 <= k <= |ids|
          invariant Tables(rows, fts) == DeletedAll(t, ids[..k])
        {
          assert ids[..k + 1][..k] == ids[..k];
          DeleteOneRecord(ids[k]);
          k := k + 1;
        }
        assert ids[..k] == ids;
      }
      return true;
    }

    method DeleteOneRecord(id: string)
      modifies this`rows, this`fts
      ensures Tables(rows, fts) == Deleted(Tables(old(rows), old(fts)), id)
    {
      fts := WithoutFts(fts, id);
      if id in rows {
        rows := rows[id := rows[id].(embedding := None)];
      }
      rows := rows - {id};
    }

    /** A record outside a transaction: row and full-text row land together or not at all. */
    method PutMemoryRecord(record: MemoryRecord) returns (ok: bool)
      requires Valid()
      modifies this`rows, this`fts, this`ever
      ensures Valid()
      ensures ok <==> !closed && record.recordId !in old(rows)
      ensures ok ==> rows == old(rows)[record.recordId := Row(record, None)]
      ensures ok ==> ever == old(ever)[record.recordId := record]
      ensures !ok ==> rows == old(rows) && fts == old(fts) && ever == old(ever)
    {
      ok := WithTransaction([Put(record)], None);
    }
  }

  lemma {:induction false} RunPrefixFails(t: Tables, ops: seq<Op>, n: nat)
    requires n <= |ops| && Run(t, ops[..n]).None?
    ensures Run(t, ops).None?
    decreases |ops| - n
  {
    if n == |ops| {
      assert ops[..n] == ops;
    } else {
      assert ops[..n + 1][..n] == ops[..n];
      RunPrefixFails(t, ops, n + 1);
    }
  }
}
