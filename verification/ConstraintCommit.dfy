/** One transaction against the fact table: enforcement on the facts read back,
    then the operations written as rows, a pattern retracted through the query of
    the SQL adapter, and the journal; and what of it can be read back. */
module ConstraintCommit {
  import opened Facts
  import opened FactTable
  import opened Constraint
  import opened ConstraintEvaluation
  import opened ConstraintEnforcement
  import opened ConstraintSlice
  import A = SqlAdapters
  import S = SqlConditions

  // Reading back

  /** An empty file name is not kept. */
  function ReadBackValue(value: Value): Value {
    if value.BlobValue? && value.filename == Some("") then value.(filename := None) else value
  }

  /** Neither is an empty entity type. */
  function ReadBack(row: Row): Triple {
    Triple(row.id, row.entityId, row.attribute, ReadBackValue(row.value),
           if row.entityType == Some("") then None else row.entityType, row.validFrom, row.validTo)
  }

  /** Reading back keeps every column but an empty type and an empty file name. */
  lemma ReadBackKeeps(row: Row)
    ensures var f := ReadBack(row);
      && f.id == row.id && f.entityId == row.entityId && f.attribute == row.attribute
      && f.validFrom == row.validFrom && f.validTo == row.validTo
      && (f.entityType == row.entityType <==> row.entityType != Some(""))
      && (f.value == row.value <==> !(row.value.BlobValue? && row.value.filename == Some("")))
    ensures row.entityType != Some("") && !(row.value.BlobValue? && row.value.filename == Some("")) ==>
      ReadBack(row) == FactOf(row)
  {
  }

  /** The facts of the rows that are not retracted, in table order. */
  function LiveFacts(rows: seq<Row>): seq<Triple> {
    if rows == [] then []
    else
      var n := |rows| - 1;
      LiveFacts(rows[..n]) + if rows[n].retractedAt.None? then [ReadBack(rows[n])] else []
  }

  // Writing

  function TermOf(text: Option<string>): S.Term {
    if text.None? then S.Absent else S.Exactly(text.value)
  }

  function PatternOf(p: Pattern): S.QueryPattern {
    S.QueryPattern(TermOf(p.entityId), TermOf(p.attribute), p.entityType,
                   if p.value.None? then S.AnyValue else S.ExactlyValue(p.value.value))
  }

  /** The rows a pattern retraction finds; PostgreSQL compares blobs by hash. */
  predicate Selected(row: Row, p: Pattern, blobByHash: bool) {
    S.QueryMatches(row, PatternOf(p), None, blobByHash)
  }

  function SelectedBy(p: Pattern, blobByHash: bool): Row -> bool {
    (row: Row) => Selected(row, p, blobByHash)
  }

  function IdsOf(rows: seq<Row>): (ids: seq<string>)
    ensures |ids| == |rows| && forall i :: 0 <= i < |ids| ==> ids[i] == rows[i].id
  {
    seq(|rows|, i requires 0 <= i < |rows| => rows[i].id)
  }

  function SelectedIds(rows: seq<Row>, p: Pattern, blobByHash: bool): seq<string> {
    IdsOf(Filter(rows, SelectedBy(p, blobByHash)))
  }

  /** The rows that the statement of the dialect answers with, in table order. */
  method QueryRows(rows: seq<Row>, p: Pattern, blobByHash: bool) returns (selected: seq<Row>)
    requires Paired(rows)
    ensures selected == Filter(rows, SelectedBy(p, blobByHash))
  {
    var conditions: seq<S.Cond>;
    var params: seq<S.SqlValue>;
    if blobByHash {
      conditions, params := A.PgQuery(PatternOf(p), None);
    } else {
      conditions, params := A.SqliteQuery(PatternOf(p), None);
      conditions := S.BindAll(conditions, 1);
    }
    selected := [];
    for i := 0 to |rows|
      invariant selected == Filter(rows[..i], SelectedBy(p, blobByHash))
    {
      assert rows[..i + 1] == rows[..i] + [rows[i]];
      FilterNext(rows[..i], rows[i], SelectedBy(p, blobByHash));
      assert PairedRow(rows[i]);
      if S.Accepts(conditions, params, rows[i]) { selected := selected + [rows[i]]; }
    }
    assert rows[..|rows|] == rows;
  }

  function InputOf(op: Op): Input
    requires op.Assert?
  {
    Input(op.entityId, op.attribute, op.value, op.entityType, op.validFrom, op.validTo)
  }

  function Retractions(ids: seq<string>): (writes: seq<Write>)
    ensures |writes| == |ids| && forall i :: 0 <= i < |ids| ==> writes[i] == Write.Retract(ids[i])
  {
    seq(|ids|, i requires 0 <= i < |ids| => Write.Retract(ids[i]))
  }

  function OpRows(rows: seq<Row>, op: Op, id: string, instant: Instant, position: nat, blobByHash: bool): seq<Row> {
    match op
    case Assert(_, _, _, _, _, _) => rows + [NewRow(InputOf(op), id, instant, position)]
    case Retract(gone) => StampAll(rows, gone, instant, position)
    case RetractPattern(p) => ApplyWrites(rows, Retractions(SelectedIds(rows, p, blobByHash)), instant, position)
  }

  /** `txId`, `ids` and `journalIds` are the fresh ids the commit draws. */
  datatype Transaction = Transaction(
    txId: string,
    ops: seq<Op>,
    instant: Instant,
    ids: nat -> string,
    journal: seq<Input>,
    journalIds: nat -> string)

  /** The rows after the first `n` operations; each meets what the earlier ones left. */
  function RowsAfter(rows: seq<Row>, tx: Transaction, n: nat, position: nat, blobByHash: bool): seq<Row>
    requires n <= |tx.ops|
  {
    if n == 0 then rows
    else OpRows(RowsAfter(rows, tx, n - 1, position, blobByHash), tx.ops[n - 1], tx.ids(n - 1), tx.instant, position,
                blobByHash)
  }

  /** The primary key takes the ids drawn for the first `n` operations. */
  predicate OpsAccepted(rows: seq<Row>, tx: Transaction, n: nat, position: nat, blobByHash: bool)
    requires n <= |tx.ops|
  {
    n > 0 ==>
      && OpsAccepted(rows, tx, n - 1, position, blobByHash)
      && (tx.ops[n - 1].Assert? ==> !HasRow(RowsAfter(rows, tx, n - 1, position, blobByHash), tx.ids(n - 1)))
  }

  function JournalRows(rows: seq<Row>, tx: Transaction, n: nat, position: nat): seq<Row>
    requires n <= |tx.journal|
  {
    if n == 0 then rows
    else
      JournalRows(rows, tx, n - 1, position)
      + [NewRow(tx.journal[n - 1], tx.journalIds(n - 1), tx.instant, position)]
  }

  predicate JournalAccepted(rows: seq<Row>, tx: Transaction, n: nat, position: nat)
    requires n <= |tx.journal|
  {
    n > 0 ==>
      && JournalAccepted(rows, tx, n - 1, position)
      && !HasRow(JournalRows(rows, tx, n - 1, position), tx.journalIds(n - 1))
  }

  function WrittenRows(rows: seq<Row>, tx: Transaction, position: nat, blobByHash: bool): seq<Row> {
    RowsAfter(rows, tx, |tx.ops|, position, blobByHash)
  }

  /** The table takes every row the transaction inserts. */
  predicate Takes(s: State, tx: Transaction, blobByHash: bool) {
    && OpsAccepted(s.rows, tx, |tx.ops|, s.position + 1, blobByHash)
    && JournalAccepted(WrittenRows(s.rows, tx, s.position + 1, blobByHash), tx, |tx.journal|, s.position + 1)
  }

  function Committed(s: State, tx: Transaction, blobByHash: bool): State {
    State(JournalRows(WrittenRows(s.rows, tx, s.position + 1, blobByHash), tx, |tx.journal|, s.position + 1),
          s.position + 1)
  }

  // When an operation does to the table what it does in the projection

  predicate Plain(value: Value) {
    value.StringValue? || value.NumberValue? || value.BooleanValue? || value.DateTimeValue? || value.RefValue?
  }

  predicate SafePattern(p: Pattern) {
    && p.entityId != Some("") && p.attribute != Some("") && p.entityType != Some("")
    && (p.value.Some? ==> Plain(p.value.value))
  }

  predicate SafeOp(op: Op) {
    match op
    case Assert(_, _, value, entityType, _, _) =>
      entityType != Some("") && (value.BlobValue? ==> value.filename != Some(""))
    case Retract(_) => true
    case RetractPattern(p) => SafePattern(p)
  }

  predicate SafeOps(ops: seq<Op>) {
    forall i :: 0 <= i < |ops| ==> SafeOp(ops[i])
  }

  function OtherValue(value: Value): Value {
    match value
    case JsonValue(canonical) => JsonValue(canonical + "!")
    case BlobValue(hash, mimeType, size, filename) => BlobValue(hash, mimeType, size + 1, filename)
    case _ => value
  }

  function TextOr(text: Option<string>, other: string): string {
    if text.Some? && text.value != "" then text.value else other
  }

  /** A row the query finds for a pattern and, if it is not safe, the projection does not. */
  function Telling(p: Pattern): Row {
    Row("row", TextOr(p.entityId, "e"), TextOr(p.attribute, "a"),
        if p.value.Some? then OtherValue(p.value.value) else BooleanValue(true),
        if p.entityType == Some("") then None else p.entityType, 0, None, 0, 1, None, None)
  }

  lemma TellingIsSelected(p: Pattern, blobByHash: bool)
    ensures Selected(Telling(p), p, blobByHash)
    ensures !SafePattern(p) ==> !PatternMatches(ReadBack(Telling(p)), p)
  {
    if p.value.Some? && p.value.value.JsonValue? {
      assert |OtherValue(p.value.value).canonical| != |p.value.value.canonical|;
    }
  }

  lemma SafePatternAgrees(p: Pattern, row: Row, blobByHash: bool)
    requires SafePattern(p) && row.retractedAt.None?
    ensures Selected(row, p, blobByHash) <==> PatternMatches(ReadBack(row), p)
  {
  }

  // Retraction in the table is filtering of the facts

  lemma LiveFactsAppend(rows: seq<Row>, row: Row)
    ensures LiveFacts(rows + [row]) == LiveFacts(rows) + if row.retractedAt.None? then [ReadBack(row)] else []
  {
    assert (rows + [row])[..|rows|] == rows;
  }

  lemma {:induction false} LiveFactsAre(rows: seq<Row>, f: Triple)
    ensures f in LiveFacts(rows) <==> exists i :: 0 <= i < |rows| && rows[i].retractedAt.None? && ReadBack(rows[i]) == f
  {
    if rows != [] {
      LiveFactsAre(rows[..|rows| - 1], f);
      assert forall i | 0 <= i < |rows| - 1 :: rows[..|rows| - 1][i] == rows[i];
    }
  }

  lemma {:induction false} StampedLiveFacts(rows: seq<Row>, id: string, timestamp: Instant, position: nat,
                                            keep: Triple -> bool)
    requires forall f :: keep(f) <==> f.id != id
    ensures LiveFacts(StampAll(rows, id, timestamp, position)) == Filter(LiveFacts(rows), keep)
  {
    if rows != [] {
      var n := |rows| - 1;
      StampedLiveFacts(rows[..n], id, timestamp, position, keep);
      var last := Stamp(rows[n], id, timestamp, position);
      LiveFactsAppend(StampAll(rows[..n], id, timestamp, position), last);
      FilterAppend(LiveFacts(rows[..n]), if rows[n].retractedAt.None? then [ReadBack(rows[n])] else [], keep);
    }
  }

  lemma {:induction false} RetractedLiveFacts(rows: seq<Row>, ids: seq<string>, timestamp: Instant, position: nat,
                                              keep: Triple -> bool)
    requires forall f :: keep(f) <==> f.id !in ids
    ensures LiveFacts(ApplyWrites(rows, Retractions(ids), timestamp, position)) == Filter(LiveFacts(rows), keep)
  {
    if ids == [] {
      FilterAll(LiveFacts(rows), keep);
    } else {
      var n := |ids| - 1;
      var others := (f: Triple) => f.id !in ids[..n];
      var last := (f: Triple) => f.id != ids[n];
      RetractedLiveFacts(rows, ids[..n], timestamp, position, others);
      assert Retractions(ids)[..n] == Retractions(ids[..n]);
      StampedLiveFacts(ApplyWrites(rows, Retractions(ids[..n]), timestamp, position), ids[n], timestamp, position,
                       last);
      assert ids == ids[..n] + [ids[n]];
      FilterTwice(LiveFacts(rows), others, last, keep);
    }
  }

  lemma SelectedIdsAre(rows: seq<Row>, p: Pattern, blobByHash: bool, id: string)
    ensures id in SelectedIds(rows, p, blobByHash) <==>
            exists i :: 0 <= i < |rows| && rows[i].id == id && Selected(rows[i], p, blobByHash)
  {
    var found := Filter(rows, SelectedBy(p, blobByHash));
    if id in SelectedIds(rows, p, blobByHash) {
      var k :| 0 <= k < |found| && IdsOf(found)[k] == id;
      assert found[k] in found;
    }
    if i :| 0 <= i < |rows| && rows[i].id == id && Selected(rows[i], p, blobByHash) {
      assert rows[i] in found;
      var k :| 0 <= k < |found| && found[k] == rows[i];
      assert IdsOf(found)[k] == id;
    }
  }

  lemma SelectedByFact(rows: seq<Row>, p: Pattern, blobByHash: bool, f: Triple)
    requires DistinctRows(rows) && SafePattern(p) && f in LiveFacts(rows)
    ensures f.id in SelectedIds(rows, p, blobByHash) <==> PatternMatches(f, p)
  {
    LiveFactsAre(rows, f);
    var i :| 0 <= i < |rows| && rows[i].retractedAt.None? && ReadBack(rows[i]) == f;
    SelectedIdsAre(rows, p, blobByHash, f.id);
    SafePatternAgrees(p, rows[i], blobByHash);
  }

  // One operation

  ghost predicate Agrees(rows: seq<Row>, op: Op, id: string, instant: Instant, position: nat, blobByHash: bool) {
    LiveFacts(OpRows(rows, op, id, instant, position, blobByHash)) == ApplyOp(LiveFacts(rows), op, id, instant)
  }

  lemma OneWrite(rows: seq<Row>, write: Write, timestamp: Instant, position: nat)
    ensures ApplyWrites(rows, [write], timestamp, position) == ApplyWrite(rows, write, timestamp, position)
  {
    assert [write][..0] == [];
  }

  lemma SafeOpAgrees(rows: seq<Row>, op: Op, id: string, instant: Instant, position: nat, blobByHash: bool)
    requires DistinctRows(rows) && SafeOp(op)
    ensures Agrees(rows, op, id, instant, position, blobByHash)
  {
    match op
    case Assert(_, _, _, _, _, _) =>
      LiveFactsAppend(rows, NewRow(InputOf(op), id, instant, position));
    case Retract(gone) =>
      StampedLiveFacts(rows, gone, instant, position, (f: Triple) => f.id != gone);
    case RetractPattern(p) =>
      var ids := SelectedIds(rows, p, blobByHash);
      var unselected := (f: Triple) => f.id !in ids;
      RetractedLiveFacts(rows, ids, instant, position, unselected);
      forall f | f in LiveFacts(rows) ensures f.id in ids <==> PatternMatches(f, p) {
        SelectedByFact(rows, p, blobByHash, f);
      }
      FilterSamePredicate(LiveFacts(rows), unselected, (f: Triple) => !PatternMatches(f, p));
  }

  lemma UnsafeAssertDisagrees(op: Op, id: string, instant: Instant, position: nat, blobByHash: bool)
    requires op.Assert? && !SafeOp(op)
    ensures !Agrees([], op, id, instant, position, blobByHash)
  {
    var row := NewRow(InputOf(op), id, instant, position);
    LiveFactsAppend([], row);
    assert ReadBack(row) != NewFact(op, id, instant);
    assert LiveFacts([] + [row])[0] != ApplyOp(LiveFacts([]), op, id, instant)[0];
  }

  lemma UnsafePatternDisagrees(p: Pattern, id: string, instant: Instant, position: nat, blobByHash: bool)
    requires !SafePattern(p)
    ensures !Agrees([Telling(p)], RetractPattern(p), id, instant, position, blobByHash)
  {
    var row := Telling(p);
    TellingIsSelected(p, blobByHash);
    LiveFactsAppend([], row);
    assert [] + [row] == [row] && LiveFacts([row]) == [ReadBack(row)];
    SelectedIdsAre([row], p, blobByHash, row.id);
    var ids := SelectedIds([row], p, blobByHash);
    RetractedLiveFacts([row], ids, instant, position, (f: Triple) => f.id !in ids);
    FilterNone([ReadBack(row)], (f: Triple) => f.id !in ids);
    FilterAll([ReadBack(row)], (f: Triple) => !PatternMatches(f, p));
    assert |ApplyOp(LiveFacts([row]), RetractPattern(p), id, instant)| == 1;
  }

  lemma UnsafeOpDisagrees(op: Op, id: string, instant: Instant, position: nat, blobByHash: bool)
    returns (rows: seq<Row>)
    requires !SafeOp(op)
    ensures DistinctRows(rows) && !Agrees(rows, op, id, instant, position, blobByHash)
  {
    if op.Assert? {
      rows := [];
      UnsafeAssertDisagrees(op, id, instant, position, blobByHash);
    } else {
      rows := [Telling(op.pattern)];
      UnsafePatternDisagrees(op.pattern, id, instant, position, blobByHash);
    }
  }

  ghost predicate AgreesOnAll(op: Op, id: string, instant: Instant, position: nat, blobByHash: bool) {
    forall rows: seq<Row> :: DistinctRows(rows) ==> Agrees(rows, op, id, instant, position, blobByHash)
  }

  /** An operation does to every table what it does in the projection, read back,
      just when its texts are not empty and its pattern asks for a plain value. */
  lemma OperationAgreesIff(op: Op, id: string, instant: Instant, position: nat, blobByHash: bool)
    ensures AgreesOnAll(op, id, instant, position, blobByHash) <==> SafeOp(op)
  {
    if SafeOp(op) {
      forall rows: seq<Row> ensures DistinctRows(rows) ==> Agrees(rows, op, id, instant, position, blobByHash) {
        if DistinctRows(rows) { SafeOpAgrees(rows, op, id, instant, position, blobByHash); }
      }
    } else {
      var rows := UnsafeOpDisagrees(op, id, instant, position, blobByHash);
      assert DistinctRows(rows) && !Agrees(rows, op, id, instant, position, blobByHash);
    }
  }

  // All operations of a transaction

  lemma ShapeIsDistinct(s: State)
    requires WellFormed(s)
    ensures DistinctRows(s.rows) && Paired(s.rows)
  {
    WellFormedPaired(s);
  }

  lemma OpKeepsShape(rows: seq<Row>, op: Op, id: string, instant: Instant, position: nat, blobByHash: bool)
    requires position >= 1 && WellFormed(State(rows, position)) && (op.Assert? ==> !HasRow(rows, id))
    ensures WellFormed(State(OpRows(rows, op, id, instant, position, blobByHash), position))
  {
    match op
    case Assert(_, _, _, _, _, _) => WriteKeepsShape(rows, Write.Insert(InputOf(op), id), instant, position);
    case Retract(gone) => WriteKeepsShape(rows, Write.Retract(gone), instant, position);
    case RetractPattern(p) => WritesKeepShape(rows, Retractions(SelectedIds(rows, p, blobByHash)), instant, position);
  }

  lemma {:induction false} OpsKeepShape(rows: seq<Row>, tx: Transaction, n: nat, position: nat, blobByHash: bool)
    requires position >= 1 && WellFormed(State(rows, position)) && n <= |tx.ops|
             && OpsAccepted(rows, tx, n, position, blobByHash)
    ensures WellFormed(State(RowsAfter(rows, tx, n, position, blobByHash), position))
  {
    if n > 0 {
      OpsKeepShape(rows, tx, n - 1, position, blobByHash);
      OpKeepsShape(RowsAfter(rows, tx, n - 1, position, blobByHash), tx.ops[n - 1], tx.ids(n - 1), tx.instant,
                   position, blobByHash);
    }
  }

  lemma {:induction false} JournalKeepsShape(rows: seq<Row>, tx: Transaction, n: nat, position: nat)
    requires position >= 1 && WellFormed(State(rows, position)) && n <= |tx.journal|
             && JournalAccepted(rows, tx, n, position)
    ensures WellFormed(State(JournalRows(rows, tx, n, position), position))
  {
    if n > 0 {
      JournalKeepsShape(rows, tx, n - 1, position);
      WriteKeepsShape(JournalRows(rows, tx, n - 1, position), Write.Insert(tx.journal[n - 1], tx.journalIds(n - 1)),
                      tx.instant, position);
    }
  }

  lemma NextPosition(s: State)
    requires WellFormed(s)
    ensures WellFormed(State(s.rows, s.position + 1))
  {
    forall i | 0 <= i < |s.rows| ensures RowFits(s.rows[i], s.position + 1) {
      assert RowFits(s.rows[i], s.position);
    }
  }

  lemma CommitKeepsTable(s: State, tx: Transaction, blobByHash: bool)
    requires WellFormed(s) && Takes(s, tx, blobByHash)
    ensures WellFormed(Committed(s, tx, blobByHash))
  {
    NextPosition(s);
    OpsKeepShape(s.rows, tx, |tx.ops|, s.position + 1, blobByHash);
    JournalKeepsShape(WrittenRows(s.rows, tx, s.position + 1, blobByHash), tx, |tx.journal|, s.position + 1);
  }

  lemma NextApplied(facts: seq<Triple>, ops: seq<Op>, n: nat, instant: Instant, name: nat -> string)
    requires n < |ops|
    ensures ApplyOps(facts, ops[..n + 1], instant, name)
            == ApplyOp(ApplyOps(facts, ops[..n], instant, name), ops[n], name(n), instant)
  {
    assert ops[..n + 1][..n] == ops[..n];
  }

  /** What safe operations leave in the table, read back, is what they leave in the
      projection, with the ids the commit draws. */
  lemma {:induction false} OperationsLiveFacts(rows: seq<Row>, tx: Transaction, n: nat, position: nat, blobByHash: bool)
    requires position >= 1 && WellFormed(State(rows, position)) && SafeOps(tx.ops)
    requires n <= |tx.ops| && OpsAccepted(rows, tx, n, position, blobByHash)
    ensures LiveFacts(RowsAfter(rows, tx, n, position, blobByHash))
            == ApplyOps(LiveFacts(rows), tx.ops[..n], tx.instant, tx.ids)
  {
    if n > 0 {
      var before := RowsAfter(rows, tx, n - 1, position, blobByHash);
      OperationsLiveFacts(rows, tx, n - 1, position, blobByHash);
      OpsKeepShape(rows, tx, n - 1, position, blobByHash);
      ShapeIsDistinct(State(before, position));
      SafeOpAgrees(before, tx.ops[n - 1], tx.ids(n - 1), tx.instant, position, blobByHash);
      NextApplied(LiveFacts(rows), tx.ops, n - 1, tx.instant, tx.ids);
    }
  }

  // The journal

  const TRANSACTION_TYPE := "_Transaction"

  /** Journal facts describe the transaction itself. */
  predicate Journals(tx: Transaction) {
    forall i :: 0 <= i < |tx.journal| ==>
      && tx.journal[i].entityId == tx.txId && tx.journal[i].entityType == Some(TRANSACTION_TYPE)
      && !tx.journal[i].value.SealedValue?
  }

  function JournalFacts(tx: Transaction, n: nat, position: nat): seq<Triple>
    requires n <= |tx.journal|
  {
    if n == 0 then []
    else
      JournalFacts(tx, n - 1, position)
      + [ReadBack(NewRow(tx.journal[n - 1], tx.journalIds(n - 1), tx.instant, position))]
  }

  lemma {:induction false} JournalLiveFacts(rows: seq<Row>, tx: Transaction, n: nat, position: nat)
    requires n <= |tx.journal|
    ensures LiveFacts(JournalRows(rows, tx, n, position)) == LiveFacts(rows) + JournalFacts(tx, n, position)
  {
    if n == 0 {
      assert LiveFacts(rows) + [] == LiveFacts(rows);
    } else {
      JournalLiveFacts(rows, tx, n - 1, position);
      LiveFactsAppend(JournalRows(rows, tx, n - 1, position),
                      NewRow(tx.journal[n - 1], tx.journalIds(n - 1), tx.instant, position));
    }
  }

  lemma WrittenLiveFacts(s: State, tx: Transaction, blobByHash: bool)
    requires WellFormed(s) && SafeOps(tx.ops) && OpsAccepted(s.rows, tx, |tx.ops|, s.position + 1, blobByHash)
    ensures LiveFacts(WrittenRows(s.rows, tx, s.position + 1, blobByHash))
            == ApplyOps(LiveFacts(s.rows), tx.ops, tx.instant, tx.ids)
  {
    NextPosition(s);
    OperationsLiveFacts(s.rows, tx, |tx.ops|, s.position + 1, blobByHash);
    assert tx.ops[..|tx.ops|] == tx.ops;
  }

  lemma JournaledLiveFacts(s: State, tx: Transaction, blobByHash: bool, written: seq<Triple>)
    requires written == LiveFacts(WrittenRows(s.rows, tx, s.position + 1, blobByHash))
    ensures LiveFacts(Committed(s, tx, blobByHash).rows) == written + JournalFacts(tx, |tx.journal|, s.position + 1)
  {
    JournalLiveFacts(WrittenRows(s.rows, tx, s.position + 1, blobByHash), tx, |tx.journal|, s.position + 1);
  }

  /** The facts after a commit: those of the operations, then the journal's. */
  lemma CommittedLiveFacts(s: State, tx: Transaction, blobByHash: bool)
    requires WellFormed(s) && SafeOps(tx.ops) && Takes(s, tx, blobByHash)
    ensures LiveFacts(Committed(s, tx, blobByHash).rows)
            == ApplyOps(LiveFacts(s.rows), tx.ops, tx.instant, tx.ids) + JournalFacts(tx, |tx.journal|, s.position + 1)
  {
    WrittenLiveFacts(s, tx, blobByHash);
    JournaledLiveFacts(s, tx, blobByHash, ApplyOps(LiveFacts(s.rows), tx.ops, tx.instant, tx.ids));
  }

  // A transaction is one commit of the table

  function OpWrites(rows: seq<Row>, op: Op, id: string, blobByHash: bool): seq<Write> {
    match op
    case Assert(_, _, _, _, _, _) => [Write.Insert(InputOf(op), id)]
    case Retract(gone) => [Write.Retract(gone)]
    case RetractPattern(p) => Retractions(SelectedIds(rows, p, blobByHash))
  }

  ghost predicate Writes(rows: seq<Row>, writes: seq<Write>, after: seq<Row>, accepted: bool, instant: Instant,
                         position: nat) {
    ApplyWrites(rows, writes, instant, position) == after && (Fits(rows, writes) <==> accepted)
  }

  lemma WritesInTurn(rows: seq<Row>, a: seq<Write>, middle: seq<Row>, acceptedA: bool, b: seq<Write>, after: seq<Row>,
                     acceptedB: bool, instant: Instant, position: nat)
    requires Writes(rows, a, middle, acceptedA, instant, position)
             && Writes(middle, b, after, acceptedB, instant, position)
    ensures Writes(rows, a + b, after, acceptedA && acceptedB, instant, position)
  {
    var all := a + b;
    assert all[..|a|] == a && all[|a|..] == b && all[..|all|] == all && all[..0] == [];
    ApplyInTwo(rows, a, b, instant, position);
    FitsInChunks(rows, all, 0, |a|, instant, position);
    if Fits(rows, a) { FitsInChunks(rows, all, |a|, |all|, instant, position); }
  }

  lemma OneWriteIs(rows: seq<Row>, write: Write, instant: Instant, position: nat)
    ensures Writes(rows, [write], ApplyWrite(rows, write, instant, position),
                   write.Insert? ==> !HasRow(rows, write.id), instant, position)
  {
    OneWrite(rows, write, instant, position);
    assert [write][..0] == [] && [write][..1] == [write];
    FitsOneMore(rows, [write], 0, instant, position);
  }

  lemma OpWritesAre(rows: seq<Row>, op: Op, id: string, instant: Instant, position: nat, blobByHash: bool)
    ensures Writes(rows, OpWrites(rows, op, id, blobByHash), OpRows(rows, op, id, instant, position, blobByHash),
                   op.Assert? ==> !HasRow(rows, id), instant, position)
  {
    match op
    case Assert(_, _, _, _, _, _) => OneWriteIs(rows, Write.Insert(InputOf(op), id), instant, position);
    case Retract(gone) => OneWriteIs(rows, Write.Retract(gone), instant, position);
    case RetractPattern(p) =>
  }

  lemma {:induction false} OpsWrites(rows: seq<Row>, tx: Transaction, n: nat, position: nat, blobByHash: bool)
    returns (writes: seq<Write>)
    requires n <= |tx.ops|
    ensures Writes(rows, writes, RowsAfter(rows, tx, n, position, blobByHash),
                   OpsAccepted(rows, tx, n, position, blobByHash),
                   tx.instant, position)
  {
    writes := [];
    if n > 0 {
      var before := RowsAfter(rows, tx, n - 1, position, blobByHash);
      var op, id := tx.ops[n - 1], tx.ids(n - 1);
      var earlier := OpsWrites(rows, tx, n - 1, position, blobByHash);
      OpWritesAre(before, op, id, tx.instant, position, blobByHash);
      writes := earlier + OpWrites(before, op, id, blobByHash);
      WritesInTurn(rows, earlier, before, OpsAccepted(rows, tx, n - 1, position, blobByHash),
                   OpWrites(before, op, id, blobByHash),
                   RowsAfter(rows, tx, n, position, blobByHash), op.Assert? ==> !HasRow(before, id), tx.instant,
                   position);
    }
  }

  lemma {:induction false} JournalWrites(rows: seq<Row>, tx: Transaction, n: nat, position: nat)
    returns (writes: seq<Write>)
    requires n <= |tx.journal|
    ensures Writes(rows, writes, JournalRows(rows, tx, n, position), JournalAccepted(rows, tx, n, position),
                   tx.instant, position)
  {
    writes := [];
    if n > 0 {
      var before := JournalRows(rows, tx, n - 1, position);
      var last := Write.Insert(tx.journal[n - 1], tx.journalIds(n - 1));
      var earlier := JournalWrites(rows, tx, n - 1, position);
      OneWriteIs(before, last, tx.instant, position);
      writes := earlier + [last];
      WritesInTurn(rows, earlier, before, JournalAccepted(rows, tx, n - 1, position), [last],
                   JournalRows(rows, tx, n, position), !HasRow(before, last.id), tx.instant, position);
    }
  }

  lemma AllWrites(rows: seq<Row>, tx: Transaction, position: nat, blobByHash: bool, middle: seq<Row>)
    returns (writes: seq<Write>)
    requires middle == RowsAfter(rows, tx, |tx.ops|, position, blobByHash)
    ensures Writes(rows, writes, JournalRows(middle, tx, |tx.journal|, position),
                   OpsAccepted(rows, tx, |tx.ops|, position, blobByHash)
                   && JournalAccepted(middle, tx, |tx.journal|, position), tx.instant, position)
  {
    var a := OpsWrites(rows, tx, |tx.ops|, position, blobByHash);
    var b := JournalWrites(middle, tx, |tx.journal|, position);
    var acceptedA := OpsAccepted(rows, tx, |tx.ops|, position, blobByHash);
    var acceptedB := JournalAccepted(middle, tx, |tx.journal|, position);
    WritesInTurn(rows, a, middle, acceptedA, b, JournalRows(middle, tx, |tx.journal|, position), acceptedB, tx.instant,
                 position);
    writes := a + b;
  }

  lemma TransactionWrites(s: State, tx: Transaction, blobByHash: bool) returns (writes: seq<Write>)
    ensures Writes(s.rows, writes, Committed(s, tx, blobByHash).rows, Takes(s, tx, blobByHash), tx.instant,
                   s.position + 1)
  {
    writes := AllWrites(s.rows, tx, s.position + 1, blobByHash, WrittenRows(s.rows, tx, s.position + 1, blobByHash));
  }

  /** A transaction is one commit to the fact table. */
  lemma TransactionIsCommit(s: State, tx: Transaction, blobByHash: bool) returns (c: Commit)
    ensures c.timestamp == tx.instant
    ensures Committed(s, tx, blobByHash) == CommitTo(s, c)
    ensures Takes(s, tx, blobByHash) <==> Fits(s.rows, c.writes)
  {
    var writes := TransactionWrites(s, tx, blobByHash);
    c := Commit(writes, tx.instant);
  }
}
