/** The transaction as the store runs it: take a position, enforce, write batch by
    batch, journal, and roll everything back if something fails. */
module ConstraintTransact {
  import opened Facts
  import opened FactTable
  import opened Constraint
  import opened ConstraintEvaluation
  import opened ConstraintEnforcement
  import opened ConstraintSlice
  import opened ConstraintCommit
  import opened ConstraintLoad

  // Runs of assertions

  function InputsOf(ops: seq<Op>): (inputs: seq<Input>)
    requires forall i :: 0 <= i < |ops| ==> ops[i].Assert?
    ensures |inputs| == |ops| && forall i :: 0 <= i < |ops| ==> inputs[i] == InputOf(ops[i])
  {
    seq(|ops|, i requires 0 <= i < |ops| => InputOf(ops[i]))
  }

  function Drawn(ids: nat -> string, start: nat, count: nat): (r: seq<string>)
    ensures |r| == count && forall i :: 0 <= i < count ==> r[i] == ids(start + i)
  {
    seq(count, i requires 0 <= i < count => ids(start + i))
  }

  predicate OnlyAsserts(tx: Transaction, start: nat, stop: nat) {
    start <= stop <= |tx.ops| && forall k :: start <= k < stop ==> tx.ops[k].Assert?
  }

  /** What a run of assertions inserts. */
  function RunInserts(tx: Transaction, start: nat, stop: nat): seq<Write>
    requires OnlyAsserts(tx, start, stop)
  {
    Inserts(InputsOf(tx.ops[start..stop]), Drawn(tx.ids, start, stop - start))
  }

  lemma RunInsertsNext(tx: Transaction, start: nat, stop: nat)
    requires start < stop && OnlyAsserts(tx, start, stop)
    ensures RunInserts(tx, start, stop)
            == RunInserts(tx, start, stop - 1) + [Write.Insert(InputOf(tx.ops[stop - 1]), tx.ids(stop - 1))]
  {
  }

  ghost predicate RunWritten(rows: seq<Row>, tx: Transaction, start: nat, stop: nat, position: nat, blobByHash: bool)
    requires OnlyAsserts(tx, start, stop)
  {
    Writes(RowsAfter(rows, tx, start, position, blobByHash), RunInserts(tx, start, stop),
           RowsAfter(rows, tx, stop, position, blobByHash), OpsAccepted(rows, tx, stop, position, blobByHash),
           tx.instant, position)
  }

  lemma RunWritesNext(rows: seq<Row>, tx: Transaction, start: nat, stop: nat, position: nat, blobByHash: bool)
    requires start < stop && OnlyAsserts(tx, start, stop) && RunWritten(rows, tx, start, stop - 1, position, blobByHash)
    ensures RunWritten(rows, tx, start, stop, position, blobByHash)
  {
    var middle := RowsAfter(rows, tx, stop - 1, position, blobByHash);
    var last := Write.Insert(InputOf(tx.ops[stop - 1]), tx.ids(stop - 1));
    RunInsertsNext(tx, start, stop);
    OneWriteIs(middle, last, tx.instant, position);
    WritesInTurn(RowsAfter(rows, tx, start, position, blobByHash), RunInserts(tx, start, stop - 1), middle,
                 OpsAccepted(rows, tx, stop - 1, position, blobByHash), [last],
                 RowsAfter(rows, tx, stop, position, blobByHash),
                 !HasRow(middle, last.id), tx.instant, position);
  }

  lemma NoRunWrites(rows: seq<Row>, tx: Transaction, start: nat, position: nat, blobByHash: bool)
    requires OnlyAsserts(tx, start, start) && OpsAccepted(rows, tx, start, position, blobByHash)
    ensures RunWritten(rows, tx, start, start, position, blobByHash)
  {
    assert RunInserts(tx, start, start) == [];
  }

  lemma {:induction false} RunWrites(rows: seq<Row>, tx: Transaction, start: nat, stop: nat, position: nat,
                                     blobByHash: bool)
    requires OnlyAsserts(tx, start, stop) && OpsAccepted(rows, tx, start, position, blobByHash)
    ensures RunWritten(rows, tx, start, stop, position, blobByHash)
    decreases stop
  {
    if start < stop {
      RunWrites(rows, tx, start, stop - 1, position, blobByHash);
      RunWritesNext(rows, tx, start, stop, position, blobByHash);
    } else {
      NoRunWrites(rows, tx, start, position, blobByHash);
    }
  }

  lemma {:induction false} AcceptedBefore(rows: seq<Row>, tx: Transaction, n: nat, m: nat, position: nat,
                                          blobByHash: bool)
    requires n <= m <= |tx.ops| && OpsAccepted(rows, tx, m, position, blobByHash)
    ensures OpsAccepted(rows, tx, n, position, blobByHash)
    decreases m
  {
    if n < m { AcceptedBefore(rows, tx, n, m - 1, position, blobByHash); }
  }

  // Writing

  /** Consecutive assertions are inserted together, a single one on its own. */
  method FlushAsserts(table: Table, inputs: seq<Input>, ids: seq<string>, instant: Instant, at: nat) returns (ok: bool)
    requires |ids| == |inputs|
    modifies table`rows
    ensures ok <==> Fits(old(table.rows), Inserts(inputs, ids))
    ensures table.rows
            == if ok then ApplyWrites(old(table.rows), Inserts(inputs, ids), instant, at) else old(table.rows)
  {
    if |inputs| == 1 {
      ghost var write := Write.Insert(inputs[0], ids[0]);
      assert Inserts(inputs, ids) == [write];
      OneWriteIs(table.rows, write, instant, at);
      ok := table.Insert(inputs[0], instant, ids[0], at);
    } else {
      ok := table.BatchInsert(inputs, instant, ids, at);
    }
  }

  method RetractAll(table: Table, ids: seq<string>, instant: Instant, at: nat)
    modifies table`rows
    ensures table.rows == ApplyWrites(old(table.rows), Retractions(ids), instant, at)
  {
    ghost var writes := Retractions(ids);
    for i := 0 to |ids|
      invariant table.rows == ApplyWrites(old(table.rows), writes[..i], instant, at)
    {
      assert writes[..i + 1][..i] == writes[..i];
      var _ := table.Retract(ids[i], instant, at);
    }
    assert writes[..|ids|] == writes;
  }

  method WriteRetraction(table: Table, op: Op, ghost id: string, instant: Instant, at: nat, blobByHash: bool)
    requires !op.Assert? && Paired(table.rows)
    modifies table`rows
    ensures table.rows == OpRows(old(table.rows), op, id, instant, at, blobByHash)
  {
    match op {
      case Retract(gone) =>
        var _ := table.Retract(gone, instant, at);
      case RetractPattern(p) =>
        var selected := QueryRows(table.rows, p, blobByHash);
        RetractAll(table, IdsOf(selected), instant, at);
    }
  }

  /** The first `n` operations are in the table. */
  ghost predicate WrittenUpTo(now: seq<Row>, rows: seq<Row>, tx: Transaction, n: nat, at: nat, blobByHash: bool) {
    n <= |tx.ops| && now == RowsAfter(rows, tx, n, at, blobByHash) && OpsAccepted(rows, tx, n, at, blobByHash)
  }

  /** Flushes the assertions from `start` up to `stop`. */
  method FlushRun(table: Table, tx: Transaction, start: nat, stop: nat, at: nat, ghost rows: seq<Row>,
                  ghost blobByHash: bool)
    returns (ok: bool)
    requires OnlyAsserts(tx, start, stop) && WrittenUpTo(table.rows, rows, tx, start, at, blobByHash)
    modifies table`rows
    ensures ok ==> WrittenUpTo(table.rows, rows, tx, stop, at, blobByHash)
    ensures !ok ==> !OpsAccepted(rows, tx, |tx.ops|, at, blobByHash)
  {
    RunWrites(rows, tx, start, stop, at, blobByHash);
    ok := FlushAsserts(table, InputsOf(tx.ops[start..stop]), Drawn(tx.ids, start, stop - start), tx.instant, at);
    if !ok && OpsAccepted(rows, tx, |tx.ops|, at, blobByHash) {
      AcceptedBefore(rows, tx, stop, |tx.ops|, at, blobByHash);
    }
  }

  /** Flushes the assertions from `start` on, then does the retraction after them. */
  method FlushAndRetract(table: Table, tx: Transaction, start: nat, i: nat, at: nat, ghost rows: seq<Row>,
                         blobByHash: bool)
    returns (ok: bool)
    requires at >= 1 && WellFormed(State(rows, at))
    requires OnlyAsserts(tx, start, i) && i < |tx.ops| && !tx.ops[i].Assert?
    requires WrittenUpTo(table.rows, rows, tx, start, at, blobByHash)
    modifies table`rows
    ensures ok ==> WrittenUpTo(table.rows, rows, tx, i + 1, at, blobByHash)
    ensures !ok ==> !OpsAccepted(rows, tx, |tx.ops|, at, blobByHash)
  {
    ok := FlushRun(table, tx, start, i, at, rows, blobByHash);
    if ok {
      OpsKeepShape(rows, tx, i, at, blobByHash);
      ShapeIsDistinct(State(table.rows, at));
      WriteRetraction(table, tx.ops[i], tx.ids(i), tx.instant, at, blobByHash);
    }
  }

  /** The operations before `start` are in the table; those from there up to `i`
      are assertions not yet inserted. */
  ghost predicate Progress(now: seq<Row>, rows: seq<Row>, tx: Transaction, start: nat, i: nat, at: nat,
                           blobByHash: bool) {
    OnlyAsserts(tx, start, i) && WrittenUpTo(now, rows, tx, start, at, blobByHash)
  }

  lemma NoneWritten(rows: seq<Row>, tx: Transaction, at: nat, blobByHash: bool)
    ensures Progress(rows, rows, tx, 0, 0, at, blobByHash)
  {
  }

  method WriteOne(table: Table, tx: Transaction, start: nat, i: nat, at: nat, ghost rows: seq<Row>, blobByHash: bool)
    returns (ok: bool, next: nat)
    requires at >= 1 && WellFormed(State(rows, at)) && i < |tx.ops|
    requires Progress(table.rows, rows, tx, start, i, at, blobByHash)
    modifies table`rows
    ensures ok ==> Progress(table.rows, rows, tx, next, i + 1, at, blobByHash)
    ensures !ok ==> !OpsAccepted(rows, tx, |tx.ops|, at, blobByHash)
  {
    if tx.ops[i].Assert? {
      return true, start;
    }
    ok := FlushAndRetract(table, tx, start, i, at, rows, blobByHash);
    next := i + 1;
  }

  /** Fails exactly when the primary key refuses one of the drawn ids. */
  method WriteOperations(table: Table, tx: Transaction, at: nat, blobByHash: bool) returns (ok: bool)
    requires at >= 1 && WellFormed(State(table.rows, at))
    modifies table`rows
    ensures ok ==> WrittenUpTo(table.rows, old(table.rows), tx, |tx.ops|, at, blobByHash)
    ensures !ok ==> !OpsAccepted(old(table.rows), tx, |tx.ops|, at, blobByHash)
  {
    ghost var rows := table.rows;
    var start := 0;
    NoneWritten(rows, tx, at, blobByHash);
    for i := 0 to |tx.ops|
      invariant Progress(table.rows, rows, tx, start, i, at, blobByHash)
    {
      ok, start := WriteOne(table, tx, start, i, at, rows, blobByHash);
      if !ok { return; }
    }
    ok := FlushRun(table, tx, start, |tx.ops|, at, rows, blobByHash);
  }

  method WriteJournal(table: Table, tx: Transaction, at: nat) returns (ok: bool)
    modifies table`rows
    ensures ok <==> JournalAccepted(old(table.rows), tx, |tx.journal|, at)
    ensures ok ==> table.rows == JournalRows(old(table.rows), tx, |tx.journal|, at)
  {
    ghost var rows := table.rows;
    for i := 0 to |tx.journal|
      invariant table.rows == JournalRows(rows, tx, i, at) && JournalAccepted(rows, tx, i, at)
    {
      ok := table.Insert(tx.journal[i], tx.instant, tx.journalIds(i), at);
      if !ok {
        JournalRefused(rows, tx, i, |tx.journal|, at);
        return;
      }
    }
    ok := true;
  }

  lemma {:induction false} JournalRefused(rows: seq<Row>, tx: Transaction, i: nat, n: nat, at: nat)
    requires i < n <= |tx.journal| && HasRow(JournalRows(rows, tx, i, at), tx.journalIds(i))
    ensures !JournalAccepted(rows, tx, n, at)
    decreases n
  {
    if i < n - 1 { JournalRefused(rows, tx, i, n - 1, at); }
  }

  // The transaction

  datatype Outcome = Done | Rejected(violations: seq<ViolationAt>) | WriteFailed

  lemma {:induction false} LiveFactsDistinct(rows: seq<Row>)
    requires DistinctRows(rows)
    ensures DistinctIds(LiveFacts(rows))
  {
    if rows != [] {
      var n := |rows| - 1;
      LiveFactsDistinct(rows[..n]);
      var earlier := LiveFacts(rows[..n]);
      forall i | 0 <= i < |earlier| ensures earlier[i].id != rows[n].id {
        assert earlier[i] in earlier;
        LiveFactsAre(rows[..n], earlier[i]);
        var j :| 0 <= j < n && rows[..n][j].retractedAt.None? && ReadBack(rows[..n][j]) == earlier[i];
        assert rows[..n][j] == rows[j];
      }
    }
  }

  ghost predicate Admits(rows: seq<Row>, tx: Transaction, rules: Option<seq<Rule>>) {
    rules.Some? ==> NoWorse(LiveFacts(rows), Projection(LiveFacts(rows), tx.ops, tx.instant), rules.value)
  }

  /** Without rules nothing is checked. */
  method Check(rules: Option<seq<Rule>>, tx: Transaction, rows: seq<Row>, c: Collation, blobByHash: bool)
    returns (violations: seq<ViolationAt>)
    requires c.Valid() && Paired(rows) && DistinctRows(rows)
    ensures violations == [] <==> Admits(rows, tx, rules)
  {
    if rules.None? {
      return [];
    }
    LiveFactsDistinct(rows);
    violations := Enforce(rules.value, tx.ops, rows, tx.instant, c, blobByHash);
  }

  method WriteAll(table: Table, tx: Transaction, at: nat, blobByHash: bool, ghost before: State) returns (ok: bool)
    requires WellFormed(before) && at == before.position + 1 && table.rows == before.rows
    modifies table`rows
    ensures ok <==> Takes(before, tx, blobByHash)
    ensures ok ==> State(table.rows, at) == Committed(before, tx, blobByHash)
  {
    NextPosition(before);
    ok := WriteOperations(table, tx, at, blobByHash);
    if ok {
      ok := WriteJournal(table, tx, at);
    }
  }

  /** Rejected exactly when some violation would appear or grow at some instant; a
      transaction that is rejected or cannot be written leaves table and counter as
      they were, and any other takes the next position. */
  method Transact(table: Table, tx: Transaction, rules: Option<seq<Rule>>, c: Collation, blobByHash: bool)
    returns (outcome: Outcome)
    requires WellFormed(table.Contents()) && c.Valid()
    modifies table
    ensures outcome.Rejected? <==> !Admits(old(table.rows), tx, rules)
    ensures outcome.Rejected? ==> outcome.violations != []
    ensures outcome.Done? <==> Admits(old(table.rows), tx, rules) && Takes(old(table.Contents()), tx, blobByHash)
    ensures table.Contents()
            == if outcome.Done? then Committed(old(table.Contents()), tx, blobByHash) else old(table.Contents())
    ensures WellFormed(table.Contents())
  {
    var rows, position := table.rows, table.position;
    ghost var before := table.Contents();
    ShapeIsDistinct(before);
    var at := table.NextCommitPosition();
    var violations := Check(rules, tx, rows, c, blobByHash);
    if violations != [] {
      table.position := position;
      return Rejected(violations);
    }
    var ok := WriteAll(table, tx, at, blobByHash, before);
    if !ok {
      table.rows, table.position := rows, position;
      return WriteFailed;
    }
    CommitKeepsTable(before, tx, blobByHash);
    return Done;
  }
}
