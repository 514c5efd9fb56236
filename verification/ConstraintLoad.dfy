/** Loading the slice from the fact table through the statements of the SQL adapter,
    and enforcing on it. */
module ConstraintLoad {
  import opened Facts
  import opened FactTable
  import opened Constraint
  import opened ConstraintEvaluation
  import opened ConstraintEnforcement
  import opened ConstraintSlice
  import opened ConstraintCommit
  import A = SqlAdapters

  function ReadAll(rows: seq<Row>): (facts: seq<Triple>)
    ensures |facts| == |rows| && forall i :: 0 <= i < |facts| ==> facts[i] == ReadBack(rows[i])
  {
    seq(|rows|, i requires 0 <= i < |rows| => ReadBack(rows[i]))
  }

  lemma ReadAllNext(rows: seq<Row>, row: Row)
    ensures ReadAll(rows + [row]) == ReadAll(rows) + [ReadBack(row)]
  {
  }

  lemma ReadSelectedNext(rows: seq<Row>, row: Row, select: Row -> bool, keep: Triple -> bool)
    requires ReadAll(Filter(rows, select)) == Filter(LiveFacts(rows), keep)
    requires select(row) <==> row.retractedAt.None? && keep(ReadBack(row))
    ensures ReadAll(Filter(rows + [row], select)) == Filter(LiveFacts(rows + [row]), keep)
  {
    FilterNext(rows, row, select);
    LiveFactsAppend(rows, row);
    if row.retractedAt.None? {
      FilterNext(LiveFacts(rows), ReadBack(row), keep);
    } else {
      assert LiveFacts(rows) + [] == LiveFacts(rows);
    }
    if select(row) {
      ReadAllNext(Filter(rows, select), row);
    } else {
      assert Filter(rows, select) + [] == Filter(rows, select);
    }
  }

  /** Reading back what a statement selects is filtering what is read back. */
  lemma {:induction false} ReadSelected(rows: seq<Row>, select: Row -> bool, keep: Triple -> bool)
    requires forall row :: select(row) <==> row.retractedAt.None? && keep(ReadBack(row))
    ensures ReadAll(Filter(rows, select)) == Filter(LiveFacts(rows), keep)
  {
    if rows != [] {
      var n := |rows| - 1;
      ReadSelected(rows[..n], select, keep);
      ReadSelectedNext(rows[..n], rows[n], select, keep);
      assert rows == rows[..n] + [rows[n]];
    }
  }

  function OfType(entityType: string): Pattern {
    Pattern(None, None, Some(entityType), None)
  }

  lemma TypeScanReads(rows: seq<Row>, entityType: string, blobByHash: bool)
    ensures ReadAll(Filter(rows, SelectedBy(OfType(entityType), blobByHash)))
            == ByEntityType(LiveFacts(rows), entityType)
  {
    var keep := (f: Triple) => entityType == "" || f.entityType == Some(entityType);
    ReadSelected(rows, SelectedBy(OfType(entityType), blobByHash), keep);
    if entityType == "" {
      FilterAll(LiveFacts(rows), keep);
    } else {
      FilterSamePredicate(LiveFacts(rows), keep, (f: Triple) => f.entityType == Some(entityType));
    }
  }

  method LoadByType(rows: seq<Row>, entityType: string, blobByHash: bool) returns (facts: seq<Triple>)
    requires Paired(rows)
    ensures facts == ByEntityType(LiveFacts(rows), entityType)
  {
    var selected := QueryRows(rows, OfType(entityType), blobByHash);
    TypeScanReads(rows, entityType, blobByHash);
    facts := ReadAll(selected);
  }

  lemma FlatMapNext<A(!new), B(!new)>(s: seq<A>, x: A, f: A -> seq<B>)
    ensures FlatMap(s + [x], f) == FlatMap(s, f) + f(x)
  {
    if s == [] {
      assert [] + [x] == [x] && f(x) + [] == f(x);
    } else {
      assert (s + [x])[1..] == s[1..] + [x];
      FlatMapNext(s[1..], x, f);
      assert f(s[0]) + (FlatMap(s[1..], f) + f(x)) == f(s[0]) + FlatMap(s[1..], f) + f(x);
    }
  }

  method LoadByTypes(rows: seq<Row>, types: seq<string>, blobByHash: bool) returns (facts: seq<Triple>)
    requires Paired(rows)
    ensures facts == ByTypes(types, LiveFacts(rows))
  {
    facts := [];
    for i := 0 to |types|
      invariant facts == ByTypes(types[..i], LiveFacts(rows))
    {
      assert types[..i + 1] == types[..i] + [types[i]];
      FlatMapNext(types[..i], types[i], TypeScan(LiveFacts(rows)));
      var found := LoadByType(rows, types[i], blobByHash);
      facts := facts + found;
    }
    assert types[..|types|] == types;
  }

  lemma EntityRowsRead(rows: seq<Row>, id: string)
    ensures ReadAll(A.RowsOf(rows, id, None)) == ByEntity(LiveFacts(rows), id)
  {
    ReadSelected(rows, A.Wanted([id], None), (f: Triple) => f.entityId == id);
    FilterSamePredicate(LiveFacts(rows), (f: Triple) => f.entityId == id, (f: Triple) => f.entityId == id);
  }

  method LoadByEntities(rows: seq<Row>, ids: seq<string>, blobByHash: bool) returns (facts: seq<Triple>)
    requires Paired(rows)
    ensures facts == ByEntities(ids, LiveFacts(rows))
  {
    var grouped: map<string, seq<Row>>;
    if blobByHash {
      grouped := A.PgGetByEntities(rows, ids, None);
    } else {
      grouped := A.GetByEntities(rows, ids, None);
    }
    facts := [];
    for i := 0 to |ids|
      invariant facts == ByEntities(ids[..i], LiveFacts(rows))
    {
      assert ids[..i + 1] == ids[..i] + [ids[i]];
      FlatMapNext(ids[..i], ids[i], EntityScan(LiveFacts(rows)));
      EntityRowsRead(rows, ids[i]);
      assert ids[i] in grouped;
      facts := facts + ReadAll(grouped[ids[i]]);
    }
    assert ids[..|ids|] == ids;
  }

  /** The loader, on the table. */
  method LoadSlice(rules: seq<Rule>, ops: seq<Op>, rows: seq<Row>, blobByHash: bool) returns (facts: seq<Triple>)
    requires Paired(rows)
    ensures facts == LoadRelevantFacts(rules, ops, LiveFacts(rows))
  {
    var sourceTypeFacts := LoadByTypes(rows, SourceTypes(rules), blobByHash);
    var sourceFacts := LoadByEntities(rows, SourceIdsOf(rules, ops, sourceTypeFacts), blobByHash);
    var targetTypeFacts := LoadByTypes(rows, TargetTypes(rules), blobByHash);
    facts := UniqueById(sourceTypeFacts + sourceFacts + targetTypeFacts);
  }

  /** The check a transaction goes through before it is written. */
  method Enforce(rules: seq<Rule>, ops: seq<Op>, rows: seq<Row>, instant: Instant, c: Collation, blobByHash: bool)
    returns (violations: seq<ViolationAt>)
    requires c.Valid() && Paired(rows) && DistinctIds(LiveFacts(rows))
    ensures violations == [] <==> NoWorse(LiveFacts(rows), Projection(LiveFacts(rows), ops, instant), rules)
  {
    var current := LoadSlice(rules, ops, rows, blobByHash);
    violations := NewlyViolated(current, ops, rules, instant, c);
    SliceDecidesAsStore(rules, ops, LiveFacts(rows), instant);
  }
}
