/** The statement builders of the SQLite and PostgreSQL adapters, and when the two
    select the same rows. */
module SqlAdapters {
  import opened Facts
  import opened FactTable
  import opened SqlConditions

  // SQLite: conditions with `?`, parameters pushed alongside

  method SqliteTemporal(basis: Option<Basis>, params0: seq<SqlValue>)
    returns (conditions: seq<Cond>, params: seq<SqlValue>)
    ensures conditions == TemporalClause(basis).conds
    ensures params == params0 + TemporalClause(basis).params
  {
    params := params0;
    if basis.None? { return [IsNull(RetractedAt)], params; }
    var b := basis.value;
    if b.recordedPosition.Some? {
      if b.recordedAt.None? {
        conditions := [Compare(RecordedPosition, AtMost, Next), NullOrLater(RetractedPosition)];
        params := params + [Whole(b.recordedPosition.value), Whole(b.recordedPosition.value)];
      } else {
        conditions := [Compare(RecordedPosition, AtMost, Next), Compare(RecordedAt, AtMost, Next), BothCutsMark()];
        params := params + [Whole(b.recordedPosition.value), Whole(b.recordedAt.value),
                            Whole(b.recordedPosition.value), Whole(b.recordedAt.value)];
      }
    } else if b.recordedAt.None? {
      conditions := [IsNull(RetractedAt)];
    } else {
      conditions := [Compare(RecordedAt, AtMost, Next), NullOrLater(RetractedAt)];
      params := params + [Whole(b.recordedAt.value), Whole(b.recordedAt.value)];
    }
    conditions := conditions + [Compare(ValidFrom, AtMost, Next), NullOrLater(ValidTo)];
    params := params + [Whole(b.validAt), Whole(b.validAt)];
  }

  method SqlitePush(column: Column, value: SqlValue, conditions0: seq<Cond>, params0: seq<SqlValue>)
    returns (conditions: seq<Cond>, params: seq<SqlValue>)
    ensures Clause(conditions, params)
            == Clause(conditions0, params0).Join(Clause([Compare(column, Equals, Next)], [value]))
  {
    conditions := conditions0 + [Compare(column, Equals, Next)];
    params := params0 + [value];
  }

  method SqliteTerm(column: Column, term: Term, conditions0: seq<Cond>, params0: seq<SqlValue>)
    returns (conditions: seq<Cond>, params: seq<SqlValue>)
    ensures Clause(conditions, params) == Clause(conditions0, params0).Join(TermClause(column, term))
  {
    conditions, params := conditions0, params0;
    if term.Exactly? && term.text != "" {
      conditions, params := SqlitePush(column, Text(term.text), conditions, params);
    } else {
      JoinEmpty(Clause(conditions, params));
    }
  }

  method SqliteValue(value: Value, conditions0: seq<Cond>, params0: seq<SqlValue>)
    returns (conditions: seq<Cond>, params: seq<SqlValue>)
    ensures Clause(conditions, params) == Clause(conditions0, params0).Join(ContentClause(value, false))
  {
    conditions, params := conditions0, params0;
    match value {
      case StringValue(text) => conditions, params := SqlitePush(ValueString, Text(text), conditions, params);
      case RefValue(target) => conditions, params := SqlitePush(ValueString, Text(target), conditions, params);
      case NumberValue(number) => conditions, params := SqlitePush(ValueNumber, Float(number), conditions, params);
      case BooleanValue(flag) =>
        conditions, params := SqlitePush(ValueBoolean, Whole(if flag then 1 else 0), conditions, params);
      case DateTimeValue(instant) =>
        conditions, params := SqlitePush(ValueDatetime, Whole(instant), conditions, params);
      case SealedValue(valueType, keyId, ciphertext, blind) =>
        if blind.Some? {
          conditions, params := SqlitePush(ValueBlind, Text(blind.value), conditions, params);
        } else {
          conditions := conditions + [And(IsNull(ValueBlind), Compare(ValueSealed, Equals, Next))];
          params := params + [Envelope(valueType, keyId, ciphertext)];
        }
      case _ => JoinEmpty(Clause(conditions, params));
    }
  }

  method SqliteValueTerm(term: ValueTerm, conditions0: seq<Cond>, params0: seq<SqlValue>)
    returns (conditions: seq<Cond>, params: seq<SqlValue>)
    ensures Clause(conditions, params) == Clause(conditions0, params0).Join(ValueClause(term, false))
  {
    conditions, params := conditions0, params0;
    if term.ExactlyValue? {
      var name := Text(TypeName(term.value));
      conditions, params := SqlitePush(ValueType, name, conditions, params);
      conditions, params := SqliteValue(term.value, conditions, params);
      JoinAssociates(Clause(conditions0, params0), Clause([Compare(ValueType, Equals, Next)], [name]),
                     ContentClause(term.value, false));
    } else {
      JoinEmpty(Clause(conditions, params));
    }
  }

  method SqliteQuery(pattern: QueryPattern, basis: Option<Basis>) returns (conditions: seq<Cond>, params: seq<SqlValue>)
    ensures Clause(conditions, params) == QueryClause(pattern, basis, false)
    ensures forall row | PairedRow(row) ::
      Accepts(BindAll(conditions, 1), params, row) <==> QueryMatches(row, pattern, basis, false)
  {
    conditions, params := SqliteTemporal(basis, []);
    assert Clause(conditions, params) == TemporalClause(basis);
    conditions, params := SqliteTerm(EntityId, pattern.entityId, conditions, params);
    conditions, params := SqliteTerm(Attribute, pattern.attribute, conditions, params);
    if pattern.entityType.Some? && pattern.entityType.value != "" {
      conditions, params := SqlitePush(EntityType, Text(pattern.entityType.value), conditions, params);
    } else {
      JoinEmpty(Clause(conditions, params));
    }
    conditions, params := SqliteValueTerm(pattern.value, conditions, params);
    assert Clause(conditions, params) == QueryClause(pattern, basis, false);
    SelectedRows(Clause(conditions, params), pattern, basis, false);
  }

  lemma SelectedRows(clause: Clause, pattern: QueryPattern, basis: Option<Basis>, blobByHash: bool)
    requires clause == QueryClause(pattern, basis, blobByHash)
    ensures forall row | PairedRow(row) ::
      Accepts(BindAll(clause.conds, 1), clause.params, row) <==> QueryMatches(row, pattern, basis, blobByHash)
  {
    forall row | PairedRow(row)
      ensures Accepts(BindAll(clause.conds, 1), clause.params, row) <==> QueryMatches(row, pattern, basis, blobByHash)
    {
      QueryClauseMeans(pattern, basis, blobByHash, row);
      assert clause.Selects(row) <==> Accepts(BindAll(clause.conds, 1), clause.params, row);
    }
  }

  // PostgreSQL: a collector hands out numbered placeholders

  class ParamCollector {
    var params: seq<SqlValue>

    constructor ()
      ensures params == []
    {
      params := [];
    }

    method Add(value: SqlValue) returns (p: Placeholder)
      modifies this
      ensures params == old(params) + [value] && p == Numbered(|params|)
    {
      params := params + [value];
      p := Numbered(|params|);
    }
  }

  method PgEquals(column: Column, value: SqlValue, collector: ParamCollector) returns (cond: Cond)
    modifies collector
    ensures collector.params == old(collector.params) + [value]
    ensures cond == Bind(Compare(column, Equals, Next), old(|collector.params|) + 1)
  {
    var p := collector.Add(value);
    cond := Compare(column, Equals, p);
  }

  method PgAtMost(column: Column, value: SqlValue, collector: ParamCollector) returns (cond: Cond)
    modifies collector
    ensures collector.params == old(collector.params) + [value]
    ensures cond == Bind(Compare(column, AtMost, Next), old(|collector.params|) + 1)
  {
    var p := collector.Add(value);
    cond := Compare(column, AtMost, p);
  }

  method PgNullOrLater(column: Column, value: SqlValue, collector: ParamCollector) returns (cond: Cond)
    modifies collector
    ensures collector.params == old(collector.params) + [value]
    ensures cond == Bind(NullOrLater(column), old(|collector.params|) + 1)
  {
    var p := collector.Add(value);
    cond := Or(IsNull(column), Compare(column, MoreThan, p));
  }

  method PgCuts(basis: Basis, collector: ParamCollector) returns (conditions: seq<Cond>)
    requires basis.recordedPosition.Some? && basis.recordedAt.Some?
    modifies collector
    ensures conditions == BindAll(RecordedClause(basis).conds, old(|collector.params|) + 1)
    ensures collector.params == old(collector.params) + RecordedClause(basis).params
  {
    var c := PgAtMost(RecordedPosition, Whole(basis.recordedPosition.value), collector);
    var d := PgAtMost(RecordedAt, Whole(basis.recordedAt.value), collector);
    var e := PgNullOrLater(RetractedPosition, Whole(basis.recordedPosition.value), collector);
    var p := collector.Add(Whole(basis.recordedAt.value));
    conditions := [c, d, Or(e, Compare(RetractedAt, MoreThan, p))];
    BindThree(Compare(RecordedPosition, AtMost, Next), Compare(RecordedAt, AtMost, Next), BothCutsMark(),
              old(|collector.params|) + 1);
  }

  method PgRecorded(basis: Basis, collector: ParamCollector) returns (conditions: seq<Cond>)
    modifies collector
    ensures conditions == BindAll(RecordedClause(basis).conds, old(|collector.params|) + 1)
    ensures collector.params == old(collector.params) + RecordedClause(basis).params
  {
    if basis.recordedPosition.Some? && basis.recordedAt.Some? {
      conditions := PgCuts(basis, collector);
    } else if basis.recordedPosition.Some? {
      var c := PgAtMost(RecordedPosition, Whole(basis.recordedPosition.value), collector);
      var d := PgNullOrLater(RetractedPosition, Whole(basis.recordedPosition.value), collector);
      conditions := [c, d];
      BindTwo(Compare(RecordedPosition, AtMost, Next), NullOrLater(RetractedPosition), old(|collector.params|) + 1);
    } else if basis.recordedAt.Some? {
      var c := PgAtMost(RecordedAt, Whole(basis.recordedAt.value), collector);
      var d := PgNullOrLater(RetractedAt, Whole(basis.recordedAt.value), collector);
      conditions := [c, d];
      BindTwo(Compare(RecordedAt, AtMost, Next), NullOrLater(RetractedAt), old(|collector.params|) + 1);
    } else {
      conditions := [IsNull(RetractedAt)];
      BindOne(IsNull(RetractedAt), old(|collector.params|) + 1);
    }
  }

  method PgTemporal(basis: Option<Basis>, collector: ParamCollector) returns (conditions: seq<Cond>)
    modifies collector
    ensures conditions == BindAll(TemporalClause(basis).conds, old(|collector.params|) + 1)
    ensures collector.params == old(collector.params) + TemporalClause(basis).params
  {
    ghost var first := |collector.params| + 1;
    if basis.None? {
      BindOne(IsNull(RetractedAt), first);
      return [IsNull(RetractedAt)];
    }
    conditions := PgRecorded(basis.value, collector);
    var c := PgAtMost(ValidFrom, Whole(basis.value.validAt), collector);
    var d := PgNullOrLater(ValidTo, Whole(basis.value.validAt), collector);
    conditions := conditions + [c, d];
    RecordedBalanced(basis.value);
    ValidBound(RecordedClause(basis.value), basis.value.validAt, first);
  }

  lemma ValidBound(recorded: Clause, validAt: Instant, first: nat)
    requires recorded.Balanced()
    ensures var from, to := Compare(ValidFrom, AtMost, Next), NullOrLater(ValidTo);
      var next := first + |recorded.params|;
      BindAll(recorded.conds + [from, to], first)
          == BindAll(recorded.conds, first) + [Bind(from, next), Bind(to, next + Marks(from))]
  {
    BindTwo(Compare(ValidFrom, AtMost, Next), NullOrLater(ValidTo), first + |recorded.params|);
    BindAppend(recorded.conds, [Compare(ValidFrom, AtMost, Next), NullOrLater(ValidTo)], first);
  }

  lemma RecordedBalanced(basis: Basis)
    ensures RecordedClause(basis).Balanced()
  {
    RecordedClauseMeans(basis, NewRow(Input("", "", BooleanValue(true), None, None, None), "", 0, 1));
  }

  lemma BindOne(c: Cond, first: nat)
    ensures MarksAll([c]) == Marks(c)
    ensures BindAll([c], first) == [Bind(c, first)]
  {
    assert [c][..0] == [];
  }

  lemma BindTwo(c: Cond, d: Cond, first: nat)
    ensures MarksAll([c, d]) == Marks(c) + Marks(d)
    ensures BindAll([c, d], first) == [Bind(c, first), Bind(d, first + Marks(c))]
  {
    BindOne(c, first);
    assert [c, d][..1] == [c];
  }

  lemma BindThree(c: Cond, d: Cond, e: Cond, first: nat)
    ensures MarksAll([c, d, e]) == Marks(c) + Marks(d) + Marks(e)
    ensures BindAll([c, d, e], first)
            == [Bind(c, first), Bind(d, first + Marks(c)), Bind(e, first + Marks(c) + Marks(d))]
  {
    BindTwo(c, d, first);
    assert [c, d, e][..2] == [c, d];
  }

  /** One more numbered condition is one more bound condition. */
  lemma PushBound(clause: Clause, cond: Cond, value: SqlValue, bound: seq<Cond>)
    requires clause.Balanced() && bound == BindAll(clause.conds, 1) && Marks(cond) == 1
    ensures bound + [Bind(cond, |clause.params| + 1)] == BindAll(clause.conds + [cond], 1)
    ensures clause.Join(Clause([cond], [value])).Balanced()
  {
    BindAppend(clause.conds, [cond], 1);
    BindOne(cond, |clause.params| + 1);
    MarksAppend(clause.conds, [cond]);
    BindOne(cond, 1);
  }

  method PgPush(column: Column, value: SqlValue, collector: ParamCollector, conditions: seq<Cond>, ghost clause: Clause)
    returns (pushed: seq<Cond>, ghost clause': Clause)
    requires clause.Balanced() && conditions == BindAll(clause.conds, 1) && collector.params == clause.params
    modifies collector
    ensures clause' == clause.Join(Clause([Compare(column, Equals, Next)], [value]))
    ensures clause'.Balanced() && pushed == BindAll(clause'.conds, 1) && collector.params == clause'.params
  {
    PushBound(clause, Compare(column, Equals, Next), value, conditions);
    clause' := clause.Join(Clause([Compare(column, Equals, Next)], [value]));
    var cond := PgEquals(column, value, collector);
    pushed := conditions + [cond];
  }

  method PgPushSealed(value: SqlValue, collector: ParamCollector, conditions: seq<Cond>, ghost clause: Clause)
    returns (pushed: seq<Cond>, ghost clause': Clause)
    requires clause.Balanced() && conditions == BindAll(clause.conds, 1) && collector.params == clause.params
    modifies collector
    ensures clause' == clause.Join(Clause([And(IsNull(ValueBlind), Compare(ValueSealed, Equals, Next))], [value]))
    ensures clause'.Balanced() && pushed == BindAll(clause'.conds, 1) && collector.params == clause'.params
  {
    ghost var cond := And(IsNull(ValueBlind), Compare(ValueSealed, Equals, Next));
    PushBound(clause, cond, value, conditions);
    clause' := clause.Join(Clause([cond], [value]));
    var p := collector.Add(value);
    pushed := conditions + [And(IsNull(ValueBlind), Compare(ValueSealed, Equals, p))];
  }

  method PgValue(value: Value, collector: ParamCollector, conditions0: seq<Cond>, ghost clause0: Clause)
    returns (conditions: seq<Cond>)
    requires clause0.Balanced() && conditions0 == BindAll(clause0.conds, 1) && collector.params == clause0.params
    modifies collector
    ensures var clause := clause0.Join(ContentClause(value, true));
            conditions == BindAll(clause.conds, 1) && collector.params == clause.params
  {
    conditions := conditions0;
    ghost var clause := clause0;
    match value {
      case StringValue(text) => conditions, clause := PgPush(ValueString, Text(text), collector, conditions, clause);
      case RefValue(target) => conditions, clause := PgPush(ValueString, Text(target), collector, conditions, clause);
      case BlobValue(hash, _, _, _) =>
        conditions, clause := PgPush(ValueString, Text(hash), collector, conditions, clause);
      case NumberValue(number) =>
        conditions, clause := PgPush(ValueNumber, Float(number), collector, conditions, clause);
      case BooleanValue(flag) =>
        conditions, clause := PgPush(ValueBoolean, Whole(if flag then 1 else 0), collector, conditions, clause);
      case DateTimeValue(instant) =>
        conditions, clause := PgPush(ValueDatetime, Whole(instant), collector, conditions, clause);
      case JsonValue(_) =>
        assert clause.conds + [] == clause.conds && clause.params + [] == clause.params;
      case SealedValue(valueType, keyId, ciphertext, blind) =>
        if blind.Some? {
          conditions, clause := PgPush(ValueBlind, Text(blind.value), collector, conditions, clause);
        } else {
          conditions, clause := PgPushSealed(Envelope(valueType, keyId, ciphertext), collector, conditions, clause);
        }
    }
  }

  method PgTerm(column: Column, term: Term, collector: ParamCollector, conditions0: seq<Cond>, ghost clause: Clause)
    returns (conditions: seq<Cond>, ghost clause': Clause)
    requires clause.Balanced() && conditions0 == BindAll(clause.conds, 1) && collector.params == clause.params
    modifies collector
    ensures clause' == clause.Join(TermClause(column, term))
    ensures clause'.Balanced() && conditions == BindAll(clause'.conds, 1) && collector.params == clause'.params
  {
    if term.Exactly? && term.text != "" {
      conditions, clause' := PgPush(column, Text(term.text), collector, conditions0, clause);
    } else {
      JoinEmpty(clause);
      conditions, clause' := conditions0, clause;
    }
  }

  method PgQuery(pattern: QueryPattern, basis: Option<Basis>) returns (conditions: seq<Cond>, params: seq<SqlValue>)
    ensures conditions == BindAll(QueryClause(pattern, basis, true).conds, 1)
    ensures params == QueryClause(pattern, basis, true).params
    ensures forall row | PairedRow(row) :: Accepts(conditions, params, row) <==> QueryMatches(row, pattern, basis, true)
  {
    var collector := new ParamCollector();
    conditions := PgTemporal(basis, collector);
    ghost var clause := TemporalClause(basis);
    TemporalBalanced(basis);
    conditions, clause := PgTerm(EntityId, pattern.entityId, collector, conditions, clause);
    conditions, clause := PgTerm(Attribute, pattern.attribute, collector, conditions, clause);
    if pattern.entityType.Some? && pattern.entityType.value != "" {
      conditions, clause := PgPush(EntityType, Text(pattern.entityType.value), collector, conditions, clause);
    } else {
      JoinEmpty(clause);
    }
    conditions := PgValueTerm(pattern.value, collector, conditions, clause);
    params := collector.params;
    SelectedRows(QueryClause(pattern, basis, true), pattern, basis, true);
  }

  method PgValueTerm(term: ValueTerm, collector: ParamCollector, conditions0: seq<Cond>, ghost clause0: Clause)
    returns (conditions: seq<Cond>)
    requires clause0.Balanced() && conditions0 == BindAll(clause0.conds, 1) && collector.params == clause0.params
    modifies collector
    ensures var clause := clause0.Join(ValueClause(term, true));
            conditions == BindAll(clause.conds, 1) && collector.params == clause.params
  {
    conditions := conditions0;
    ghost var clause := clause0;
    if term.ExactlyValue? {
      conditions, clause := PgPush(ValueType, Text(TypeName(term.value)), collector, conditions, clause);
      conditions := PgValue(term.value, collector, conditions, clause);
      JoinAssociates(clause0, Clause([Compare(ValueType, Equals, Next)], [Text(TypeName(term.value))]),
                     ContentClause(term.value, true));
    } else {
      JoinEmpty(clause);
    }
  }

  lemma JoinEmpty(a: Clause)
    ensures a.Join(Empty) == a
  {
    assert a.conds + [] == a.conds && a.params + [] == a.params;
  }

  lemma JoinAssociates(a: Clause, b: Clause, c: Clause)
    ensures a.Join(b).Join(c) == a.Join(b.Join(c))
  {
    assert a.conds + b.conds + c.conds == a.conds + (b.conds + c.conds);
    assert a.params + b.params + c.params == a.params + (b.params + c.params);
  }

  lemma TemporalBalanced(basis: Option<Basis>)
    ensures TemporalClause(basis).Balanced()
  {
    var row := NewRow(Input("", "", BooleanValue(true), None, None, None), "", 0, 1);
    TemporalClauseMeans(basis, row);
  }

  // Agreement of the dialects

  /** The row with which the dialects differ on a blob pattern. */
  function OtherBlob(pattern: QueryPattern, basis: Option<Basis>): Row
    requires pattern.value.ExactlyValue? && pattern.value.value.BlobValue?
  {
    var blob := pattern.value.value;
    Row("row",
        if pattern.entityId.Exactly? then pattern.entityId.text else "",
        if pattern.attribute.Exactly? then pattern.attribute.text else "",
        blob.(hash := blob.hash + "!"),
        pattern.entityType,
        if basis.Some? then basis.value.validAt else 0, None,
        if basis.Some? && basis.value.recordedAt.Some? then basis.value.recordedAt.value else 0, 0, None, None)
  }

  lemma OtherBlobTellsApart(pattern: QueryPattern, basis: Option<Basis>)
    requires pattern.value.ExactlyValue? && pattern.value.value.BlobValue?
    ensures PairedRow(OtherBlob(pattern, basis))
    ensures QueryMatches(OtherBlob(pattern, basis), pattern, basis, false)
    ensures !QueryMatches(OtherBlob(pattern, basis), pattern, basis, true)
  {
  }

  /** SQLite and PostgreSQL select the same rows for every table just when the
      pattern does not ask for a blob: SQLite then compares the value type only. */
  lemma DialectsAgree(pattern: QueryPattern, basis: Option<Basis>)
    ensures (forall row | PairedRow(row) ::
              QueryClause(pattern, basis, false).Selects(row) <==> QueryClause(pattern, basis, true).Selects(row))
            <==> !(pattern.value.ExactlyValue? && pattern.value.value.BlobValue?)
  {
    forall row | PairedRow(row)
      ensures QueryClause(pattern, basis, false).Selects(row) <==> QueryMatches(row, pattern, basis, false)
      ensures QueryClause(pattern, basis, true).Selects(row) <==> QueryMatches(row, pattern, basis, true)
    {
      QueryClauseMeans(pattern, basis, false, row);
      QueryClauseMeans(pattern, basis, true, row);
    }
    if pattern.value.ExactlyValue? && pattern.value.value.BlobValue? {
      OtherBlobTellsApart(pattern, basis);
      assert PairedRow(OtherBlob(pattern, basis));
    }
  }

  // Batch loading by entity

  function Texts(ids: seq<string>): (r: seq<SqlValue>)
    ensures |r| == |ids| && forall i :: 0 <= i < |ids| ==> r[i] == Text(ids[i])
  {
    seq(|ids|, i requires 0 <= i < |ids| => Text(ids[i]))
  }

  /** One mark for each id. */
  function Among(count: nat): (cond: Cond)
    ensures cond.In? && cond.column == EntityId && |cond.choices| == count
  {
    In(EntityId, seq(count, i => Next))
  }

  function EntitiesClause(ids: seq<string>, basis: Option<Basis>): Clause {
    Clause([Among(|ids|)], Texts(ids)).Join(TemporalClause(basis))
  }

  lemma {:induction false} AmongMeans(value: SqlValue, choices: seq<Placeholder>, params: seq<SqlValue>)
    requires !value.Null? && forall i :: 0 <= i < |choices| ==> !Parameter(params, choices[i]).Null?
    ensures AmongChoices(value, choices, params) ==
            FromBool(exists i :: 0 <= i < |choices| && Parameter(params, choices[i]) == value)
  {
    if choices != [] {
      AmongMeans(value, choices[1..], params);
      if exists i :: 0 <= i < |choices[1..]| && Parameter(params, choices[1..][i]) == value {
        var i :| 0 <= i < |choices[1..]| && Parameter(params, choices[1..][i]) == value;
        assert choices[i + 1] == choices[1..][i];
      } else {
        assert forall i | 1 <= i < |choices| :: choices[i] == choices[1..][i - 1];
      }
    }
  }

  lemma EntitiesClauseMeans(ids: seq<string>, basis: Option<Basis>, row: Row)
    requires PairedRow(row)
    ensures EntitiesClause(ids, basis).Selects(row) <==> row.entityId in ids && Shows(row, basis)
  {
    var among := Among(|ids|);
    OneCondition(among, Texts(ids), row);
    TemporalClauseMeans(basis, row);
    JoinAccepts(Clause([among], Texts(ids)), TemporalClause(basis), row);
    var choices := Numbers(1, |ids|);
    forall i | 0 <= i < |ids| ensures Parameter(Texts(ids), choices[i]) == Text(ids[i]) {
    }
    AmongMeans(Text(row.entityId), choices, Texts(ids));
    assert Evaluate(Bind(among, 1), Texts(ids), row) == AmongChoices(Text(row.entityId), choices, Texts(ids));
    if row.entityId in ids {
      var i :| 0 <= i < |ids| && ids[i] == row.entityId;
      assert Parameter(Texts(ids), choices[i]) == Text(row.entityId);
    }
  }

  function OfEntity(entityId: string): Row -> bool {
    (row: Row) => row.entityId == entityId
  }

  function Wanted(ids: seq<string>, basis: Option<Basis>): Row -> bool {
    (row: Row) => row.entityId in ids && Shows(row, basis)
  }

  /** The rows of one entity that the basis shows, in table order. */
  function RowsOf(rows: seq<Row>, entityId: string, basis: Option<Basis>): seq<Row> {
    Filter(rows, Wanted([entityId], basis))
  }

  /** The rows the statement answers with, in table order. */
  method SelectEntities(rows: seq<Row>, ids: seq<string>, bound: seq<Cond>, params: seq<SqlValue>, ghost clause: Clause,
                        ghost basis: Option<Basis>) returns (selected: seq<Row>)
    requires Paired(rows) && clause == EntitiesClause(ids, basis)
    requires bound == BindAll(clause.conds, 1) && params == clause.params
    ensures selected == Filter(rows, Wanted(ids, basis))
  {
    selected := [];
    for i := 0 to |rows|
      invariant selected == Filter(rows[..i], Wanted(ids, basis))
    {
      assert rows[..i + 1] == rows[..i] + [rows[i]];
      FilterNext(rows[..i], rows[i], Wanted(ids, basis));
      EntitiesClauseMeans(ids, basis, rows[i]);
      assert clause.Selects(rows[i]) <==> Accepts(bound, params, rows[i]);
      if Accepts(bound, params, rows[i]) { selected := selected + [rows[i]]; }
    }
    assert rows[..|rows|] == rows;
  }

  ghost predicate Grouped(grouped: map<string, seq<Row>>, ids: seq<string>, rows: seq<Row>) {
    && (forall id :: id in grouped <==> id in ids)
    && (forall id | id in grouped :: grouped[id] == Filter(rows, OfEntity(id)))
  }

  lemma GroupedNext(grouped: map<string, seq<Row>>, ids: seq<string>, rows: seq<Row>, row: Row)
    requires Grouped(grouped, ids, rows)
    ensures var next :=
              if row.entityId in grouped then grouped[row.entityId := grouped[row.entityId] + [row]] else grouped;
      Grouped(next, ids, rows + [row])
  {
    forall id | id in ids
      ensures Filter(rows + [row], OfEntity(id)) == grouped[id] + if row.entityId == id then [row] else []
    {
      FilterNext(rows, row, OfEntity(id));
    }
  }

  method GroupByEntity(selected: seq<Row>, ids: seq<string>) returns (grouped: map<string, seq<Row>>)
    ensures Grouped(grouped, ids, selected)
  {
    grouped := map id | id in ids :: [];
    for i := 0 to |selected|
      invariant Grouped(grouped, ids, selected[..i])
    {
      assert selected[..i + 1] == selected[..i] + [selected[i]];
      GroupedNext(grouped, ids, selected[..i], selected[i]);
      if selected[i].entityId in grouped {
        grouped := grouped[selected[i].entityId := grouped[selected[i].entityId] + [selected[i]]];
      }
    }
    assert selected[..|selected|] == selected;
  }

  /** Every requested id has exactly its visible rows; no other id has an entry. */
  ghost predicate Loaded(grouped: map<string, seq<Row>>, rows: seq<Row>, entityIds: seq<string>, basis: Option<Basis>) {
    && (forall id :: id in grouped <==> id in entityIds)
    && (forall id | id in grouped :: grouped[id] == RowsOf(rows, id, basis))
  }

  lemma GroupedIsLoaded(grouped: map<string, seq<Row>>, rows: seq<Row>, entityIds: seq<string>, unique: seq<string>,
                        basis: Option<Basis>)
    requires Grouped(grouped, unique, Filter(rows, Wanted(unique, basis)))
    requires forall id :: id in unique <==> id in entityIds
    ensures Loaded(grouped, rows, entityIds, basis)
  {
    forall id | id in grouped ensures grouped[id] == RowsOf(rows, id, basis) {
      FilterTwice(rows, Wanted(unique, basis), OfEntity(id), Wanted([id], basis));
    }
  }

  method GetByEntities(rows: seq<Row>, entityIds: seq<string>, basis: Option<Basis>)
    returns (grouped: map<string, seq<Row>>)
    requires Paired(rows)
    ensures Loaded(grouped, rows, entityIds, basis)
  {
    if entityIds == [] { return map[]; }
    var unique := Deduplicate(entityIds);
    var conditions, params := SqliteTemporal(basis, Texts(unique));
    conditions := [Among(|unique|)] + conditions;
    var selected := SelectEntities(rows, unique, BindAll(conditions, 1), params, Clause(conditions, params), basis);
    grouped := GroupByEntity(selected, unique);
    GroupedIsLoaded(grouped, rows, entityIds, unique, basis);
  }

  // The same batch with numbered placeholders

  method PgAmong(ids: seq<string>, collector: ParamCollector) returns (cond: Cond)
    requires collector.params == []
    modifies collector
    ensures cond == Bind(Among(|ids|), 1) && collector.params == Texts(ids)
  {
    var choices: seq<Placeholder> := [];
    for i := 0 to |ids|
      invariant choices == Numbers(1, i) && collector.params == Texts(ids[..i])
    {
      assert Texts(ids[..i + 1]) == Texts(ids[..i]) + [Text(ids[i])];
      var p := collector.Add(Text(ids[i]));
      choices := choices + [p];
    }
    assert ids[..|ids|] == ids;
    cond := In(EntityId, choices);
  }

  lemma FrontBound(cond: Cond, rest: seq<Cond>, first: nat)
    ensures BindAll([cond] + rest, first) == [Bind(cond, first)] + BindAll(rest, first + Marks(cond))
  {
    BindOne(cond, first);
    BindAppend([cond], rest, first);
  }

  method PgEntities(ids: seq<string>, basis: Option<Basis>)
    returns (bound: seq<Cond>, params: seq<SqlValue>, ghost clause: Clause)
    ensures clause == EntitiesClause(ids, basis) && bound == BindAll(clause.conds, 1) && params == clause.params
  {
    var collector := new ParamCollector();
    var among := PgAmong(ids, collector);
    var conditions := PgTemporal(basis, collector);
    FrontBound(Among(|ids|), TemporalClause(basis).conds, 1);
    clause := Clause([Among(|ids|)], Texts(ids)).Join(TemporalClause(basis));
    bound, params := [among] + conditions, collector.params;
  }

  method PgGetByEntities(rows: seq<Row>, entityIds: seq<string>, basis: Option<Basis>)
    returns (grouped: map<string, seq<Row>>)
    requires Paired(rows)
    ensures Loaded(grouped, rows, entityIds, basis)
  {
    if entityIds == [] { return map[]; }
    var unique := Deduplicate(entityIds);
    var bound, params, clause := PgEntities(unique, basis);
    var selected := SelectEntities(rows, unique, bound, params, clause, basis);
    grouped := GroupByEntity(selected, unique);
    GroupedIsLoaded(grouped, rows, entityIds, unique, basis);
  }

  /** So both dialects group the same rows. */
  lemma LoadedOneWay(a: map<string, seq<Row>>, b: map<string, seq<Row>>, rows: seq<Row>, entityIds: seq<string>,
                     basis: Option<Basis>)
    requires Loaded(a, rows, entityIds, basis) && Loaded(b, rows, entityIds, basis)
    ensures a == b
  {
    assert forall id :: id in a <==> id in b;
  }
}
