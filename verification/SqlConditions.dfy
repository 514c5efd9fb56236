/** The WHERE clauses of the two SQL adapters, with SQL's three-valued logic: what
    they accept is the bitemporal and pattern match they stand for. */
module SqlConditions {
  import opened Facts
  import opened FactTable

  // Conditions and their evaluation

  datatype SqlValue =
    | Null
    | Whole(number: int)
    | Float(float: real)
    | Text(text: string)
    | Envelope(valueType: string, keyId: string, ciphertext: string)

  datatype Column =
    | EntityId | Attribute | EntityType
    | ValueType | ValueString | ValueNumber | ValueBoolean | ValueDatetime | ValueSealed | ValueBlind
    | RecordedAt | RecordedPosition | RetractedAt | RetractedPosition | ValidFrom | ValidTo

  datatype Comparison = AtMost | MoreThan | Equals

  /** `?` takes the next parameter; `$n` takes the n-th. */
  datatype Placeholder = Next | Numbered(n: nat)

  datatype Cond =
    | Compare(column: Column, comparison: Comparison, bound: Placeholder)
    | IsNull(column: Column)
    | In(column: Column, choices: seq<Placeholder>)
    | Or(left: Cond, right: Cond)
    | And(left: Cond, right: Cond)

  datatype Truth = True | False | Unknown

  function And3(a: Truth, b: Truth): Truth {
    if a.False? || b.False? then False else if a.True? && b.True? then True else Unknown
  }

  function Or3(a: Truth, b: Truth): Truth {
    if a.True? || b.True? then True else if a.False? && b.False? then False else Unknown
  }

  /** SQL's logic: an unknown part leaves the whole unknown unless the other decides. */
  lemma ThreeValued(a: Truth, b: Truth)
    ensures And3(a, b).True? <==> a.True? && b.True?
    ensures And3(a, b).False? <==> a.False? || b.False?
    ensures Or3(a, b).True? <==> a.True? || b.True?
    ensures Or3(a, b).False? <==> a.False? && b.False?
  {
  }

  function FromBool(b: bool): Truth {
    if b then True else False
  }

  function CompareValues(left: SqlValue, comparison: Comparison, right: SqlValue): Truth {
    if left.Null? || right.Null? then Unknown
    else match comparison
      case Equals => FromBool(left == right)
      case AtMost => FromBool(left.Whole? && right.Whole? && left.number <= right.number)
      case MoreThan => FromBool(left.Whole? && right.Whole? && left.number > right.number)
  }

  /** No comparison with NULL is true or false, and every other one is. */
  lemma NullIsUnknown(left: SqlValue, comparison: Comparison, right: SqlValue)
    ensures CompareValues(left, comparison, right).Unknown? <==> left.Null? || right.Null?
    ensures comparison.Equals? ==> (CompareValues(left, comparison, right).True? <==> left == right && !left.Null?)
  {
  }

  function Parameter(params: seq<SqlValue>, p: Placeholder): SqlValue {
    if p.Numbered? && 1 <= p.n <= |params| then params[p.n - 1] else Null
  }

  function AmongChoices(value: SqlValue, choices: seq<Placeholder>, params: seq<SqlValue>): Truth {
    if choices == [] then False
    else Or3(CompareValues(value, Equals, Parameter(params, choices[0])), AmongChoices(value, choices[1..], params))
  }

  function Evaluate(cond: Cond, params: seq<SqlValue>, row: Row): Truth {
    match cond
    case Compare(column, comparison, right) => CompareValues(ValueOf(row, column), comparison, Parameter(params, right))
    case IsNull(column) => FromBool(ValueOf(row, column).Null?)
    case In(column, choices) => AmongChoices(ValueOf(row, column), choices, params)
    case Or(left, right) => Or3(Evaluate(left, params, row), Evaluate(right, params, row))
    case And(left, right) => And3(Evaluate(left, params, row), Evaluate(right, params, row))
  }

  /** A row is selected when every conjunct is true, not merely unknown. */
  predicate Accepts(conds: seq<Cond>, params: seq<SqlValue>, row: Row) {
    forall i :: 0 <= i < |conds| ==> Evaluate(conds[i], params, row).True?
  }

  // Stored columns

  function OrNull(value: Option<string>): SqlValue {
    if value.Some? then Text(value.value) else Null
  }

  function TypeName(value: Value): string {
    match value
    case StringValue(_) => "string"
    case NumberValue(_) => "number"
    case BooleanValue(_) => "boolean"
    case DateTimeValue(_) => "datetime"
    case RefValue(_) => "ref"
    case JsonValue(_) => "json"
    case BlobValue(_, _, _, _) => "blob"
    case SealedValue(_, _, _, _) => "sealed"
  }

  function Packed(value: Value, column: Column): SqlValue {
    match column
    case ValueType => Text(TypeName(value))
    case ValueString =>
      if value.StringValue? then Text(value.text)
      else if value.RefValue? then Text(value.target)
      else if value.BlobValue? then Text(value.hash)
      else Null
    case ValueNumber => if value.NumberValue? then Float(value.number) else Null
    case ValueBoolean => if value.BooleanValue? then Whole(if value.flag then 1 else 0) else Null
    case ValueDatetime => if value.DateTimeValue? then Whole(value.instant) else Null
    case ValueSealed => if value.SealedValue? then Envelope(value.valueType, value.keyId, value.ciphertext) else Null
    case ValueBlind => if value.SealedValue? then OrNull(value.blind) else Null
    case _ => Null
  }

  function ValueOf(row: Row, column: Column): SqlValue {
    match column
    case EntityId => Text(row.entityId)
    case Attribute => Text(row.attribute)
    case EntityType => OrNull(row.entityType)
    case RecordedAt => Whole(row.recordedAt)
    case RecordedPosition => Whole(row.recordedPosition)
    case RetractedAt => if row.retractedAt.Some? then Whole(row.retractedAt.value) else Null
    case RetractedPosition => if row.retractedPosition.Some? then Whole(row.retractedPosition.value) else Null
    case ValidFrom => Whole(row.validFrom)
    case ValidTo => if row.validTo.Some? then Whole(row.validTo.value) else Null
    case _ => Packed(row.value, column)
  }

  // Positional binding

  function Marks(cond: Cond): nat {
    match cond
    case Compare(_, _, _) => 1
    case IsNull(_) => 0
    case In(_, choices) => |choices|
    case Or(left, right) => Marks(left) + Marks(right)
    case And(left, right) => Marks(left) + Marks(right)
  }

  function MarksAll(conds: seq<Cond>): nat {
    if conds == [] then 0 else MarksAll(conds[..|conds| - 1]) + Marks(conds[|conds| - 1])
  }

  function Numbers(first: nat, count: nat): (r: seq<Placeholder>)
    ensures |r| == count
    ensures forall i :: 0 <= i < count ==> r[i] == Numbered(first + i)
  {
    seq(count, i requires 0 <= i < count => Numbered(first + i))
  }

  /** The condition with its marks numbered from `first`, in the order written. */
  function Bind(cond: Cond, first: nat): Cond {
    match cond
    case Compare(column, comparison, _) => Compare(column, comparison, Numbered(first))
    case IsNull(_) => cond
    case In(column, choices) => In(column, Numbers(first, |choices|))
    case Or(left, right) => Or(Bind(left, first), Bind(right, first + Marks(left)))
    case And(left, right) => And(Bind(left, first), Bind(right, first + Marks(left)))
  }

  function BindAll(conds: seq<Cond>, first: nat): (r: seq<Cond>)
    ensures |r| == |conds|
  {
    if conds == [] then []
    else
      var n := |conds| - 1;
      BindAll(conds[..n], first) + [Bind(conds[n], first + MarksAll(conds[..n]))]
  }

  /** Conditions with one parameter per mark, in order. */
  datatype Clause = Clause(conds: seq<Cond>, params: seq<SqlValue>)
  {
    predicate Balanced() {
      MarksAll(conds) == |params|
    }
    predicate Selects(row: Row) {
      Accepts(BindAll(conds, 1), params, row)
    }
    function Join(other: Clause): Clause {
      Clause(conds + other.conds, params + other.params)
    }
  }

  const Empty := Clause([], [])

  lemma {:induction false} MarksAppend(a: seq<Cond>, b: seq<Cond>)
    ensures MarksAll(a + b) == MarksAll(a) + MarksAll(b)
  {
    if b == [] {
      assert a + b == a;
    } else {
      assert (a + b)[..|a + b| - 1] == a + b[..|b| - 1];
      MarksAppend(a, b[..|b| - 1]);
    }
  }

  lemma {:induction false} BindAppend(a: seq<Cond>, b: seq<Cond>, first: nat)
    ensures BindAll(a + b, first) == BindAll(a, first) + BindAll(b, first + MarksAll(a))
  {
    if b == [] {
      assert a + b == a;
    } else {
      var n := |b| - 1;
      assert (a + b)[..|a + b| - 1] == a + b[..n];
      BindAppend(a, b[..n], first);
      MarksAppend(a, b[..n]);
    }
  }

  // Evaluation looks only at the parameters a condition is bound to

  lemma {:induction false} SameChoices(value: SqlValue, a: seq<Placeholder>, b: seq<Placeholder>, p: seq<SqlValue>,
                                       q: seq<SqlValue>)
    requires |a| == |b| && forall i :: 0 <= i < |a| ==> Parameter(p, a[i]) == Parameter(q, b[i])
    ensures AmongChoices(value, a, p) == AmongChoices(value, b, q)
  {
    if a != [] { SameChoices(value, a[1..], b[1..], p, q); }
  }

  /** Parameters `first..` of `p` are parameters `second..` of `q`. */
  ghost predicate Agree(p: seq<SqlValue>, first: nat, q: seq<SqlValue>, second: nat, count: nat) {
    && 1 <= first && first + count <= |p| + 1 && 1 <= second && second + count <= |q| + 1
    && p[first - 1..first - 1 + count] == q[second - 1..second - 1 + count]
  }

  lemma SameAmong(value: SqlValue, count: nat, p: seq<SqlValue>, first: nat, q: seq<SqlValue>, second: nat)
    requires Agree(p, first, q, second, count)
    ensures AmongChoices(value, Numbers(first, count), p) == AmongChoices(value, Numbers(second, count), q)
  {
    forall i | 0 <= i < count
      ensures Parameter(p, Numbers(first, count)[i]) == Parameter(q, Numbers(second, count)[i])
    {
      AgreeAt(p, first, q, second, count, i);
    }
    SameChoices(value, Numbers(first, count), Numbers(second, count), p, q);
  }

  lemma SamePair(left: Cond, right: Cond, p: seq<SqlValue>, first: nat, q: seq<SqlValue>, second: nat, row: Row)
    requires Evaluate(Bind(left, first), p, row) == Evaluate(Bind(left, second), q, row)
    requires Evaluate(Bind(right, first + Marks(left)), p, row) == Evaluate(Bind(right, second + Marks(left)), q, row)
    ensures Evaluate(Bind(Or(left, right), first), p, row) == Evaluate(Bind(Or(left, right), second), q, row)
    ensures Evaluate(Bind(And(left, right), first), p, row) == Evaluate(Bind(And(left, right), second), q, row)
  {
  }

  lemma {:induction false} SameEvaluation(cond: Cond, p: seq<SqlValue>, first: nat, q: seq<SqlValue>, second: nat,
                                          row: Row)
    requires Agree(p, first, q, second, Marks(cond))
    ensures Evaluate(Bind(cond, first), p, row) == Evaluate(Bind(cond, second), q, row)
    decreases cond, 1
  {
    match cond
    case Compare(_, _, _) => AgreeAt(p, first, q, second, 1, 0);
    case IsNull(_) =>
    case In(column, choices) => SameAmong(ValueOf(row, column), |choices|, p, first, q, second);
    case Or(left, right) => SameParts(cond, left, right, p, first, q, second, row);
    case And(left, right) => SameParts(cond, left, right, p, first, q, second, row);
  }

  lemma {:induction false} SameParts(cond: Cond, left: Cond, right: Cond, p: seq<SqlValue>, first: nat,
                                     q: seq<SqlValue>, second: nat, row: Row)
    requires cond == Or(left, right) || cond == And(left, right)
    requires Agree(p, first, q, second, Marks(left) + Marks(right))
    ensures Evaluate(Bind(cond, first), p, row) == Evaluate(Bind(cond, second), q, row)
    decreases cond, 0
  {
    SplitAgree(p, first, q, second, Marks(left), Marks(right));
    SameEvaluation(left, p, first, q, second, row);
    SameEvaluation(right, p, first + Marks(left), q, second + Marks(left), row);
    SamePair(left, right, p, first, q, second, row);
  }

  lemma SplitAgree(p: seq<SqlValue>, first: nat, q: seq<SqlValue>, second: nat, m: nat, n: nat)
    requires Agree(p, first, q, second, m + n)
    ensures Agree(p, first, q, second, m) && Agree(p, first + m, q, second + m, n)
  {
    var whole := p[first - 1..first - 1 + m + n];
    assert whole == q[second - 1..second - 1 + m + n];
    assert p[first - 1..first - 1 + m] == whole[..m] == q[second - 1..second - 1 + m];
    assert p[first + m - 1..first + m - 1 + n] == whole[m..] == q[second + m - 1..second + m - 1 + n];
  }

  lemma AgreeAt(p: seq<SqlValue>, first: nat, q: seq<SqlValue>, second: nat, count: nat, i: nat)
    requires Agree(p, first, q, second, count) && i < count
    ensures p[first - 1 + i] == q[second - 1 + i]
  {
    assert p[first - 1 + i] == p[first - 1..first - 1 + count][i];
    assert q[second - 1 + i] == q[second - 1..second - 1 + count][i];
  }

  lemma {:induction false} SameAcceptance(conds: seq<Cond>, p: seq<SqlValue>, first: nat, q: seq<SqlValue>,
                                          second: nat, row: Row)
    requires Agree(p, first, q, second, MarksAll(conds))
    ensures Accepts(BindAll(conds, first), p, row) <==> Accepts(BindAll(conds, second), q, row)
  {
    if conds != [] {
      var n := |conds| - 1;
      var m := MarksAll(conds[..n]);
      SplitAgree(p, first, q, second, m, Marks(conds[n]));
      SameAcceptance(conds[..n], p, first, q, second, row);
      SameEvaluation(conds[n], p, first + m, q, second + m, row);
      AcceptsNext(BindAll(conds[..n], first), Bind(conds[n], first + m), p, row);
      AcceptsNext(BindAll(conds[..n], second), Bind(conds[n], second + m), q, row);
    }
  }

  lemma AcceptsNext(conds: seq<Cond>, last: Cond, params: seq<SqlValue>, row: Row)
    ensures Accepts(conds + [last], params, row) <==> Accepts(conds, params, row) && Evaluate(last, params, row).True?
  {
    AcceptsAppend(conds, [last], params, row);
    AcceptsOne(last, params, row);
  }

  lemma AcceptsOne(cond: Cond, params: seq<SqlValue>, row: Row)
    ensures Accepts([cond], params, row) <==> Evaluate(cond, params, row).True?
  {
    assert [cond][0] == cond;
  }

  lemma AcceptsAppend(a: seq<Cond>, b: seq<Cond>, params: seq<SqlValue>, row: Row)
    ensures Accepts(a + b, params, row) <==> Accepts(a, params, row) && Accepts(b, params, row)
  {
    if Accepts(a + b, params, row) {
      forall i | 0 <= i < |a| ensures Evaluate(a[i], params, row).True? { assert (a + b)[i] == a[i]; }
      forall i | 0 <= i < |b| ensures Evaluate(b[i], params, row).True? { assert (a + b)[|a| + i] == b[i]; }
    }
  }

  /** Joined clauses accept what both accept: each mark still takes its own parameter. */
  lemma JoinAccepts(a: Clause, b: Clause, row: Row)
    requires a.Balanced() && b.Balanced()
    ensures a.Join(b).Balanced()
    ensures a.Join(b).Selects(row) <==> a.Selects(row) && b.Selects(row)
  {
    MarksAppend(a.conds, b.conds);
    BindAppend(a.conds, b.conds, 1);
    var all := a.params + b.params;
    AcceptsAppend(BindAll(a.conds, 1), BindAll(b.conds, 1 + |a.params|), all, row);
    SameAcceptance(a.conds, all, 1, a.params, 1, row);
    SameAcceptance(b.conds, all, 1 + |a.params|, b.params, 1, row);
  }

  // The temporal part

  function NullOrLater(column: Column): Cond {
    Or(IsNull(column), Compare(column, MoreThan, Next))
  }

  function RecordedClause(basis: Basis): Clause {
    match (basis.recordedPosition, basis.recordedAt)
    case (Some(p), None) =>
      Clause([Compare(RecordedPosition, AtMost, Next), NullOrLater(RetractedPosition)], [Whole(p), Whole(p)])
    case (Some(p), Some(a)) =>
      Clause([Compare(RecordedPosition, AtMost, Next), Compare(RecordedAt, AtMost, Next),
              BothCutsMark()],
             [Whole(p), Whole(a), Whole(p), Whole(a)])
    case (None, Some(a)) =>
      Clause([Compare(RecordedAt, AtMost, Next), NullOrLater(RetractedAt)], [Whole(a), Whole(a)])
    case (None, None) =>
      Clause([IsNull(RetractedAt)], [])
  }

  function ValidClause(at: Instant): Clause {
    Clause([Compare(ValidFrom, AtMost, Next), NullOrLater(ValidTo)], [Whole(at), Whole(at)])
  }

  function TemporalClause(basis: Option<Basis>): Clause {
    if basis.None? then Clause([IsNull(RetractedAt)], [])
    else RecordedClause(basis.value).Join(ValidClause(basis.value.validAt))
  }

  /** Without a basis every unretracted row shows, whatever its valid time. */
  predicate Shows(row: Row, basis: Option<Basis>) {
    if basis.None? then row.retractedAt.None? else Visible(row, basis.value)
  }

  lemma OneCondition(cond: Cond, params: seq<SqlValue>, row: Row)
    requires Marks(cond) == |params|
    ensures Clause([cond], params).Balanced()
    ensures Clause([cond], params).Selects(row) <==> Evaluate(Bind(cond, 1), params, row).True?
  {
    assert [cond][..0] == [];
    assert MarksAll([cond]) == Marks(cond);
    assert BindAll([cond], 1) == [Bind(cond, 1)];
    AcceptsOne(Bind(cond, 1), params, row);
  }

  lemma TwoConditions(c: Cond, d: Cond, p: seq<SqlValue>, q: seq<SqlValue>, row: Row)
    requires Marks(c) == |p| && Marks(d) == |q|
    ensures Clause([c, d], p + q).Balanced()
    ensures Clause([c, d], p + q).Selects(row) <==>
            Evaluate(Bind(c, 1), p, row).True? && Evaluate(Bind(d, 1), q, row).True?
  {
    OneCondition(c, p, row);
    OneCondition(d, q, row);
    JoinAccepts(Clause([c], p), Clause([d], q), row);
    assert [c] + [d] == [c, d];
  }

  lemma NullOrLaterMeans(column: Column, bound: int, row: Row)
    ensures Evaluate(Bind(NullOrLater(column), 1), [Whole(bound)], row).True? <==>
            ValueOf(row, column).Null? || (ValueOf(row, column).Whole? && ValueOf(row, column).number > bound)
  {
  }

  function BothCutsMark(): Cond {
    Or(NullOrLater(RetractedPosition), Compare(RetractedAt, MoreThan, Next))
  }

  lemma BothCutsMarkMeans(p: nat, a: Instant, row: Row)
    requires PairedRow(row)
    ensures Evaluate(Bind(BothCutsMark(), 1), [Whole(p), Whole(a)], row).True? <==> !RetractedBy(row, Some(a), Some(p))
  {
    var params := [Whole(p), Whole(a)];
    var isNull := IsNull(RetractedPosition);
    var later := Compare(RetractedPosition, MoreThan, Numbered(1));
    var laterAt := Compare(RetractedAt, MoreThan, Numbered(2));
    assert Bind(NullOrLater(RetractedPosition), 1) == Or(isNull, later);
    assert Bind(BothCutsMark(), 1) == Or(Or(isNull, later), laterAt);
    assert Parameter(params, Numbered(1)) == Whole(p) && Parameter(params, Numbered(2)) == Whole(a);
    assert Evaluate(Or(isNull, later), params, row).True? <==>
      row.retractedPosition.None? || row.retractedPosition.value > p;
    assert Evaluate(laterAt, params, row).True? <==> row.retractedAt.Some? && row.retractedAt.value > a;
  }

  lemma BothCutsClause(p: nat, a: Instant, validAt: Instant, row: Row)
    requires PairedRow(row)
    ensures RecordedClause(Basis(Some(a), Some(p), validAt)).Balanced()
    ensures RecordedClause(Basis(Some(a), Some(p), validAt)).Selects(row) <==>
            Live(row, Basis(Some(a), Some(p), validAt))
  {
    var c := Compare(RecordedPosition, AtMost, Next);
    var d := Compare(RecordedAt, AtMost, Next);
    TwoConditions(c, d, [Whole(p)], [Whole(a)], row);
    OneCondition(BothCutsMark(), [Whole(p), Whole(a)], row);
    BothCutsMarkMeans(p, a, row);
    JoinAccepts(Clause([c, d], [Whole(p)] + [Whole(a)]), Clause([BothCutsMark()], [Whole(p), Whole(a)]), row);
    assert [c, d] + [BothCutsMark()] == [c, d, BothCutsMark()];
    assert [Whole(p)] + [Whole(a)] + [Whole(p), Whole(a)] == [Whole(p), Whole(a), Whole(p), Whole(a)];
  }

  lemma PositionClause(p: nat, validAt: Instant, row: Row)
    requires PairedRow(row)
    ensures RecordedClause(Basis(None, Some(p), validAt)).Balanced()
    ensures RecordedClause(Basis(None, Some(p), validAt)).Selects(row) <==> Live(row, Basis(None, Some(p), validAt))
  {
    TwoConditions(Compare(RecordedPosition, AtMost, Next), NullOrLater(RetractedPosition), [Whole(p)], [Whole(p)], row);
    NullOrLaterMeans(RetractedPosition, p, row);
    assert [Whole(p)] + [Whole(p)] == [Whole(p), Whole(p)];
  }

  lemma InstantClause(a: Instant, validAt: Instant, row: Row)
    requires PairedRow(row)
    ensures RecordedClause(Basis(Some(a), None, validAt)).Balanced()
    ensures RecordedClause(Basis(Some(a), None, validAt)).Selects(row) <==> Live(row, Basis(Some(a), None, validAt))
  {
    TwoConditions(Compare(RecordedAt, AtMost, Next), NullOrLater(RetractedAt), [Whole(a)], [Whole(a)], row);
    NullOrLaterMeans(RetractedAt, a, row);
    assert [Whole(a)] + [Whole(a)] == [Whole(a), Whole(a)];
  }

  lemma ValidClauseMeans(at: Instant, row: Row)
    ensures ValidClause(at).Balanced()
    ensures ValidClause(at).Selects(row) <==> ValidAt(row.validFrom, row.validTo, at)
  {
    TwoConditions(Compare(ValidFrom, AtMost, Next), NullOrLater(ValidTo), [Whole(at)], [Whole(at)], row);
    NullOrLaterMeans(ValidTo, at, row);
    assert [Whole(at)] + [Whole(at)] == [Whole(at), Whole(at)];
  }

  lemma RecordedClauseMeans(basis: Basis, row: Row)
    requires PairedRow(row)
    ensures RecordedClause(basis).Balanced()
    ensures RecordedClause(basis).Selects(row) <==> Live(row, basis)
  {
    match (basis.recordedPosition, basis.recordedAt)
    case (Some(p), None) => PositionClause(p, basis.validAt, row);
    case (Some(p), Some(a)) => BothCutsClause(p, a, basis.validAt, row);
    case (None, Some(a)) => InstantClause(a, basis.validAt, row);
    case (None, None) => OneCondition(IsNull(RetractedAt), [], row);
  }

  /** The temporal conditions accept exactly the bitemporally visible rows. */
  lemma TemporalClauseMeans(basis: Option<Basis>, row: Row)
    requires PairedRow(row)
    ensures TemporalClause(basis).Balanced()
    ensures TemporalClause(basis).Selects(row) <==> Shows(row, basis)
  {
    if basis.None? {
      OneCondition(IsNull(RetractedAt), [], row);
    } else {
      var at := basis.value.validAt;
      RecordedClauseMeans(basis.value, row);
      ValidClauseMeans(at, row);
      JoinAccepts(RecordedClause(basis.value), ValidClause(at), row);
    }
  }

  // The pattern part

  datatype Term = Absent | Variable | Exactly(text: string)

  datatype ValueTerm = AnyValue | ValueVariable | ExactlyValue(value: Value)

  datatype QueryPattern = QueryPattern(entityId: Term, attribute: Term, entityType: Option<string>, value: ValueTerm)

  /** An absent, variable or empty term constrains nothing. */
  function TermClause(column: Column, term: Term): Clause {
    if term.Exactly? && term.text != "" then Clause([Compare(column, Equals, Next)], [Text(term.text)]) else Empty
  }

  predicate TermMatches(term: Term, text: string) {
    term.Exactly? && term.text != "" ==> text == term.text
  }

  function TypeClause(entityType: Option<string>): Clause {
    if entityType.Some? && entityType.value != ""
    then Clause([Compare(EntityType, Equals, Next)], [Text(entityType.value)]) else Empty
  }

  predicate TypeMatches(wanted: Option<string>, stored: Option<string>) {
    wanted.Some? && wanted.value != "" ==> stored == wanted
  }

  /** The condition on the column that holds the value; the dialects differ on blobs. */
  function ContentClause(value: Value, blobByHash: bool): Clause {
    match value
    case StringValue(text) => Clause([Compare(ValueString, Equals, Next)], [Text(text)])
    case RefValue(target) => Clause([Compare(ValueString, Equals, Next)], [Text(target)])
    case NumberValue(number) => Clause([Compare(ValueNumber, Equals, Next)], [Float(number)])
    case BooleanValue(flag) => Clause([Compare(ValueBoolean, Equals, Next)], [Whole(if flag then 1 else 0)])
    case DateTimeValue(instant) => Clause([Compare(ValueDatetime, Equals, Next)], [Whole(instant)])
    case JsonValue(_) => Empty
    case BlobValue(hash, _, _, _) =>
      if blobByHash then Clause([Compare(ValueString, Equals, Next)], [Text(hash)]) else Empty
    case SealedValue(valueType, keyId, ciphertext, blind) =>
      if blind.Some? then Clause([Compare(ValueBlind, Equals, Next)], [Text(blind.value)])
      else Clause([And(IsNull(ValueBlind), Compare(ValueSealed, Equals, Next))],
                  [Envelope(valueType, keyId, ciphertext)])
  }

  predicate ContentMatches(wanted: Value, stored: Value, blobByHash: bool) {
    match wanted
    case JsonValue(_) => stored.JsonValue?
    case BlobValue(hash, _, _, _) => stored.BlobValue? && (blobByHash ==> stored.hash == hash)
    case SealedValue(_, _, _, Some(token)) => stored.SealedValue? && stored.blind == Some(token)
    case _ => stored == wanted
  }

  function ValueClause(term: ValueTerm, blobByHash: bool): Clause {
    if !term.ExactlyValue? then Empty
    else Clause([Compare(ValueType, Equals, Next)],
                [Text(TypeName(term.value))]).Join(ContentClause(term.value, blobByHash))
  }

  predicate ValueMatches(term: ValueTerm, stored: Value, blobByHash: bool) {
    term.ExactlyValue? ==> ContentMatches(term.value, stored, blobByHash)
  }

  function QueryClause(pattern: QueryPattern, basis: Option<Basis>, blobByHash: bool): Clause {
    TemporalClause(basis).Join(TermClause(EntityId, pattern.entityId)).Join(TermClause(Attribute, pattern.attribute))
      .Join(TypeClause(pattern.entityType)).Join(ValueClause(pattern.value, blobByHash))
  }

  predicate QueryMatches(row: Row, pattern: QueryPattern, basis: Option<Basis>, blobByHash: bool) {
    && Shows(row, basis)
    && TermMatches(pattern.entityId, row.entityId) && TermMatches(pattern.attribute, row.attribute)
    && TypeMatches(pattern.entityType, row.entityType)
    && ValueMatches(pattern.value, row.value, blobByHash)
  }

  lemma EmptyAccepts(row: Row)
    ensures Empty.Balanced() && Empty.Selects(row)
  {
  }

  lemma EqualityMeans(column: Column, value: SqlValue, row: Row)
    requires !value.Null?
    ensures Clause([Compare(column, Equals, Next)], [value]).Balanced()
    ensures Clause([Compare(column, Equals, Next)], [value]).Selects(row) <==> ValueOf(row, column) == value
  {
    OneCondition(Compare(column, Equals, Next), [value], row);
  }

  lemma TypeNameInjective(a: Value, b: Value)
    requires TypeName(a) == TypeName(b)
    ensures a.StringValue? == b.StringValue? && a.NumberValue? == b.NumberValue? && a.BooleanValue? == b.BooleanValue?
    ensures a.DateTimeValue? == b.DateTimeValue? && a.RefValue? == b.RefValue? && a.JsonValue? == b.JsonValue?
    ensures a.BlobValue? == b.BlobValue? && a.SealedValue? == b.SealedValue?
  {
    var t := TypeName(a);
    assert |t| == 6 || |t| == 7 || |t| == 8 || |t| == 3 || |t| == 4;
    assert t[0] == TypeName(b)[0];
  }

  lemma SealedClauseMeans(value: Value, blobByHash: bool, row: Row)
    requires value.SealedValue? && row.value.SealedValue?
    ensures ContentClause(value, blobByHash).Balanced()
    ensures ContentClause(value, blobByHash).Selects(row) <==> ContentMatches(value, row.value, blobByHash)
  {
    if value.blind.Some? {
      EqualityMeans(ValueBlind, Text(value.blind.value), row);
    } else {
      OneCondition(And(IsNull(ValueBlind), Compare(ValueSealed, Equals, Next)),
                   [Envelope(value.valueType, value.keyId, value.ciphertext)], row);
    }
  }

  lemma ContentClauseMeans(value: Value, blobByHash: bool, row: Row)
    requires TypeName(row.value) == TypeName(value)
    ensures ContentClause(value, blobByHash).Balanced()
    ensures ContentClause(value, blobByHash).Selects(row) <==> ContentMatches(value, row.value, blobByHash)
  {
    TypeNameInjective(row.value, value);
    EmptyAccepts(row);
    match value
    case StringValue(text) => EqualityMeans(ValueString, Text(text), row);
    case RefValue(target) => EqualityMeans(ValueString, Text(target), row);
    case NumberValue(number) => EqualityMeans(ValueNumber, Float(number), row);
    case BooleanValue(flag) => EqualityMeans(ValueBoolean, Whole(if flag then 1 else 0), row);
    case DateTimeValue(instant) => EqualityMeans(ValueDatetime, Whole(instant), row);
    case JsonValue(_) =>
    case BlobValue(hash, _, _, _) => EqualityMeans(ValueString, Text(hash), row);
    case SealedValue(_, _, _, _) => SealedClauseMeans(value, blobByHash, row);
  }

  lemma ContentClauseBalanced(value: Value, blobByHash: bool)
    ensures ContentClause(value, blobByHash).Balanced()
  {
    var c := ContentClause(value, blobByHash);
    if c.conds != [] {
      assert c.conds[..0] == [];
      assert MarksAll(c.conds) == Marks(c.conds[0]);
    }
  }

  lemma ValueClauseMeans(term: ValueTerm, blobByHash: bool, row: Row)
    ensures ValueClause(term, blobByHash).Balanced()
    ensures ValueClause(term, blobByHash).Selects(row) <==> ValueMatches(term, row.value, blobByHash)
  {
    EmptyAccepts(row);
    if term.ExactlyValue? {
      var typed := Clause([Compare(ValueType, Equals, Next)], [Text(TypeName(term.value))]);
      EqualityMeans(ValueType, Text(TypeName(term.value)), row);
      ContentClauseBalanced(term.value, blobByHash);
      JoinAccepts(typed, ContentClause(term.value, blobByHash), row);
      if TypeName(row.value) == TypeName(term.value) {
        ContentClauseMeans(term.value, blobByHash, row);
      }
    }
  }

  lemma TermClauseMeans(column: Column, term: Term, row: Row)
    requires column == EntityId || column == Attribute
    ensures TermClause(column, term).Balanced()
    ensures TermClause(column, term).Selects(row) <==>
            TermMatches(term, if column == EntityId then row.entityId else row.attribute)
  {
    EmptyAccepts(row);
    if term.Exactly? { EqualityMeans(column, Text(term.text), row); }
  }

  lemma TypeClauseMeans(entityType: Option<string>, row: Row)
    ensures TypeClause(entityType).Balanced()
    ensures TypeClause(entityType).Selects(row) <==> TypeMatches(entityType, row.entityType)
  {
    EmptyAccepts(row);
    if entityType.Some? { EqualityMeans(EntityType, Text(entityType.value), row); }
  }

  /** A query accepts exactly the rows that its basis shows and its pattern matches. */
  lemma QueryClauseMeans(pattern: QueryPattern, basis: Option<Basis>, blobByHash: bool, row: Row)
    requires PairedRow(row)
    ensures QueryClause(pattern, basis, blobByHash).Balanced()
    ensures QueryClause(pattern, basis, blobByHash).Selects(row) <==> QueryMatches(row, pattern, basis, blobByHash)
  {
    TemporalClauseMeans(basis, row);
    TermClauseMeans(EntityId, pattern.entityId, row);
    TermClauseMeans(Attribute, pattern.attribute, row);
    TypeClauseMeans(pattern.entityType, row);
    ValueClauseMeans(pattern.value, blobByHash, row);
    var a := TemporalClause(basis);
    var b := a.Join(TermClause(EntityId, pattern.entityId));
    var c := b.Join(TermClause(Attribute, pattern.attribute));
    var d := c.Join(TypeClause(pattern.entityType));
    JoinAccepts(a, TermClause(EntityId, pattern.entityId), row);
    JoinAccepts(b, TermClause(Attribute, pattern.attribute), row);
    JoinAccepts(c, TypeClause(pattern.entityType), row);
    JoinAccepts(d, ValueClause(pattern.value, blobByHash), row);
  }
}
