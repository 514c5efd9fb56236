/** Where the projection and the commit part: operations that no request decodes to,
    and texts that are there but empty. */
module ConstraintEscapes {
  import opened Facts
  import opened Constraint
  import opened ConstraintEvaluation
  import opened ConstraintEnforcement
  import opened ConstraintSlice
  import opened ConstraintCommit
  import opened ConstraintTransact
  import opened ConstraintRuns
  import FactTable
  import Text

  // Retracting a pending id, which only an unvalidated caller inside the process can

  predicate Removes(op: Op, f: Triple) {
    (op.Retract? && op.id == f.id) || (op.RetractPattern? && PatternMatches(f, op.pattern))
  }

  ghost predicate FreshNames(store: seq<Triple>, ops: seq<Op>, name: nat -> string) {
    && (forall j :: 0 <= j < |ops| && ops[j].Assert? ==> name(j) !in Ids(store))
    && (forall i, j :: 0 <= i < j < |ops| && ops[i].Assert? && ops[j].Assert? ==> name(i) != name(j))
  }

  lemma OpKeeps(facts: seq<Triple>, op: Op, id: string, instant: Instant, f: Triple)
    requires op.Assert? ==> NewFact(op, id, instant) != f
    ensures f in ApplyOp(facts, op, id, instant) <==> f in facts && !Removes(op, f)
  {
  }

  ghost predicate RemovedLater(ops: seq<Op>, j: nat, f: Triple) {
    exists k :: j < k < |ops| && Removes(ops[k], f)
  }

  lemma RemovedLaterNext(ops: seq<Op>, j: nat, f: Triple)
    requires j < |ops| - 1
    ensures RemovedLater(ops, j, f) <==> RemovedLater(ops[..|ops| - 1], j, f) || Removes(ops[|ops| - 1], f)
  {
    var n := |ops| - 1;
    assert forall k | 0 <= k < n :: ops[..n][k] == ops[k];
  }

  /** A new fact is there at the end just when no later operation removes it. */
  lemma {:induction false} NewFactKept(store: seq<Triple>, ops: seq<Op>, instant: Instant, name: nat -> string, j: nat)
    requires j < |ops| && ops[j].Assert? && FreshNames(store, ops, name)
    ensures NewFact(ops[j], name(j), instant) in ApplyOps(store, ops, instant, name) <==>
            !RemovedLater(ops, j, NewFact(ops[j], name(j), instant))
  {
    var n := |ops| - 1;
    var f := NewFact(ops[j], name(j), instant);
    if j == n {
      assert f in ApplyOps(store, ops, instant, name);
    } else {
      NewFactKept(store, ops[..n], instant, name, j);
      RemovedLaterNext(ops, j, f);
      OpKeeps(ApplyOps(store, ops[..n], instant, name), ops[n], name(n), instant, f);
    }
  }

  lemma PendingNamesFresh(store: seq<Triple>, ops: seq<Op>)
    requires forall j :: 0 <= j < |ops| ==> PendingId(j) !in Ids(store)
    ensures FreshNames(store, ops, PendingId)
  {
    forall i, j | 0 <= i < j < |ops| ensures PendingId(i) != PendingId(j) {
      if PendingId(i) == PendingId(j) {
        var prefix := "constraint-pending-";
        assert Text.Decimal(i) == PendingId(i)[|prefix|..] == PendingId(j)[|prefix|..] == Text.Decimal(j);
        Text.DecimalInjective(i, j);
      }
    }
  }

  /** The ids the commit draws have the form of fact ids and are new. */
  ghost predicate Draws(store: seq<Triple>, ops: seq<Op>, ids: nat -> string) {
    && FreshNames(store, ops, ids) && LeavesNewFacts(ops, ids)
    && forall j :: 0 <= j < |ops| && ops[j].Assert? ==> IsTripleId(ids(j))
  }

  /** No stored fact carries a pending id. */
  ghost predicate NoPendingIds(store: seq<Triple>, ops: seq<Op>) {
    forall j :: 0 <= j < |ops| ==> PendingId(j) !in Ids(store)
  }

  ghost predicate Retracted(ops: seq<Op>, j: nat) {
    exists k :: j < k < |ops| && ops[k] == Op.Retract(PendingId(j))
  }

  ghost predicate PatternRemoves(tx: Transaction, j: nat)
    requires j < |tx.ops| && tx.ops[j].Assert?
  {
    exists k :: j < k < |tx.ops| && tx.ops[k].RetractPattern?
        && PatternMatches(NewFact(tx.ops[j], tx.ids(j), tx.instant), tx.ops[k].pattern)
  }

  /** The projection and the commit agree on a new fact just when a retraction of
      its pending id, if there is one, comes with a pattern that removes it too. */
  lemma ProjectionAgreesOnNewFact(store: seq<Triple>, tx: Transaction, j: nat)
    requires j < |tx.ops| && tx.ops[j].Assert?
    requires Draws(store, tx.ops, tx.ids) && NoPendingIds(store, tx.ops)
    ensures var pending := NewFact(tx.ops[j], PendingId(j), tx.instant);
            var written := NewFact(tx.ops[j], tx.ids(j), tx.instant);
            (pending in Projection(store, tx.ops, tx.instant) <==> written in CommittedFacts(store, tx)) <==>
            (Retracted(tx.ops, j) ==> PatternRemoves(tx, j))
  {
    var pending := NewFact(tx.ops[j], PendingId(j), tx.instant);
    var written := NewFact(tx.ops[j], tx.ids(j), tx.instant);
    PendingNamesFresh(store, tx.ops);
    NewFactKept(store, tx.ops, tx.instant, PendingId, j);
    NewFactKept(store, tx.ops, tx.instant, tx.ids, j);
    assert Anonymous(pending) == Anonymous(written);
    forall p ensures PatternMatches(pending, p) == PatternMatches(written, p) {
      assert PatternMatches(pending, p) == PatternMatches(Anonymous(pending), p);
      assert PatternMatches(written, p) == PatternMatches(Anonymous(written), p);
    }
    forall k | j < k < |tx.ops|
      ensures Removes(tx.ops[k], pending) <==> (tx.ops[k] == Retract(PendingId(j)) || Removes(tx.ops[k], written))
      ensures Removes(tx.ops[k], written) <==> (tx.ops[k].RetractPattern? && PatternMatches(written, tx.ops[k].pattern))
    {
    }
  }

  /** An earlier operation's fact whose pending id a later one retracts. */
  ghost predicate Dropped(ops: seq<Op>, ids: nat -> string, id: string) {
    exists j, k :: 0 <= j < k < |ops| && ops[j].Assert? && ops[k] == Op.Retract(PendingId(j)) && ids(j) == id
  }

  ghost function Undropped(ops: seq<Op>, ids: nat -> string): Triple -> bool {
    (f: Triple) => !Dropped(ops, ids, f.id)
  }

  lemma DroppedNext(ops: seq<Op>, op: Op, ids: nat -> string, id: string)
    ensures Dropped(ops + [op], ids, id) <==>
            Dropped(ops, ids, id) ||
            exists j :: 0 <= j < |ops| && ops[j].Assert? && op == Op.Retract(PendingId(j)) && ids(j) == id
  {
    var all := ops + [op];
    if Dropped(ops, ids, id) {
      var j, k :| 0 <= j < k < |ops| && ops[j].Assert? && ops[k] == Op.Retract(PendingId(j)) && ids(j) == id;
      assert all[j] == ops[j] && all[k] == ops[k];
    }
    if j :| 0 <= j < |ops| && ops[j].Assert? && op == Op.Retract(PendingId(j)) && ids(j) == id {
      assert all[j] == ops[j] && all[|ops|] == op;
    }
  }

  /** Where a fact of the projection comes from. */
  lemma ProjectedId(store: seq<Triple>, ops: seq<Op>, instant: Instant, f: Triple)
    requires f in ApplyOps(store, ops, instant, PendingId)
    ensures f.id in Ids(store) || !IsTripleId(f.id)
  {
    AppliedIds(store, ops, instant, PendingId, f);
    if f !in store {
      var i :| 0 <= i < |ops| && ops[i].Assert? && f.id == PendingId(i);
      PendingIsNoTripleId(i);
    }
  }

  lemma DrawsPrefix(store: seq<Triple>, ops: seq<Op>, op: Op, ids: nat -> string)
    requires Draws(store, ops + [op], ids)
    ensures Draws(store, ops, ids)
  {
    assert forall i | 0 <= i < |ops| :: (ops + [op])[i] == ops[i];
  }

  lemma RetractedPair(store: seq<Triple>, ops: seq<Op>, gone: string, instant: Instant, ids: nat -> string, p: Triple,
                      q: Triple)
    requires Draws(store, ops + [Op.Retract(gone)], ids) && p in ApplyOps(store, ops, instant, PendingId)
    requires Corresponds(p, q, ops, PendingId, ids) && !Dropped(ops, ids, q.id)
    ensures p.id != gone <==> q.id != gone && !Dropped(ops + [Op.Retract(gone)], ids, q.id)
  {
    var all := ops + [Op.Retract(gone)];
    DroppedNext(ops, Op.Retract(gone), ids, q.id);
    assert all[|ops|] == Op.Retract(gone) && forall i | 0 <= i < |ops| :: all[i] == ops[i];
    if p.id == q.id {
      ProjectedId(store, ops, instant, p);
      assert forall j | 0 <= j < |ops| && ops[j].Assert? :: ids(j) != q.id;
    } else {
      var i :| 0 <= i < |ops| && ops[i].Assert? && p.id == PendingId(i) && q.id == ids(i);
      assert all[i].Assert? && q.id != gone;
      forall j | 0 <= j < |ops| && ops[j].Assert? && ids(j) == q.id ensures j == i {
        assert all[j].Assert? && all[i].Assert?;
      }
    }
  }

  lemma ThinsRetract(store: seq<Triple>, ops: seq<Op>, gone: string, instant: Instant, ids: nat -> string,
                     p: seq<Triple>, c: seq<Triple>)
    requires Draws(store, ops + [Op.Retract(gone)], ids)
    requires p == ApplyOps(store, ops, instant, PendingId) && c == ApplyOps(store, ops, instant, ids)
    requires Renamed(p, Filter(c, Undropped(ops, ids)), ops, PendingId, ids)
    ensures Renamed(Filter(p, (f: Triple) => f.id != gone),
                    Filter(Filter(c, (f: Triple) => f.id != gone), Undropped(ops + [Op.Retract(gone)], ids)), ops,
                    PendingId, ids)
  {
    var op := Op.Retract(gone);
    var before, after := Undropped(ops, ids), Undropped(ops + [op], ids);
    var other := (f: Triple) => f.id != gone;
    ghost var both := (f: Triple) => f.id != gone && after(f);
    var q := Filter(c, before);
    forall f ensures after(f) ==> before(f) {
      DroppedNext(ops, op, ids, f.id);
    }
    FilterTwice(c, other, after, both);
    FilterTwice(c, before, both, both);
    forall i | 0 <= i < |p| ensures other(p[i]) == both(q[i]) {
      assert p[i] in p && q[i] in q && Corresponds(p[i], q[i], ops, PendingId, ids);
      RetractedPair(store, ops, gone, instant, ids, p[i], q[i]);
    }
    FilterRenamed(p, q, ops, PendingId, ids, other, both);
  }

  lemma FilterSwap(c: seq<Triple>, p: Triple -> bool, q: Triple -> bool)
    ensures Filter(Filter(c, p), q) == Filter(Filter(c, q), p)
  {
    var both := (f: Triple) => p(f) && q(f);
    FilterTwice(c, p, q, both);
    FilterTwice(c, q, p, both);
  }

  lemma SameUndropped(ops: seq<Op>, op: Op, ids: nat -> string, c: seq<Triple>)
    requires !op.Retract?
    ensures Filter(c, Undropped(ops + [op], ids)) == Filter(c, Undropped(ops, ids))
  {
    forall f | f in c ensures Undropped(ops + [op], ids)(f) == Undropped(ops, ids)(f) {
      DroppedNext(ops, op, ids, f.id);
    }
    FilterSamePredicate(c, Undropped(ops + [op], ids), Undropped(ops, ids));
  }

  lemma ThinsPattern(ops: seq<Op>, pattern: Pattern, ids: nat -> string, p: seq<Triple>, c: seq<Triple>)
    requires Renamed(p, Filter(c, Undropped(ops, ids)), ops, PendingId, ids)
    ensures var kept := (f: Triple) => !PatternMatches(f, pattern);
      Renamed(Filter(p, kept), Filter(Filter(c, kept), Undropped(ops + [RetractPattern(pattern)], ids)), ops,
              PendingId, ids)
  {
    var kept := (f: Triple) => !PatternMatches(f, pattern);
    SameUndropped(ops, RetractPattern(pattern), ids, Filter(c, kept));
    FilterSwap(c, kept, Undropped(ops, ids));
    PatternRenamed(p, Filter(c, Undropped(ops, ids)), ops, pattern, PendingId, ids);
  }

  lemma ThinsAssert(store: seq<Triple>, ops: seq<Op>, op: Op, instant: Instant, ids: nat -> string, p: seq<Triple>,
                    c: seq<Triple>)
    requires op.Assert? && Draws(store, ops + [op], ids)
    requires Renamed(p, Filter(c, Undropped(ops, ids)), ops, PendingId, ids)
    ensures Renamed(p + [NewFact(op, PendingId(|ops|), instant)],
                    Filter(c + [NewFact(op, ids(|ops|), instant)], Undropped(ops + [op], ids)), ops + [op], PendingId,
                    ids)
  {
    var before, after := Undropped(ops, ids), Undropped(ops + [op], ids);
    var n, all := |ops|, ops + [op];
    var written := NewFact(op, ids(n), instant);
    forall f ensures after(f) == before(f) {
      DroppedNext(ops, op, ids, f.id);
    }
    assert all[n] == op && forall i | 0 <= i < n :: all[i] == ops[i];
    assert before(written);
    FilterAppend(c, [written], after);
    FilterSamePredicate(c, before, after);
    FilterAll([written], after);
    LongerRenamed(p, Filter(c, before), ops, op, PendingId, ids);
    assert Corresponds(NewFact(op, PendingId(n), instant), written, all, PendingId, ids);
  }

  lemma ThinsNext(store: seq<Triple>, ops: seq<Op>, op: Op, instant: Instant, ids: nat -> string, p: seq<Triple>,
                  c: seq<Triple>)
    requires Draws(store, ops + [op], ids)
    requires p == ApplyOps(store, ops, instant, PendingId) && c == ApplyOps(store, ops, instant, ids)
    requires Renamed(p, Filter(c, Undropped(ops, ids)), ops, PendingId, ids)
    ensures Renamed(ApplyOp(p, op, PendingId(|ops|), instant),
                    Filter(ApplyOp(c, op, ids(|ops|), instant), Undropped(ops + [op], ids)), ops + [op], PendingId, ids)
  {
    match op
    case Assert(_, _, _, _, _, _) => ThinsAssert(store, ops, op, instant, ids, p, c);
    case Retract(gone) =>
      ThinsRetract(store, ops, gone, instant, ids, p, c);
      LongerRenamed(ApplyOp(p, op, "", instant), Filter(ApplyOp(c, op, "", instant), Undropped(ops + [op], ids)), ops,
                    op, PendingId, ids);
    case RetractPattern(pattern) =>
      ThinsPattern(ops, pattern, ids, p, c);
      LongerRenamed(ApplyOp(p, op, "", instant), Filter(ApplyOp(c, op, "", instant), Undropped(ops + [op], ids)), ops,
                    op, PendingId, ids);
  }

  /** The projection is the commit without the facts it drops. */
  lemma {:induction false} ProjectionThins(store: seq<Triple>, ops: seq<Op>, instant: Instant, ids: nat -> string)
    requires Draws(store, ops, ids)
    ensures Renamed(ApplyOps(store, ops, instant, PendingId),
                    Filter(ApplyOps(store, ops, instant, ids), Undropped(ops, ids)),
                    ops, PendingId, ids)
  {
    if ops == [] {
      FilterAll(store, Undropped(ops, ids));
    } else {
      var n := |ops| - 1;
      var earlier, op := ops[..n], ops[n];
      assert ops == earlier + [op];
      DrawsPrefix(store, earlier, op, ids);
      ProjectionThins(store, earlier, instant, ids);
      ThinsNext(store, earlier, op, instant, ids, ApplyOps(store, earlier, instant, PendingId),
                ApplyOps(store, earlier, instant, ids));
    }
  }

  lemma {:induction false} FilterWhole<T(!new)>(s: seq<T>, keep: T -> bool)
    requires |Filter(s, keep)| == |s|
    ensures forall x | x in s :: keep(x)
  {
    if s != [] {
      FilterWhole(s[1..], keep);
    }
  }

  /** Every new fact whose pending id is retracted is removed by a pattern as well. */
  ghost predicate DropsOnlyRemoved(tx: Transaction) {
    forall j :: 0 <= j < |tx.ops| && tx.ops[j].Assert? && Retracted(tx.ops, j) ==> PatternRemoves(tx, j)
  }

  lemma WrittenKept(store: seq<Triple>, tx: Transaction, j: nat)
    requires Draws(store, tx.ops, tx.ids) && j < |tx.ops| && tx.ops[j].Assert?
    ensures NewFact(tx.ops[j], tx.ids(j), tx.instant) in CommittedFacts(store, tx) <==> !PatternRemoves(tx, j)
  {
    var written := NewFact(tx.ops[j], tx.ids(j), tx.instant);
    NewFactKept(store, tx.ops, tx.instant, tx.ids, j);
    forall k | j < k < |tx.ops|
      ensures Removes(tx.ops[k], written) <==> (tx.ops[k].RetractPattern? && PatternMatches(written, tx.ops[k].pattern))
    {
    }
  }

  /** A committed fact that the projection drops is a new one. */
  lemma DroppedIsNew(store: seq<Triple>, tx: Transaction, f: Triple) returns (j: nat)
    requires Draws(store, tx.ops, tx.ids) && f in CommittedFacts(store, tx) && Dropped(tx.ops, tx.ids, f.id)
    ensures j < |tx.ops| && tx.ops[j].Assert? && Retracted(tx.ops, j) && f == NewFact(tx.ops[j], tx.ids(j), tx.instant)
  {
    var j', k :| 0 <= j' < k < |tx.ops| && tx.ops[j'].Assert? && tx.ops[k] == Op.Retract(PendingId(j'))
        && tx.ids(j') == f.id;
    AppliedFacts(store, tx.ops, tx.instant, tx.ids, f);
    j := j';
  }

  /** Projection and commit hold the same facts up to ids just when each new fact
      whose pending id is retracted is removed by a later pattern anyway. */
  lemma ProjectionAgreesIff(store: seq<Triple>, tx: Transaction)
    requires Draws(store, tx.ops, tx.ids)
    ensures Alike(Projection(store, tx.ops, tx.instant), CommittedFacts(store, tx)) <==> DropsOnlyRemoved(tx)
  {
    var p, c, keep := Projection(store, tx.ops, tx.instant), CommittedFacts(store, tx), Undropped(tx.ops, tx.ids);
    ProjectionThins(store, tx.ops, tx.instant, tx.ids);
    if Alike(p, c) {
      FilterWhole(c, keep);
      forall j | 0 <= j < |tx.ops| && tx.ops[j].Assert? && Retracted(tx.ops, j) ensures PatternRemoves(tx, j) {
        WrittenKept(store, tx, j);
        var k :| j < k < |tx.ops| && tx.ops[k] == Op.Retract(PendingId(j));
        var written := NewFact(tx.ops[j], tx.ids(j), tx.instant);
        assert Dropped(tx.ops, tx.ids, written.id);
        assert written in c ==> keep(written);
      }
    }
    if DropsOnlyRemoved(tx) {
      forall f | f in c ensures keep(f) {
        if Dropped(tx.ops, tx.ids, f.id) {
          var j := DroppedIsNew(store, tx, f);
          WrittenKept(store, tx, j);
        }
      }
      FilterAll(c, keep);
      forall i | 0 <= i < |p| ensures Anonymous(p[i]) == Anonymous(c[i]) {
        assert Corresponds(p[i], c[i], tx.ops, PendingId, tx.ids);
      }
    }
  }

  // Transactions that are admitted and leave a violation

  const NAME_RULE := Required("Person", "name")

  /** A person `p` without a name. */
  predicate IsPerson(f: Triple) {
    f.entityId == "p" && f.attribute == "email" && f.entityType == Some("Person") && f.validFrom == 0 && f.validTo.None?
  }

  lemma NamelessViolates(f: Triple)
    requires IsPerson(f)
    ensures !Clean([f], [NAME_RULE])
  {
    var v := MissingValue(NAME_RULE, "p");
    assert f in [f] && VisibleAt(f, 0) && "p" in Subjects([f], "Person", 0);
    FilterNone([f], (g: Triple) => VisibleAt(g, 0) && g.entityId == "p" && g.attribute == "name");
    assert IsViolation([f], [NAME_RULE], 0, v);
  }

  lemma NamedIsClean(f: Triple, name: Triple)
    requires IsPerson(f) && name == f.(id := name.id, attribute := "name", entityType := None, value := name.value)
    ensures Clean([f, name], [NAME_RULE])
  {
    var facts := [f, name];
    forall at: Instant, v ensures !IsViolation(facts, [NAME_RULE], at, v) {
      if v.subject in Subjects(facts, "Person", at) {
        var named := Filter(facts, (g: Triple) => VisibleAt(g, at) && g.entityId == v.subject && g.attribute == "name");
        assert name in facts && VisibleAt(name, at) && v.subject == "p";
        assert name in named;
      }
    }
  }

  lemma EmptyIsClean(rules: seq<Rule>)
    ensures Clean([], rules)
  {
    forall at: Instant, v ensures !IsViolation([], rules, at, v) {
      NothingBeforeEdges([], rules, at, v);
    }
  }

  /** The transaction breaks a rule that held before, and is admitted. */
  ghost predicate Escapes(s: FactTable.State, tx: Transaction, rules: seq<Rule>, blobByHash: bool) {
    && FactTable.WellFormed(s) && Clean(LiveFacts(s.rows), rules)
    && Admits(s.rows, tx, Some(rules)) && Takes(s, tx, blobByHash)
    && !Clean(LiveFacts(Committed(s, tx, blobByHash).rows), rules)
  }

  function AddAndRetractPending(ids: nat -> string): Transaction {
    Transaction("t", [Assert("p", "email", StringValue("x"), Some("Person"), None, None), Op.Retract(PendingId(0))], 0,
                ids, [], ids)
  }

  lemma PendingGoes(tx: Transaction)
    requires tx == AddAndRetractPending(tx.ids)
    ensures Projection([], tx.ops, 0) == []
  {
    var pending := NewFact(tx.ops[0], PendingId(0), 0);
    NextApplied([], tx.ops, 0, 0, PendingId);
    NextApplied([], tx.ops, 1, 0, PendingId);
    assert tx.ops[..0] == [] && tx.ops[..2] == tx.ops && [] + [pending] == [pending];
    FilterNone([pending], (f: Triple) => f.id != PendingId(0));
  }

  lemma WrittenStays(tx: Transaction)
    requires tx == AddAndRetractPending(tx.ids) && IsTripleId(tx.ids(0))
    ensures CommittedFacts([], tx) == [NewFact(tx.ops[0], tx.ids(0), 0)]
  {
    var written := NewFact(tx.ops[0], tx.ids(0), 0);
    PendingIsNoTripleId(0);
    NextApplied([], tx.ops, 0, 0, tx.ids);
    NextApplied([], tx.ops, 1, 0, tx.ids);
    assert tx.ops[..0] == [] && tx.ops[..2] == tx.ops && [] + [written] == [written];
    FilterAll([written], (f: Triple) => f.id != PendingId(0));
  }

  lemma EmptyTableTakes(s: FactTable.State, tx: Transaction, blobByHash: bool)
    requires s == FactTable.State([], 0) && tx == AddAndRetractPending(tx.ids)
    ensures Takes(s, tx, blobByHash)
  {
    assert RowsAfter(s.rows, tx, 0, 1, blobByHash) == [] && OpsAccepted(s.rows, tx, 0, 1, blobByHash);
    assert OpsAccepted(s.rows, tx, 1, 1, blobByHash);
  }

  /** An unvalidated caller that retracts a pending id adds a person without a name. */
  lemma RetractedPendingIdEscapes(s: FactTable.State, tx: Transaction, blobByHash: bool)
    requires s == FactTable.State([], 0) && tx == AddAndRetractPending(tx.ids) && IsTripleId(tx.ids(0))
    ensures Escapes(s, tx, [NAME_RULE], blobByHash)
  {
    EmptyIsClean([NAME_RULE]);
    NoWorseReflexive([], [NAME_RULE]);
    PendingGoes(tx);
    WrittenStays(tx);
    EmptyTableTakes(s, tx, blobByHash);
    CommittedLiveFacts(s, tx, blobByHash);
    NamelessViolates(NewFact(tx.ops[0], tx.ids(0), 0));
  }

  /** A person with a name of no declared type, and the retraction of the name
      under the type "". */
  function NamedPerson(): FactTable.State {
    FactTable.State([FactTable.Row("1", "p", "email", StringValue("x"), Some("Person"), 0, None, 0, 1, None, None),
                     FactTable.Row("2", "p", "name", StringValue("n"), None, 0, None, 0, 1, None, None)], 1)
  }

  function RetractBlankType(ids: nat -> string): Transaction {
    Transaction("t", [RetractPattern(Pattern(Some("p"), Some("name"), Some(""), None))], 1, ids, [], ids)
  }

  lemma OneOperation(s: FactTable.State, tx: Transaction, blobByHash: bool)
    requires |tx.ops| == 1 && tx.ops[0].RetractPattern? && tx.journal == []
    ensures Takes(s, tx, blobByHash)
    ensures Committed(s, tx, blobByHash).rows
            == OpRows(s.rows, tx.ops[0], tx.ids(0), tx.instant, s.position + 1, blobByHash)
    ensures Projection(LiveFacts(s.rows), tx.ops, tx.instant)
            == Filter(LiveFacts(s.rows), (f: Triple) => !PatternMatches(f, tx.ops[0].pattern))
  {
    NextApplied(LiveFacts(s.rows), tx.ops, 0, tx.instant, PendingId);
    assert tx.ops[..0] == [] && tx.ops[..1] == tx.ops;
    assert OpsAccepted(s.rows, tx, 0, s.position + 1, blobByHash)
        && RowsAfter(s.rows, tx, 0, s.position + 1, blobByHash) == s.rows;
  }

  lemma OneLiveFact(a: FactTable.Row)
    requires a.retractedAt.None?
    ensures LiveFacts([a]) == [ReadBack(a)]
  {
    LiveFactsAppend([], a);
    assert [] + [a] == [a];
  }

  lemma TwoLiveFacts(a: FactTable.Row, b: FactTable.Row)
    requires a.retractedAt.None? && b.retractedAt.None?
    ensures LiveFacts([a, b]) == [ReadBack(a), ReadBack(b)]
  {
    OneLiveFact(a);
    LiveFactsAppend([a], b);
    assert [a] + [b] == [a, b];
  }

  lemma OnlyNameSelected(p: Pattern, blobByHash: bool)
    requires p == Pattern(Some("p"), Some("name"), Some(""), None)
    ensures var ids := SelectedIds(NamedPerson().rows, p, blobByHash); "1" !in ids && "2" in ids
  {
    var rows := NamedPerson().rows;
    SelectedIdsAre(rows, p, blobByHash, "1");
    SelectedIdsAre(rows, p, blobByHash, "2");
    assert Selected(rows[1], p, blobByHash) && !Selected(rows[0], p, blobByHash);
  }

  lemma NameTakenAway(rows: seq<FactTable.Row>, gone: seq<string>)
    requires rows == NamedPerson().rows && "1" !in gone && "2" in gone
    ensures LiveFacts(FactTable.ApplyWrites(rows, Retractions(gone), 1, 2)) == [ReadBack(rows[0])]
  {
    var person, name := ReadBack(rows[0]), ReadBack(rows[1]);
    var kept := (f: Triple) => f.id !in gone;
    TwoLiveFacts(rows[0], rows[1]);
    RetractedLiveFacts(rows, gone, 1, 2, kept);
    FilterAppend([person], [name], kept);
    FilterAll([person], kept);
    FilterNone([name], kept);
    assert [person] + [name] == [person, name];
  }

  lemma NameStaysProjected(s: FactTable.State, tx: Transaction)
    requires s == NamedPerson() && tx == RetractBlankType(tx.ids)
    ensures Admits(s.rows, tx, Some([NAME_RULE])) && Clean(LiveFacts(s.rows), [NAME_RULE])
  {
    var person, name := ReadBack(s.rows[0]), ReadBack(s.rows[1]);
    TwoLiveFacts(s.rows[0], s.rows[1]);
    NamedIsClean(person, name);
    OneOperation(s, tx, false);
    FilterAll([person, name], (f: Triple) => !PatternMatches(f, tx.ops[0].pattern));
    NoWorseReflexive([person, name], [NAME_RULE]);
  }

  lemma NameGoesInTable(s: FactTable.State, tx: Transaction, blobByHash: bool)
    requires s == NamedPerson() && tx == RetractBlankType(tx.ids)
    ensures Takes(s, tx, blobByHash) && !Clean(LiveFacts(Committed(s, tx, blobByHash).rows), [NAME_RULE])
  {
    var p := tx.ops[0].pattern;
    OneOperation(s, tx, blobByHash);
    OnlyNameSelected(p, blobByHash);
    NameTakenAway(s.rows, SelectedIds(s.rows, p, blobByHash));
    NamelessViolates(ReadBack(s.rows[0]));
  }

  lemma NamedPersonIsTable(s: FactTable.State)
    requires s == NamedPerson()
    ensures FactTable.WellFormed(s)
  {
  }

  /** Retracting by the empty entity type takes the name away in both dialects. */
  lemma EmptyPatternTextEscapes(s: FactTable.State, tx: Transaction, blobByHash: bool)
    requires s == NamedPerson() && tx == RetractBlankType(tx.ids)
    ensures Escapes(s, tx, [NAME_RULE], blobByHash)
  {
    NamedPersonIsTable(s);
    NameStaysProjected(s, tx);
    NameGoesInTable(s, tx, blobByHash);
  }
}
