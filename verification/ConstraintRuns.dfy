/** Runs of enforced transactions on the fact table: what is committed agrees with
    what was projected, so no violation ever appears or grows. */
module ConstraintRuns {
  import opened Facts
  import opened Constraint
  import opened ConstraintEvaluation
  import opened ConstraintEnforcement
  import opened ConstraintSlice
  import opened ConstraintCommit
  import opened ConstraintTransact
  import FactTable

  /** The projection's facts, under the ids the commit draws. */
  function CommittedFacts(store: seq<Triple>, tx: Transaction): seq<Triple> {
    ApplyOps(store, tx.ops, tx.instant, tx.ids)
  }

  predicate Comparable(value: Value) {
    value.SealedValue? ==> value.blind.Some?
  }

  ghost predicate AllComparable(facts: seq<Triple>) {
    forall f | f in facts :: Comparable(f.value)
  }

  /** No retraction names a fact that an earlier operation of the list asserts. */
  ghost predicate LeavesNewFacts(ops: seq<Op>, name: nat -> string) {
    forall j, k :: 0 <= j < k < |ops| && ops[j].Assert? && ops[k].Retract? ==> ops[k].id != name(j)
  }

  // Facts that differ in their ids only

  function Anonymous(f: Triple): Triple {
    f.(id := "")
  }

  ghost predicate Alike(a: seq<Triple>, b: seq<Triple>) {
    |a| == |b| && forall i :: 0 <= i < |a| ==> Anonymous(a[i]) == Anonymous(b[i])
  }

  lemma AlikeMembers(a: seq<Triple>, b: seq<Triple>, f: Triple) returns (g: Triple)
    requires Alike(a, b) && f in a
    ensures g in b && Anonymous(f) == Anonymous(g)
  {
    var i :| 0 <= i < |a| && a[i] == f;
    g := b[i];
  }

  lemma {:induction false} FilterSizes<T(!new)>(a: seq<T>, b: seq<T>, p: T -> bool, q: T -> bool)
    requires |a| == |b| && forall i :: 0 <= i < |a| ==> p(a[i]) == q(b[i])
    ensures |Filter(a, p)| == |Filter(b, q)|
  {
    if a != [] {
      assert p(a[0]) == q(b[0]);
      FilterSizes(a[1..], b[1..], p, q);
    }
  }

  lemma AlikeSubjects(a: seq<Triple>, b: seq<Triple>, entityType: string, at: Instant)
    requires Alike(a, b)
    ensures Subjects(a, entityType, at) == Subjects(b, entityType, at)
  {
    assert Alike(b, a);
    forall s ensures s in Subjects(a, entityType, at) <==> s in Subjects(b, entityType, at) {
      if s in Subjects(a, entityType, at) {
        var f :| f in a && VisibleAt(f, at) && f.entityType == Some(entityType) && f.entityId == s;
        var g := AlikeMembers(a, b, f);
      }
      if s in Subjects(b, entityType, at) {
        var f :| f in b && VisibleAt(f, at) && f.entityType == Some(entityType) && f.entityId == s;
        var g := AlikeMembers(b, a, f);
      }
    }
  }

  lemma AlikeFacts(a: seq<Triple>, b: seq<Triple>, rule: Rule, at: Instant, f: Triple, g: Triple)
    requires Alike(a, b) && Anonymous(f) == Anonymous(g) && Comparable(f.value)
    ensures IdentityOfValue(f) == IdentityOfValue(g)
    ensures Claims(a, rule, at, f) == Claims(b, rule, at, g)
    ensures rule.ReferenceTarget? ==> Dangles(a, rule, at, f) == Dangles(b, rule, at, g)
    ensures rule.ReferenceTarget? ==> BadReference(rule, f) == BadReference(rule, g)
  {
    AlikeSubjects(a, b, rule.entityType, at);
    if rule.ReferenceTarget? { AlikeSubjects(a, b, rule.targetEntityType, at); }
    assert f.entityId == Anonymous(f).entityId == g.entityId && f.attribute == Anonymous(f).attribute == g.attribute;
    assert f.value == Anonymous(f).value == g.value;
    assert f.validFrom == Anonymous(f).validFrom == g.validFrom && f.validTo == Anonymous(f).validTo == g.validTo;
  }

  lemma AlikeClaimants(a: seq<Triple>, b: seq<Triple>, rule: Rule, at: Instant, identity: ValueIdentity)
    requires Alike(a, b) && AllComparable(a)
    ensures Claimants(a, rule, at, identity) <= Claimants(b, rule, at, identity)
  {
    forall s | s in Claimants(a, rule, at, identity) ensures s in Claimants(b, rule, at, identity) {
      var f :| f in a && Claims(a, rule, at, f) && IdentityOfValue(f) == identity && f.entityId == s;
      var g := AlikeMembers(a, b, f);
      AlikeFacts(a, b, rule, at, f, g);
    }
  }

  lemma AlikeCount(a: seq<Triple>, b: seq<Triple>, subject: string, attribute: string, at: Instant)
    requires Alike(a, b)
    ensures Count(a, subject, attribute, at) == Count(b, subject, attribute, at)
  {
    var counts := (f: Triple) => VisibleAt(f, at) && f.entityId == subject && f.attribute == attribute;
    forall i | 0 <= i < |a| ensures counts(a[i]) == counts(b[i]) {
      assert counts(a[i]) == counts(Anonymous(a[i])) && counts(b[i]) == counts(Anonymous(b[i]));
    }
    FilterSizes(a, b, counts, counts);
  }

  lemma AlikeReferences(a: seq<Triple>, b: seq<Triple>, rule: Rule, at: Instant, v: Violation)
    requires Alike(a, b) && AllComparable(a) && rule.ReferenceTarget?
    ensures Multiplicity(a, rule, at, v) == Multiplicity(b, rule, at, v)
  {
    var p := (f: Triple) => Dangles(a, rule, at, f) && BadReference(rule, f) == v;
    var q := (f: Triple) => Dangles(b, rule, at, f) && BadReference(rule, f) == v;
    forall i | 0 <= i < |a| ensures p(a[i]) == q(b[i]) {
      assert a[i] in a;
      AlikeFacts(a, b, rule, at, a[i], b[i]);
    }
    FilterSizes(a, b, p, q);
  }

  lemma AlikeComparable(a: seq<Triple>, b: seq<Triple>)
    requires Alike(a, b) && AllComparable(a)
    ensures Alike(b, a) && AllComparable(b)
  {
    forall g | g in b ensures Comparable(g.value) {
      var f := AlikeMembers(b, a, g);
      assert f.value == Anonymous(f).value == g.value;
    }
  }

  /** Ids play no part in any report about comparable values. */
  lemma AlikeReports(a: seq<Triple>, b: seq<Triple>, rules: seq<Rule>)
    requires Alike(a, b) && AllComparable(a)
    ensures ReportSame(a, b, rules)
  {
    AlikeComparable(a, b);
    forall at: Instant, v ensures IsViolation(a, rules, at, v) <==> IsViolation(b, rules, at, v) {
      AlikeMultiplicity(a, b, v.rule, at, v);
    }
  }

  lemma SharedFromClaimants(a: seq<Triple>, b: seq<Triple>, rule: Rule, at: Instant, v: Violation,
                            identity: ValueIdentity)
    requires rule.Unique? && v.valueIdentity == Some(identity)
    requires Claimants(a, rule, at, identity) == Claimants(b, rule, at, identity)
    ensures Multiplicity(a, rule, at, v) == Multiplicity(b, rule, at, v)
  {
  }

  lemma AlikeShared(a: seq<Triple>, b: seq<Triple>, rule: Rule, at: Instant, v: Violation)
    requires Alike(a, b) && Alike(b, a) && AllComparable(a) && AllComparable(b) && rule.Unique?
    ensures Multiplicity(a, rule, at, v) == Multiplicity(b, rule, at, v)
  {
    if v.valueIdentity.Some? {
      var identity := v.valueIdentity.value;
      assert Claimants(a, rule, at, identity) == Claimants(b, rule, at, identity) by {
        AlikeClaimants(a, b, rule, at, identity);
        AlikeClaimants(b, a, rule, at, identity);
      }
      SharedFromClaimants(a, b, rule, at, v, identity);
    }
  }

  lemma AlikeCounted(a: seq<Triple>, b: seq<Triple>, rule: Rule, at: Instant, v: Violation)
    requires Alike(a, b) && (rule.Required? || rule.Cardinality?)
    ensures Multiplicity(a, rule, at, v) == Multiplicity(b, rule, at, v)
  {
    AlikeSubjects(a, b, rule.entityType, at);
    AlikeCount(a, b, v.subject, rule.attribute, at);
  }

  lemma AlikeMultiplicity(a: seq<Triple>, b: seq<Triple>, rule: Rule, at: Instant, v: Violation)
    requires Alike(a, b) && Alike(b, a) && AllComparable(a) && AllComparable(b)
    ensures Multiplicity(a, rule, at, v) == Multiplicity(b, rule, at, v)
  {
    match rule
    case Unique(_, _) => AlikeShared(a, b, rule, at, v);
    case ReferenceTarget(_, _, _) => AlikeReferences(a, b, rule, at, v);
    case _ => AlikeCounted(a, b, rule, at, v);
  }

  // The same operations under two namings of the new facts

  ghost predicate Corresponds(f: Triple, g: Triple, ops: seq<Op>, n1: nat -> string, n2: nat -> string) {
    && Anonymous(f) == Anonymous(g)
    && (f.id == g.id || exists j :: 0 <= j < |ops| && ops[j].Assert? && f.id == n1(j) && g.id == n2(j))
  }

  ghost predicate Renamed(a: seq<Triple>, b: seq<Triple>, ops: seq<Op>, n1: nat -> string, n2: nat -> string) {
    |a| == |b| && forall i :: 0 <= i < |a| ==> Corresponds(a[i], b[i], ops, n1, n2)
  }

  lemma {:induction false} FilterRenamed(a: seq<Triple>, b: seq<Triple>, ops: seq<Op>, n1: nat -> string,
                                         n2: nat -> string,
                                      keepA: Triple -> bool, keepB: Triple -> bool)
    requires Renamed(a, b, ops, n1, n2)
    requires forall i :: 0 <= i < |a| ==> keepA(a[i]) == keepB(b[i])
    ensures Renamed(Filter(a, keepA), Filter(b, keepB), ops, n1, n2)
  {
    if a != [] {
      assert keepA(a[0]) == keepB(b[0]) && Corresponds(a[0], b[0], ops, n1, n2);
      FilterRenamed(a[1..], b[1..], ops, n1, n2, keepA, keepB);
    }
  }

  lemma PatternRenamed(a: seq<Triple>, b: seq<Triple>, ops: seq<Op>, pattern: Pattern, n1: nat -> string,
                       n2: nat -> string)
    requires Renamed(a, b, ops, n1, n2)
    ensures var kept := (f: Triple) => !PatternMatches(f, pattern);
      Renamed(Filter(a, kept), Filter(b, kept), ops, n1, n2)
  {
    var kept := (f: Triple) => !PatternMatches(f, pattern);
    forall i | 0 <= i < |a| ensures kept(a[i]) == kept(b[i]) {
      assert Corresponds(a[i], b[i], ops, n1, n2);
      assert PatternMatches(a[i], pattern) == PatternMatches(Anonymous(a[i]), pattern);
      assert PatternMatches(b[i], pattern) == PatternMatches(Anonymous(b[i]), pattern);
    }
    FilterRenamed(a, b, ops, n1, n2, kept, kept);
  }

  lemma LongerRenamed(a: seq<Triple>, b: seq<Triple>, ops: seq<Op>, op: Op, n1: nat -> string, n2: nat -> string)
    requires Renamed(a, b, ops, n1, n2)
    ensures Renamed(a, b, ops + [op], n1, n2)
  {
    forall i | 0 <= i < |a| ensures Corresponds(a[i], b[i], ops + [op], n1, n2) {
      assert Corresponds(a[i], b[i], ops, n1, n2);
      if a[i].id != b[i].id {
        var j :| 0 <= j < |ops| && ops[j].Assert? && a[i].id == n1(j) && b[i].id == n2(j);
        assert (ops + [op])[j] == ops[j];
      }
    }
  }

  lemma {:induction false} ApplyRenamed(facts: seq<Triple>, ops: seq<Op>, instant: Instant, n1: nat -> string,
                                        n2: nat -> string)
    requires LeavesNewFacts(ops, n1) && LeavesNewFacts(ops, n2)
    ensures Renamed(ApplyOps(facts, ops, instant, n1), ApplyOps(facts, ops, instant, n2), ops, n1, n2)
  {
    if ops != [] {
      var n := |ops| - 1;
      var earlier := ops[..n];
      assert ops == earlier + [ops[n]];
      ApplyRenamed(facts, earlier, instant, n1, n2);
      var a, b := ApplyOps(facts, earlier, instant, n1), ApplyOps(facts, earlier, instant, n2);
      ApplyOpRenamed(a, b, earlier, ops[n], instant, n1, n2);
    }
  }

  lemma ApplyOpRenamed(a: seq<Triple>, b: seq<Triple>, ops: seq<Op>, op: Op, instant: Instant, n1: nat -> string,
                       n2: nat -> string)
    requires Renamed(a, b, ops, n1, n2)
    requires LeavesNewFacts(ops + [op], n1) && LeavesNewFacts(ops + [op], n2)
    ensures Renamed(ApplyOp(a, op, n1(|ops|), instant), ApplyOp(b, op, n2(|ops|), instant), ops + [op], n1, n2)
  {
    LongerRenamed(a, b, ops, op, n1, n2);
    var all := ops + [op];
    assert all[|ops|] == op;
    match op
    case Assert(_, _, _, _, _, _) =>
      assert Corresponds(NewFact(op, n1(|ops|), instant), NewFact(op, n2(|ops|), instant), all, n1, n2);
    case Retract(gone) =>
      var keep := (f: Triple) => f.id != gone;
      forall i | 0 <= i < |a| ensures keep(a[i]) == keep(b[i]) {
        assert Corresponds(a[i], b[i], ops, n1, n2);
        if a[i].id != b[i].id {
          var j :| 0 <= j < |ops| && ops[j].Assert? && a[i].id == n1(j) && b[i].id == n2(j);
          assert all[j] == ops[j];
        }
      }
      FilterRenamed(a, b, all, n1, n2, keep, keep);
    case RetractPattern(p) => PatternRenamed(a, b, all, p, n1, n2);
  }

  // Runs

  /** The form of every fact id that is decoded from a request. */
  predicate IsTripleId(id: string) {
    |id| == 26 && forall i :: 0 <= i < |id| ==> '0' <= id[i] <= '9' || 'A' <= id[i] <= 'Z'
  }

  predicate Decoded(ops: seq<Op>) {
    forall i :: 0 <= i < |ops| && ops[i].Retract? ==> IsTripleId(ops[i].id)
  }

  lemma PendingIsNoTripleId(i: nat)
    ensures !IsTripleId(PendingId(i))
  {
    assert PendingId(i)[0] == 'c';
  }

  /** So no decoded operation names a pending fact. */
  lemma DecodedLeavesNewFacts(ops: seq<Op>)
    requires Decoded(ops)
    ensures LeavesNewFacts(ops, PendingId)
  {
    forall j, k | 0 <= j < k < |ops| && ops[j].Assert? && ops[k].Retract? ensures ops[k].id != PendingId(j) {
      PendingIsNoTripleId(j);
    }
  }

  ghost predicate ComparableOps(ops: seq<Op>) {
    forall op | op in ops && op.Assert? :: Comparable(op.value)
  }

  lemma {:induction false} AppliedIds(facts: seq<Triple>, ops: seq<Op>, instant: Instant, name: nat -> string,
                                      f: Triple)
    requires f in ApplyOps(facts, ops, instant, name)
    ensures f in facts || exists i :: 0 <= i < |ops| && ops[i].Assert? && f.id == name(i)
  {
    AppliedFacts(facts, ops, instant, name, f);
  }

  lemma CommitKeepsComparable(store: seq<Triple>, ops: seq<Op>, instant: Instant, name: nat -> string)
    requires AllComparable(store) && ComparableOps(ops)
    ensures AllComparable(ApplyOps(store, ops, instant, name))
  {
    forall f | f in ApplyOps(store, ops, instant, name) ensures Comparable(f.value) {
      AppliedFacts(store, ops, instant, name, f);
    }
  }

  lemma OperationsReportAsProjected(store: seq<Triple>, tx: Transaction, rules: seq<Rule>)
    requires AllComparable(store) && ComparableOps(tx.ops) && Decoded(tx.ops) && LeavesNewFacts(tx.ops, tx.ids)
    ensures ReportSame(Projection(store, tx.ops, tx.instant), CommittedFacts(store, tx), rules)
  {
    var a, b := Projection(store, tx.ops, tx.instant), CommittedFacts(store, tx);
    DecodedLeavesNewFacts(tx.ops);
    ApplyRenamed(store, tx.ops, tx.instant, PendingId, tx.ids);
    forall i | 0 <= i < |a| ensures Anonymous(a[i]) == Anonymous(b[i]) {
      assert Corresponds(a[i], b[i], tx.ops, PendingId, tx.ids);
    }
    CommitKeepsComparable(store, tx.ops, tx.instant, PendingId);
    AlikeReports(a, b, rules);
  }

  // The journal plays no part in any report

  /** Rules about application facts only. */
  ghost predicate ForApplications(rules: seq<Rule>) {
    forall rule | rule in rules ::
      rule.entityType != TRANSACTION_TYPE && (rule.ReferenceTarget? ==> rule.targetEntityType != TRANSACTION_TYPE)
  }

  function EntityIds(facts: seq<Triple>): (ids: seq<string>)
    ensures forall f | f in facts :: f.entityId in ids
    ensures forall id | id in ids :: exists f :: f in facts && f.entityId == id
  {
    if facts == [] then [] else [facts[0].entityId] + EntityIds(facts[1..])
  }

  lemma {:induction false} JournalFact(tx: Transaction, n: nat, position: nat, f: Triple)
    requires n <= |tx.journal| && Journals(tx) && f in JournalFacts(tx, n, position)
    ensures f.entityId == tx.txId && f.entityType == Some(TRANSACTION_TYPE) && Comparable(f.value)
  {
    if f in JournalFacts(tx, n - 1, position) { JournalFact(tx, n - 1, position, f); }
  }

  lemma JournalReports(facts: seq<Triple>, tx: Transaction, n: nat, position: nat, rules: seq<Rule>)
    requires n <= |tx.journal| && Journals(tx) && ForApplications(rules) && tx.txId !in EntityIds(facts)
    ensures ReportSame(facts, facts + JournalFacts(tx, n, position), rules)
  {
    var journal := JournalFacts(tx, n, position);
    var whole, ids := facts + journal, EntityIds(facts);
    forall f | f in multiset(journal) ensures Irrelevant(rules, ids, f) {
      JournalFact(tx, n, position, f);
    }
    forall f, rule | f in whole && rule in rules ensures f.entityType == Some(rule.entityType) ==> f.entityId in ids {
      if f in journal { JournalFact(tx, n, position, f); }
    }
    assert Extends(whole, facts, multiset(journal), rules, ids);
    ExtensionReportsSame(whole, facts, multiset(journal), rules, ids);
  }

  // One transaction

  /** What a caller can check of a transaction: its texts are not empty, its patterns
      ask for plain values, its ids have the form of fact ids, and what it seals it
      seals with a blind token. */
  ghost predicate WellPosed(tx: Transaction) {
    SafeOps(tx.ops) && ComparableOps(tx.ops) && Decoded(tx.ops) && Journals(tx)
  }

  /** The ids the commit draws are new, to the table and to the transaction. */
  ghost predicate FreshIds(s: FactTable.State, tx: Transaction, blobByHash: bool) {
    && Takes(s, tx, blobByHash)
    && LeavesNewFacts(tx.ops, tx.ids)
    && tx.txId !in EntityIds(LiveFacts(s.rows))
    && forall op | op in tx.ops && op.Assert? :: op.entityId != tx.txId
  }

  lemma FreshTransaction(s: FactTable.State, tx: Transaction, blobByHash: bool)
    requires FreshIds(s, tx, blobByHash)
    ensures tx.txId !in EntityIds(CommittedFacts(LiveFacts(s.rows), tx))
  {
    if tx.txId in EntityIds(CommittedFacts(LiveFacts(s.rows), tx)) {
      var f :| f in CommittedFacts(LiveFacts(s.rows), tx) && f.entityId == tx.txId;
      AppliedFacts(LiveFacts(s.rows), tx.ops, tx.instant, tx.ids, f);
    }
  }

  lemma SameInTurn(a: seq<Triple>, b: seq<Triple>, c: seq<Triple>, rules: seq<Rule>)
    requires ReportSame(a, b, rules) && ReportSame(b, c, rules)
    ensures ReportSame(a, c, rules)
  {
    forall at: Instant, v ensures IsViolation(a, rules, at, v) <==> IsViolation(c, rules, at, v) {
      assert IsViolation(a, rules, at, v) <==> IsViolation(b, rules, at, v);
      assert IsViolation(b, rules, at, v) <==> IsViolation(c, rules, at, v);
    }
  }

  lemma JournalComparable(facts: seq<Triple>, tx: Transaction, position: nat)
    requires AllComparable(facts) && Journals(tx)
    ensures AllComparable(facts + JournalFacts(tx, |tx.journal|, position))
  {
    var journal := JournalFacts(tx, |tx.journal|, position);
    forall f: Triple | f in facts + journal ensures Comparable(f.value) {
      if f in journal { JournalFact(tx, |tx.journal|, position, f); }
    }
  }

  lemma CommittedReports(store: seq<Triple>, tx: Transaction, rules: seq<Rule>, position: nat, committed: seq<Triple>)
    requires AllComparable(store) && ForApplications(rules) && WellPosed(tx) && LeavesNewFacts(tx.ops, tx.ids)
    requires tx.txId !in EntityIds(CommittedFacts(store, tx))
    requires committed == CommittedFacts(store, tx) + JournalFacts(tx, |tx.journal|, position)
    ensures ReportSame(Projection(store, tx.ops, tx.instant), committed, rules) && AllComparable(committed)
  {
    var written := CommittedFacts(store, tx);
    OperationsReportAsProjected(store, tx, rules);
    JournalReports(written, tx, |tx.journal|, position, rules);
    SameInTurn(Projection(store, tx.ops, tx.instant), written, committed, rules);
    CommitKeepsComparable(store, tx.ops, tx.instant, tx.ids);
    JournalComparable(written, tx, position);
  }

  /** What is committed, read back, reports the same violations as what was projected. */
  lemma CommitReportsAsProjected(s: FactTable.State, tx: Transaction, rules: seq<Rule>, blobByHash: bool)
    requires FactTable.WellFormed(s) && AllComparable(LiveFacts(s.rows)) && ForApplications(rules)
    requires WellPosed(tx) && FreshIds(s, tx, blobByHash)
    ensures ReportSame(Projection(LiveFacts(s.rows), tx.ops, tx.instant), LiveFacts(Committed(s, tx, blobByHash).rows),
                       rules)
    ensures AllComparable(LiveFacts(Committed(s, tx, blobByHash).rows))
  {
    CommittedLiveFacts(s, tx, blobByHash);
    FreshTransaction(s, tx, blobByHash);
    CommittedReports(LiveFacts(s.rows), tx, rules, s.position + 1, LiveFacts(Committed(s, tx, blobByHash).rows));
  }

  // Runs

  ghost predicate Step(s: FactTable.State, tx: Transaction, next: FactTable.State, rules: seq<Rule>, blobByHash: bool) {
    && WellPosed(tx) && FreshIds(s, tx, blobByHash)
    && Admits(s.rows, tx, Some(rules))
    && next == Committed(s, tx, blobByHash)
  }

  ghost predicate Run(states: seq<FactTable.State>, txs: seq<Transaction>, rules: seq<Rule>, blobByHash: bool) {
    && |states| == |txs| + 1 && ForApplications(rules)
    && Sound(states[0])
    && forall i :: 0 <= i < |txs| ==> StepAt(states, txs, rules, blobByHash, i)
  }

  ghost predicate StepAt(states: seq<FactTable.State>, txs: seq<Transaction>, rules: seq<Rule>, blobByHash: bool,
                         i: nat)
    requires |states| == |txs| + 1 && i < |txs|
  {
    Step(states[i], txs[i], states[i + 1], rules, blobByHash)
  }

  ghost predicate Clean(store: seq<Triple>, rules: seq<Rule>) {
    forall at: Instant, v :: !IsViolation(store, rules, at, v)
  }

  lemma NoWorseReflexive(a: seq<Triple>, rules: seq<Rule>)
    ensures NoWorse(a, a, rules)
  {
    forall at: Instant, v | IsViolation(a, rules, at, v) ensures Already(a, rules, at, v) {
      assert IdentityOf(v) == IdentityOf(v) && v.actual >= v.actual;
    }
  }

  lemma NoWorseTransitive(a: seq<Triple>, b: seq<Triple>, c: seq<Triple>, rules: seq<Rule>)
    requires NoWorse(a, b, rules) && NoWorse(b, c, rules)
    ensures NoWorse(a, c, rules)
  {
    forall at: Instant, v | IsViolation(c, rules, at, v) ensures Already(a, rules, at, v) {
      assert Already(b, rules, at, v);
      var w :| IsViolation(b, rules, at, w) && IdentityOf(w) == IdentityOf(v) && w.actual >= v.actual;
      assert Already(a, rules, at, w);
      var x :| IsViolation(a, rules, at, x) && IdentityOf(x) == IdentityOf(w) && x.actual >= w.actual;
      assert IdentityOf(x) == IdentityOf(v) && x.actual >= v.actual;
    }
  }

  lemma NoWorseAsReported(store: seq<Triple>, projected: seq<Triple>, committed: seq<Triple>, rules: seq<Rule>)
    requires NoWorse(store, projected, rules) && ReportSame(projected, committed, rules)
    ensures NoWorse(store, committed, rules)
  {
    forall at: Instant, v | IsViolation(committed, rules, at, v) ensures Already(store, rules, at, v) {
      assert IsViolation(projected, rules, at, v);
    }
  }

  lemma StepIsNoWorse(s: FactTable.State, tx: Transaction, next: FactTable.State, rules: seq<Rule>, blobByHash: bool)
    requires FactTable.WellFormed(s) && AllComparable(LiveFacts(s.rows)) && ForApplications(rules)
    requires Step(s, tx, next, rules, blobByHash)
    ensures NoWorse(LiveFacts(s.rows), LiveFacts(next.rows), rules)
    ensures FactTable.WellFormed(next) && AllComparable(LiveFacts(next.rows))
  {
    CommitReportsAsProjected(s, tx, rules, blobByHash);
    CommitKeepsTable(s, tx, blobByHash);
    NoWorseAsReported(LiveFacts(s.rows), Projection(LiveFacts(s.rows), tx.ops, tx.instant), LiveFacts(next.rows),
                      rules);
  }

  ghost predicate Sound(s: FactTable.State) {
    FactTable.WellFormed(s) && AllComparable(LiveFacts(s.rows))
  }

  lemma NextIsSound(s: FactTable.State, tx: Transaction, next: FactTable.State, rules: seq<Rule>, blobByHash: bool)
    requires Sound(s) && ForApplications(rules) && Step(s, tx, next, rules, blobByHash)
    ensures Sound(next) && NoWorse(LiveFacts(s.rows), LiveFacts(next.rows), rules)
  {
    StepIsNoWorse(s, tx, next, rules, blobByHash);
  }

  lemma {:induction false} RunKeepsShape(states: seq<FactTable.State>, txs: seq<Transaction>, rules: seq<Rule>,
                                         blobByHash: bool, i: nat)
    requires Run(states, txs, rules, blobByHash) && i < |states|
    ensures Sound(states[i])
  {
    if i > 0 {
      RunKeepsShape(states, txs, rules, blobByHash, i - 1);
      assert StepAt(states, txs, rules, blobByHash, i - 1);
      NextIsSound(states[i - 1], txs[i - 1], states[i], rules, blobByHash);
    }
  }

  lemma NextIsNoWorse(states: seq<FactTable.State>, txs: seq<Transaction>, rules: seq<Rule>, blobByHash: bool, j: nat)
    requires Run(states, txs, rules, blobByHash) && 0 < j < |states|
    ensures NoWorse(LiveFacts(states[j - 1].rows), LiveFacts(states[j].rows), rules)
  {
    RunKeepsShape(states, txs, rules, blobByHash, j - 1);
    assert StepAt(states, txs, rules, blobByHash, j - 1);
    NextIsSound(states[j - 1], txs[j - 1], states[j], rules, blobByHash);
  }

  /** Over any run of admitted transactions no violation among the facts read back
      appears or grows, at any valid-time instant, in either dialect. */
  lemma {:induction false} RunNeverGetsWorse(states: seq<FactTable.State>, txs: seq<Transaction>, rules: seq<Rule>,
                                             blobByHash: bool, i: nat, j: nat)
    requires Run(states, txs, rules, blobByHash) && i <= j < |states|
    ensures NoWorse(LiveFacts(states[i].rows), LiveFacts(states[j].rows), rules)
    decreases j - i
  {
    if i == j {
      NoWorseReflexive(LiveFacts(states[i].rows), rules);
    } else {
      RunNeverGetsWorse(states, txs, rules, blobByHash, i, j - 1);
      NextIsNoWorse(states, txs, rules, blobByHash, j);
      NoWorseTransitive(LiveFacts(states[i].rows), LiveFacts(states[j - 1].rows), LiveFacts(states[j].rows), rules);
    }
  }

  // A run is a history of the fact table

  /** `history` holds the first `n` commits of the run. */
  ghost predicate Tells(history: seq<FactTable.Commit>, states: seq<FactTable.State>, n: nat) {
    && n < |states| && |history| == n && FactTable.Possible(history)
    && forall i :: 0 <= i <= n ==> FactTable.After(history[..i]) == states[i]
  }

  lemma ToldNext(history: seq<FactTable.Commit>, states: seq<FactTable.State>, n: nat, c: FactTable.Commit)
    requires Tells(history, states, n) && n + 1 < |states|
    requires FactTable.Fits(states[n].rows, c.writes) && states[n + 1] == FactTable.CommitTo(states[n], c)
    ensures Tells(history + [c], states, n + 1)
  {
    var longer := history + [c];
    assert history[..n] == history;
    forall i | 0 <= i <= n ensures longer[..i] == history[..i] {
    }
    forall i | 0 <= i < n + 1 ensures FactTable.FitsAt(longer, i) {
      assert longer[..i] == history[..i];
      if i < n { assert FactTable.FitsAt(history, i); }
    }
    assert longer[..n + 1] == longer;
  }

  /** Each state of a run from the empty table is the table after one history, so all
      that holds of histories holds of runs. */
  lemma {:induction false} RunIsHistory(states: seq<FactTable.State>, txs: seq<Transaction>, rules: seq<Rule>,
                                        blobByHash: bool, n: nat) returns (history: seq<FactTable.Commit>)
    requires Run(states, txs, rules, blobByHash) && n < |states| && states[0] == FactTable.State([], 0)
    ensures Tells(history, states, n) && forall i :: 0 <= i < n ==> history[i].timestamp == txs[i].instant
  {
    history := [];
    if n > 0 {
      var earlier := RunIsHistory(states, txs, rules, blobByHash, n - 1);
      assert StepAt(states, txs, rules, blobByHash, n - 1);
      var c := TransactionIsCommit(states[n - 1], txs[n - 1], blobByHash);
      ToldNext(earlier, states, n - 1, c);
      history := earlier + [c];
    }
  }

  /** For one: a read at an earlier position of a run shows the facts of then. */
  lemma RunTimeTravel(states: seq<FactTable.State>, txs: seq<Transaction>, rules: seq<Rule>, blobByHash: bool,
                      i: nat, j: nat, validAt: Instant)
    requires Run(states, txs, rules, blobByHash) && i <= j < |states| && states[0] == FactTable.State([], 0)
    ensures FactTable.Read(states[j].rows, FactTable.AtPosition(i, validAt))
            == FactTable.Read(states[i].rows, FactTable.Latest(validAt))
  {
    var history := RunIsHistory(states, txs, rules, blobByHash, j);
    assert history[..j] == history;
    FactTable.TimeTravel(history, i, validAt);
  }

  /** A store without violations never gets one. */
  lemma CleanStaysClean(states: seq<FactTable.State>, txs: seq<Transaction>, rules: seq<Rule>, blobByHash: bool, j: nat)
    requires Run(states, txs, rules, blobByHash) && j < |states| && Clean(LiveFacts(states[0].rows), rules)
    ensures Clean(LiveFacts(states[j].rows), rules)
  {
    RunNeverGetsWorse(states, txs, rules, blobByHash, 0, j);
    NoneFromNone(LiveFacts(states[0].rows), LiveFacts(states[j].rows), rules);
  }

  lemma NoneFromNone(before: seq<Triple>, after: seq<Triple>, rules: seq<Rule>)
    requires NoWorse(before, after, rules) && Clean(before, rules)
    ensures Clean(after, rules)
  {
    forall at: Instant, v ensures !IsViolation(after, rules, at, v) {
      assert IsViolation(after, rules, at, v) ==> Already(before, rules, at, v);
    }
  }
}
