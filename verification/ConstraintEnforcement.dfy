/** Transaction-time enforcement: project the transaction onto the live facts,
    compare violations before and after at every valid-time edge. */
module ConstraintEnforcement {
  import opened Facts
  import opened Constraint
  import opened ConstraintEvaluation
  import Orders
  import Text

  // Projection

  predicate PatternMatches(f: Triple, p: Pattern) {
    && (p.entityId.Some? ==> f.entityId == p.entityId.value)
    && (p.attribute.Some? ==> f.attribute == p.attribute.value)
    && (p.entityType.Some? ==> f.entityType == p.entityType)
    && (p.value.Some? ==> IdentityOfValue(f) == PlainIdentity(p.value.value))
  }

  function PendingId(index: nat): string {
    "constraint-pending-" + Text.Decimal(index)
  }

  function NewFact(op: Op, id: string, instant: Instant): Triple
    requires op.Assert?
  {
    Triple(id, op.entityId, op.attribute, op.value, op.entityType,
           if op.validFrom.Some? then op.validFrom.value else instant, op.validTo)
  }

  /** One operation on the live facts; `id` names the fact an assertion adds. */
  function ApplyOp(facts: seq<Triple>, op: Op, id: string, instant: Instant): seq<Triple> {
    match op
    case Retract(gone) => Filter(facts, (f: Triple) => f.id != gone)
    case RetractPattern(p) => Filter(facts, (f: Triple) => !PatternMatches(f, p))
    case Assert(_, _, _, _, _, _) => facts + [NewFact(op, id, instant)]
  }

  function ApplyOps(facts: seq<Triple>, ops: seq<Op>, instant: Instant, name: nat -> string): seq<Triple> {
    if ops == [] then facts
    else
      var n := |ops| - 1;
      ApplyOp(ApplyOps(facts, ops[..n], instant, name), ops[n], name(n), instant)
  }

  function Projection(facts: seq<Triple>, ops: seq<Op>, instant: Instant): seq<Triple> {
    ApplyOps(facts, ops, instant, PendingId)
  }

  method Project(current: seq<Triple>, ops: seq<Op>, instant: Instant) returns (projected: seq<Triple>)
    ensures projected == Projection(current, ops, instant)
  {
    projected := current;
    for index := 0 to |ops|
      invariant projected == ApplyOps(current, ops[..index], instant, PendingId)
    {
      var op := ops[index];
      assert ops[..index + 1][..index] == ops[..index];
      match op {
        case Retract(id) => projected := Filter(projected, (f: Triple) => f.id != id);
        case RetractPattern(p) => projected := Filter(projected, (f: Triple) => !PatternMatches(f, p));
        case Assert(_, _, _, _, _, _) => projected := projected + [NewFact(op, PendingId(index), instant)];
      }
    }
    assert ops[..|ops|] == ops;
  }

  // What enforcement promises, at every instant

  /** The violation was there before, at least as bad. */
  ghost predicate Already(current: seq<Triple>, rules: seq<Rule>, at: Instant, v: Violation) {
    exists w :: IsViolation(current, rules, at, w) && IdentityOf(w) == IdentityOf(v) && w.actual >= v.actual
  }

  /** No violation appears or grows, at any instant whatever. */
  ghost predicate NoWorse(before: seq<Triple>, after: seq<Triple>, rules: seq<Rule>) {
    forall at: Instant, v | IsViolation(after, rules, at, v) :: Already(before, rules, at, v)
  }

  // Sampling the edges decides all instants

  function Edges(facts: seq<Triple>): set<Instant> {
    (set f | f in facts :: f.validFrom) + (set f | f in facts && f.validTo.Some? :: f.validTo.value)
  }

  lemma {:induction false} LatestEdge(edges: set<Instant>, at: Instant) returns (edge: Instant)
    requires exists e | e in edges :: e <= at
    ensures edge in edges && edge <= at
    ensures forall e | e in edges && e <= at :: e <= edge
    decreases |edges|
  {
    var first :| first in edges && first <= at;
    var rest := edges - {first};
    edge := first;
    if exists e | e in rest :: e <= at {
      var other := LatestEdge(rest, at);
      edge := if other > first then other else first;
    }
    forall e | e in edges && e <= at ensures e <= edge {
      if e != first { assert e in rest; }
    }
  }

  lemma SameVisibility(facts: seq<Triple>, edges: set<Instant>, edge: Instant, at: Instant)
    requires Edges(facts) <= edges
    requires edge <= at && forall e | e in edges && e <= at :: e <= edge
    ensures forall f | f in facts :: VisibleAt(f, at) == VisibleAt(f, edge)
  {
    forall f | f in facts ensures VisibleAt(f, at) == VisibleAt(f, edge) {
      assert f.validFrom in Edges(facts);
      if f.validTo.Some? { assert f.validTo.value in Edges(facts); }
    }
  }

  lemma MultiplicityFromVisibility(facts: seq<Triple>, rule: Rule, at: Instant, edge: Instant, v: Violation)
    requires forall f | f in facts :: VisibleAt(f, at) == VisibleAt(f, edge)
    ensures Multiplicity(facts, rule, at, v) == Multiplicity(facts, rule, edge, v)
  {
    assert forall entityType :: Subjects(facts, entityType, at) == Subjects(facts, entityType, edge);
    match rule
    case Required(_, attribute) => CountFromVisibility(facts, v.subject, attribute, at, edge);
    case Cardinality(_, attribute, _) => CountFromVisibility(facts, v.subject, attribute, at, edge);
    case Unique(_, _) =>
      if v.valueIdentity.Some? {
        assert Claimants(facts, rule, at, v.valueIdentity.value) == Claimants(facts, rule, edge, v.valueIdentity.value);
      }
    case ReferenceTarget(_, _, _) =>
      FilterSamePredicate(facts, (f: Triple) => Dangles(facts, rule, at, f) && BadReference(rule, f) == v,
                          (f: Triple) => Dangles(facts, rule, edge, f) && BadReference(rule, f) == v);
  }

  lemma CountFromVisibility(facts: seq<Triple>, subject: string, attribute: string, at: Instant, edge: Instant)
    requires forall f | f in facts :: VisibleAt(f, at) == VisibleAt(f, edge)
    ensures Count(facts, subject, attribute, at) == Count(facts, subject, attribute, edge)
  {
    FilterSamePredicate(facts, (f: Triple) => VisibleAt(f, at) && f.entityId == subject && f.attribute == attribute,
                        (f: Triple) => VisibleAt(f, edge) && f.entityId == subject && f.attribute == attribute);
  }

  /** Nothing is visible, so nothing is violated, before the first edge. */
  lemma NothingBeforeEdges(facts: seq<Triple>, rules: seq<Rule>, at: Instant, v: Violation)
    requires forall e | e in Edges(facts) :: e > at
    ensures !IsViolation(facts, rules, at, v)
  {
    forall f | f in facts ensures !VisibleAt(f, at) {
      assert f.validFrom in Edges(facts);
    }
    if IsViolation(facts, rules, at, v) {
      assert Subjects(facts, v.rule.entityType, at) == {};
      if v.rule.ReferenceTarget? {
        var f := DanglingFact(facts, v.rule, at, v);
      }
    }
  }

  ghost predicate NoWorseAt(before: seq<Triple>, after: seq<Triple>, rules: seq<Rule>, at: Instant) {
    forall v | IsViolation(after, rules, at, v) :: Already(before, rules, at, v)
  }

  lemma EdgesDecide(before: seq<Triple>, after: seq<Triple>, rules: seq<Rule>)
    requires forall edge | edge in Edges(before) + Edges(after) :: NoWorseAt(before, after, rules, edge)
    ensures NoWorse(before, after, rules)
  {
    var edges := Edges(before) + Edges(after);
    forall at: Instant, v | IsViolation(after, rules, at, v) ensures Already(before, rules, at, v) {
      if forall e | e in edges :: e > at {
        NothingBeforeEdges(after, rules, at, v);
      } else {
        var edge := LatestEdge(edges, at);
        SameVisibility(before, edges, edge, at);
        SameVisibility(after, edges, edge, at);
        MultiplicityFromVisibility(after, v.rule, at, edge, v);
        assert NoWorseAt(before, after, rules, edge) && IsViolation(after, rules, edge, v);
        var w :| IsViolation(before, rules, edge, w) && IdentityOf(w) == IdentityOf(v) && w.actual >= v.actual;
        MultiplicityFromVisibility(before, w.rule, at, edge, w);
        assert IsViolation(before, rules, at, w);
      }
    }
  }

  // The comparison loop

  datatype ViolationAt = ViolationAt(violation: Violation, validAt: Instant)

  function EdgeOrder(): (Instant, Instant) -> bool {
    (a, b) => a < b
  }

  method SortedEdges(facts: seq<Triple>) returns (boundaries: seq<Instant>)
    ensures forall e :: e in boundaries <==> e in Edges(facts)
    ensures Orders.StrictlySorted(EdgeOrder(), boundaries)
  {
    var listed := [];
    for i := 0 to |facts|
      invariant forall e :: e in listed <==> e in Edges(facts[..i])
      invariant Distinct(listed)
    {
      var fact := facts[i];
      assert facts[..i + 1] == facts[..i] + [fact];
      EdgesStep(facts[..i], fact);
      if fact.validFrom !in listed { listed := listed + [fact.validFrom]; }
      if fact.validTo.Some? && fact.validTo.value !in listed { listed := listed + [fact.validTo.value]; }
    }
    assert facts[..|facts|] == facts;
    boundaries := Orders.SortBy(EdgeOrder(), listed);
    Orders.SortBySorts(EdgeOrder(), listed);
    DistinctSorts(listed, boundaries);
  }

  lemma RepeatCounts(s: seq<Instant>, i: nat, j: nat)
    requires i < j < |s| && s[i] == s[j]
    ensures multiset(s)[s[i]] >= 2
  {
    assert s == s[..j] + s[j..] && s[i] == s[..j][i] && s[j] == s[j..][0];
    assert multiset(s)[s[i]] == multiset(s[..j])[s[i]] + multiset(s[j..])[s[i]];
  }

  lemma DistinctSorts(listed: seq<Instant>, sorted: seq<Instant>)
    requires Distinct(listed) && multiset(sorted) == multiset(listed) && Orders.NonDecreasing(EdgeOrder(), sorted)
    ensures Orders.StrictlySorted(EdgeOrder(), sorted)
  {
    forall i, j | 0 <= i < j < |sorted| ensures sorted[i] < sorted[j] {
      if sorted[i] == sorted[j] {
        DistinctMultiset(listed, sorted[i]);
        RepeatCounts(sorted, i, j);
      }
    }
  }

  lemma EdgesStep(facts: seq<Triple>, fact: Triple)
    ensures Edges(facts + [fact]) ==
            Edges(facts) + {fact.validFrom} + if fact.validTo.Some? then {fact.validTo.value} else {}
  {
    var all := facts + [fact];
    assert forall f :: f in all <==> f in facts || f == fact;
    assert fact in all;
  }

  lemma EdgesAppend(a: seq<Triple>, b: seq<Triple>)
    ensures Edges(a + b) == Edges(a) + Edges(b)
  {
    assert forall f :: f in a + b <==> f in a || f in b;
  }

  ghost predicate IsPrior(prior: map<ViolationIdentity, nat>, before: seq<Violation>) {
    && (forall v | v in before :: IdentityOf(v) in prior && prior[IdentityOf(v)] == v.actual)
    && (forall id | id in prior :: exists v :: v in before && IdentityOf(v) == id)
  }

  method PriorActuals(facts: seq<Triple>, rules: seq<Rule>, at: Instant, before: seq<Violation>)
    returns (prior: map<ViolationIdentity, nat>)
    requires forall v | v in before :: IsViolation(facts, rules, at, v)
    ensures IsPrior(prior, before)
  {
    prior := map[];
    for i := 0 to |before|
      invariant IsPrior(prior, before[..i])
    {
      var v := before[i];
      assert before[..i + 1] == before[..i] + [v];
      assert v in before;
      forall w | w in before[..i] && IdentityOf(w) == IdentityOf(v) ensures w == v {
        IdentityFixesViolation(facts, rules, at, v, w);
      }
      prior := prior[IdentityOf(v) := v.actual];
    }
    assert before[..|before|] == before;
  }

  lemma PriorMeansAlready(facts: seq<Triple>, rules: seq<Rule>, at: Instant, before: seq<Violation>,
                          prior: map<ViolationIdentity, nat>, v: Violation)
    requires forall w :: w in before <==> IsViolation(facts, rules, at, w)
    requires IsPrior(prior, before)
    ensures (IdentityOf(v) in prior && v.actual <= prior[IdentityOf(v)]) <==> Already(facts, rules, at, v)
  {
  }

  /** Exactly the violations at an edge that are new or have grown. */
  ghost predicate IsNew(current: seq<Triple>, projected: seq<Triple>, rules: seq<Rule>, w: ViolationAt) {
    && w.validAt in Edges(current) + Edges(projected)
    && IsViolation(projected, rules, w.validAt, w.violation)
    && !Already(current, rules, w.validAt, w.violation)
  }

  /** How often a violation after is reported at its instant. */
  ghost function Reports(projected: seq<Triple>, rules: seq<Rule>, w: ViolationAt): nat {
    multiset(rules)[w.violation.rule] * Multiplicity(projected, w.violation.rule, w.validAt, w.violation)
  }

  /** Whether the comparison at one instant takes `w` up. */
  ghost predicate Taken(current: seq<Triple>, rules: seq<Rule>, at: Instant, w: ViolationAt) {
    w.validAt == at && !Already(current, rules, at, w.violation)
  }

  lemma TakesNext(found: seq<ViolationAt>, seen: seq<Violation>, current: seq<Triple>, rules: seq<Rule>, at: Instant,
                  v: Violation)
    requires forall w :: multiset(found)[w] == if Taken(current, rules, at, w) then multiset(seen)[w.violation] else 0
    ensures var next := if Already(current, rules, at, v) then found else found + [ViolationAt(v, at)];
      forall w :: multiset(next)[w] == if Taken(current, rules, at, w) then multiset(seen + [v])[w.violation] else 0
  {
  }

  method CompareAt(current: seq<Triple>, projected: seq<Triple>, rules: seq<Rule>, at: Instant, c: Collation)
    returns (found: seq<ViolationAt>)
    requires c.Valid()
    ensures forall w :: multiset(found)[w] == if Taken(current, rules, at, w) then Reports(projected, rules, w) else 0
  {
    var before := EvaluateFacts(current, rules, at, c);
    var after := EvaluateFacts(projected, rules, at, c);
    var prior := PriorActuals(current, rules, at, before);
    found := [];
    for i := 0 to |after|
      invariant forall w ::
        multiset(found)[w] == if Taken(current, rules, at, w) then multiset(after[..i])[w.violation] else 0
    {
      var v := after[i];
      assert after[..i + 1] == after[..i] + [v];
      PriorMeansAlready(current, rules, at, before, prior, v);
      TakesNext(found, after[..i], current, rules, at, v);
      if IdentityOf(v) !in prior || v.actual > prior[IdentityOf(v)] {
        found := found + [ViolationAt(v, at)];
      }
    }
    assert after[..|after|] == after;
  }

  /** Each new or grown violation, at each edge it is found at, as often as the
      evaluation there reports it. */
  ghost predicate ReportsNew(result: seq<ViolationAt>, current: seq<Triple>, projected: seq<Triple>, rules: seq<Rule>) {
    forall w :: multiset(result)[w] == if IsNew(current, projected, rules, w) then Reports(projected, rules, w) else 0
  }

  ghost predicate ReportsUpTo(result: seq<ViolationAt>, current: seq<Triple>, projected: seq<Triple>, rules: seq<Rule>,
                              done: seq<Instant>) {
    forall w :: multiset(result)[w] == ReportsAmong(current, projected, rules, done, w)
  }

  ghost function ReportsAmong(current: seq<Triple>, projected: seq<Triple>, rules: seq<Rule>, done: seq<Instant>,
                              w: ViolationAt): nat {
    if w.validAt in done && IsNew(current, projected, rules, w) then Reports(projected, rules, w) else 0
  }

  lemma NextEdgeReports(result: seq<ViolationAt>, found: seq<ViolationAt>, current: seq<Triple>, projected: seq<Triple>,
                        rules: seq<Rule>, done: seq<Instant>, at: Instant, w: ViolationAt)
    requires multiset(result)[w] == ReportsAmong(current, projected, rules, done, w)
    requires multiset(found)[w] == if Taken(current, rules, at, w) then Reports(projected, rules, w) else 0
    requires at !in done && at in Edges(current) + Edges(projected)
    ensures multiset(result + found)[w] == ReportsAmong(current, projected, rules, done + [at], w)
  {
    PositiveProduct(multiset(rules)[w.violation.rule],
                    Multiplicity(projected, w.violation.rule, w.validAt, w.violation));
    assert w.violation.rule in rules <==> multiset(rules)[w.violation.rule] > 0;
  }

  lemma EdgeIsNew(boundaries: seq<Instant>, i: nat)
    requires Orders.StrictlySorted(EdgeOrder(), boundaries) && i < |boundaries|
    ensures boundaries[i] !in boundaries[..i] && boundaries[..i + 1] == boundaries[..i] + [boundaries[i]]
  {
  }

  lemma ReportedIsNew(result: seq<ViolationAt>, current: seq<Triple>, projected: seq<Triple>, rules: seq<Rule>,
                      w: ViolationAt)
    requires ReportsNew(result, current, projected, rules)
    ensures w in result <==> IsNew(current, projected, rules, w)
  {
    PositiveProduct(multiset(rules)[w.violation.rule],
                    Multiplicity(projected, w.violation.rule, w.validAt, w.violation));
    assert w.violation.rule in rules <==> multiset(rules)[w.violation.rule] > 0;
    assert w in result <==> multiset(result)[w] > 0;
  }

  method NewlyViolated(current: seq<Triple>, ops: seq<Op>, rules: seq<Rule>, instant: Instant, c: Collation)
    returns (result: seq<ViolationAt>)
    requires c.Valid()
    ensures ReportsNew(result, current, Projection(current, ops, instant), rules)
    ensures forall w :: w in result <==> IsNew(current, Projection(current, ops, instant), rules, w)
    ensures result == [] <==> NoWorse(current, Projection(current, ops, instant), rules)
  {
    result := [];
    if rules == [] { return; }
    var projected := Project(current, ops, instant);
    var boundaries := SortedEdges(current + projected);
    EdgesAppend(current, projected);
    for i := 0 to |boundaries|
      invariant ReportsUpTo(result, current, projected, rules, boundaries[..i])
    {
      var at := boundaries[i];
      EdgeIsNew(boundaries, i);
      assert at in boundaries;
      var found := CompareAt(current, projected, rules, at, c);
      forall w ensures multiset(result + found)[w] == ReportsAmong(current, projected, rules, boundaries[..i + 1], w) {
        NextEdgeReports(result, found, current, projected, rules, boundaries[..i], at, w);
      }
      result := result + found;
    }
    assert boundaries[..|boundaries|] == boundaries;
    assert ReportsNew(result, current, projected, rules);
    forall w ensures w in result <==> IsNew(current, projected, rules, w) {
      ReportedIsNew(result, current, projected, rules, w);
    }
    EmptyMeansNoWorse(current, projected, rules, result);
  }

  lemma EmptyMeansNoWorse(current: seq<Triple>, projected: seq<Triple>, rules: seq<Rule>, result: seq<ViolationAt>)
    requires forall w :: w in result <==> IsNew(current, projected, rules, w)
    ensures result == [] <==> NoWorse(current, projected, rules)
  {
    if result == [] {
      forall edge | edge in Edges(current) + Edges(projected) ensures NoWorseAt(current, projected, rules, edge) {
        forall v | IsViolation(projected, rules, edge, v) ensures Already(current, rules, edge, v) {
          assert !IsNew(current, projected, rules, ViolationAt(v, edge));
        }
      }
      EdgesDecide(current, projected, rules);
    } else {
      assert result[0] in result;
      assert IsNew(current, projected, rules, result[0]);
    }
  }
}
