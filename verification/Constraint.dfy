/** Graph-constraint rules: what it means for a set of facts to violate them at
    one valid-time instant. */
module Constraint {
  import opened Facts

  datatype Rule =
    | Required(entityType: string, attribute: string)
    | Cardinality(entityType: string, attribute: string, max: int)
    | Unique(entityType: string, attribute: string)
    | ReferenceTarget(entityType: string, attribute: string, targetEntityType: string)

  datatype Message =
    | IsRequired
    | TooManyValues(count: nat, max: int)
    | AlsoUsedBy(others: set<string>)
    | TargetNotLive(target: string)
    | NotAReference

  /** The rule stands for the constraint key, code, entity type and attribute. */
  datatype Violation = Violation(
    rule: Rule,
    subject: string,
    message: Message,
    actual: nat,
    valueIdentity: Option<ValueIdentity>)

  /** What makes a violation before and a violation after the same violation. */
  datatype ViolationIdentity = ViolationIdentity(rule: Rule, subject: string, value: Option<ValueIdentity>)

  function IdentityOf(v: Violation): ViolationIdentity {
    ViolationIdentity(v.rule, v.subject, v.valueIdentity)
  }

  /** Entities that some visible fact declares to be of the given type. */
  function Subjects(facts: seq<Triple>, entityType: string, at: Instant): set<string> {
    set f | f in facts && VisibleAt(f, at) && f.entityType == Some(entityType) :: f.entityId
  }

  /** Visible facts of one subject and attribute, whatever type they declare. */
  function Count(facts: seq<Triple>, subject: string, attribute: string, at: Instant): nat {
    |Filter(facts, (f: Triple) => VisibleAt(f, at) && f.entityId == subject && f.attribute == attribute)|
  }

  predicate Claims(facts: seq<Triple>, rule: Rule, at: Instant, f: Triple) {
    VisibleAt(f, at) && f.attribute == rule.attribute && f.entityId in Subjects(facts, rule.entityType, at)
  }

  function Claimants(facts: seq<Triple>, rule: Rule, at: Instant, identity: ValueIdentity): set<string> {
    set f | f in facts && Claims(facts, rule, at, f) && IdentityOfValue(f) == identity :: f.entityId
  }

  predicate TargetLive(facts: seq<Triple>, value: Value, targetType: string, at: Instant) {
    value.RefValue? && value.target in Subjects(facts, targetType, at)
  }

  predicate Dangles(facts: seq<Triple>, rule: Rule, at: Instant, f: Triple)
    requires rule.ReferenceTarget?
  {
    Claims(facts, rule, at, f) && !TargetLive(facts, f.value, rule.targetEntityType, at)
  }

  function MissingValue(rule: Rule, subject: string): Violation {
    Violation(rule, subject, IsRequired, 0, None)
  }

  function ExcessValues(rule: Rule, subject: string, count: nat): Violation
    requires rule.Cardinality?
  {
    Violation(rule, subject, TooManyValues(count, rule.max), count, None)
  }

  function SharedValue(rule: Rule, subject: string, identity: ValueIdentity, claimants: set<string>): Violation {
    Violation(rule, subject, AlsoUsedBy(claimants - {subject}), |claimants|, Some(identity))
  }

  function BadReference(rule: Rule, f: Triple): Violation {
    Violation(rule, f.entityId, if f.value.RefValue? then TargetNotLive(f.value.target) else NotAReference,
              1, Some(IdentityOfValue(f)))
  }

  /** How often one evaluation of `rule` reports `v`: once per offending subject,
      once per claimant of a shared value, once per dangling fact. */
  function Multiplicity(facts: seq<Triple>, rule: Rule, at: Instant, v: Violation): nat {
    if v.rule != rule then 0 else
    match rule
    case Required(entityType, attribute) =>
      if v.subject in Subjects(facts, entityType, at) && Count(facts, v.subject, attribute, at) == 0
         && v == MissingValue(rule, v.subject) then 1 else 0
    case Cardinality(entityType, attribute, max) =>
      var count := Count(facts, v.subject, attribute, at);
      if v.subject in Subjects(facts, entityType, at) && count > max
         && v == ExcessValues(rule, v.subject, count) then 1 else 0
    case Unique(_, _) =>
      if v.valueIdentity.None? then 0 else
      var claimants := Claimants(facts, rule, at, v.valueIdentity.value);
      if v.subject in claimants && |claimants| >= 2
         && v == SharedValue(rule, v.subject, v.valueIdentity.value, claimants) then 1 else 0
    case ReferenceTarget(_, _, _) =>
      |Filter(facts, (f: Triple) => Dangles(facts, rule, at, f) && BadReference(rule, f) == v)|
  }

  predicate IsViolation(facts: seq<Triple>, rules: seq<Rule>, at: Instant, v: Violation) {
    v.rule in rules && Multiplicity(facts, v.rule, at, v) > 0
  }

  /** Within one evaluation, the identity of a violation fixes the whole report. */
  lemma IdentityFixesViolation(facts: seq<Triple>, rules: seq<Rule>, at: Instant, v: Violation, w: Violation)
    requires IsViolation(facts, rules, at, v) && IsViolation(facts, rules, at, w)
    requires IdentityOf(v) == IdentityOf(w)
    ensures v == w
  {
    if v.rule.ReferenceTarget? {
      var f := DanglingFact(facts, v.rule, at, v);
      var g := DanglingFact(facts, v.rule, at, w);
      assert IdentityOfValue(f) == IdentityOfValue(g);
    }
  }

  lemma DanglingFact(facts: seq<Triple>, rule: Rule, at: Instant, v: Violation) returns (f: Triple)
    requires rule.ReferenceTarget? && Multiplicity(facts, rule, at, v) > 0
    ensures f in facts && Dangles(facts, rule, at, f) && BadReference(rule, f) == v
  {
    var bad := Filter(facts, (f: Triple) => Dangles(facts, rule, at, f) && BadReference(rule, f) == v);
    f := bad[0];
    assert f in bad;
  }

  /** Reports do not depend on the order in which facts are listed. */
  lemma MultiplicityIgnoresOrder(a: seq<Triple>, b: seq<Triple>, rule: Rule, at: Instant, v: Violation)
    requires multiset(a) == multiset(b)
    ensures Multiplicity(a, rule, at, v) == Multiplicity(b, rule, at, v)
  {
    forall f ensures f in a <==> f in b {
      assert f in a <==> f in multiset(a);
      assert f in b <==> f in multiset(b);
    }
    assert forall entityType :: Subjects(a, entityType, at) == Subjects(b, entityType, at);
    match rule
    case Required(_, attribute) => CountIgnoresOrder(a, b, v.subject, attribute, at);
    case Cardinality(_, attribute, _) => CountIgnoresOrder(a, b, v.subject, attribute, at);
    case Unique(_, _) =>
      if v.valueIdentity.Some? {
        assert Claimants(a, rule, at, v.valueIdentity.value) == Claimants(b, rule, at, v.valueIdentity.value);
      }
    case ReferenceTarget(_, _, _) =>
      var inA := (f: Triple) => Dangles(a, rule, at, f) && BadReference(rule, f) == v;
      var inB := (f: Triple) => Dangles(b, rule, at, f) && BadReference(rule, f) == v;
      FilterSameMultiset(a, b, inA);
      FilterSamePredicate(b, inA, inB);
  }

  lemma CountIgnoresOrder(a: seq<Triple>, b: seq<Triple>, subject: string, attribute: string, at: Instant)
    requires multiset(a) == multiset(b)
    ensures Count(a, subject, attribute, at) == Count(b, subject, attribute, at)
  {
    FilterSameMultiset(a, b, (f: Triple) => VisibleAt(f, at) && f.entityId == subject && f.attribute == attribute);
  }
}
