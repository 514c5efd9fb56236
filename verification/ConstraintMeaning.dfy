/** What reports and enforcement say, in terms of the stored fields of the facts. */
module ConstraintMeaning {
  import opened Facts
  import opened Constraint
  import opened ConstraintEnforcement

  predicate Shown(f: Triple, at: Instant) {
    f.validFrom <= at && (f.validTo.Some? ==> at < f.validTo.value)
  }

  ghost predicate Typed(facts: seq<Triple>, entityId: string, entityType: string, at: Instant) {
    exists f :: f in facts && Shown(f, at) && f.entityId == entityId && f.entityType == Some(entityType)
  }

  /** Where the shown values of an entity's attribute stand in the list. */
  ghost function Places(facts: seq<Triple>, entityId: string, attribute: string, at: Instant): set<nat> {
    set i: nat | i < |facts| && Shown(facts[i], at) && facts[i].entityId == entityId && facts[i].attribute == attribute
  }

  /** The same value: the same blind token, the same plain value, or for values
      sealed without a token the same fact. */
  predicate SameValue(f: Triple, g: Triple) {
    if f.value.SealedValue? && g.value.SealedValue? then
      if f.value.blind.Some? || g.value.blind.Some? then f.value.blind == g.value.blind else f.id == g.id
    else f.value == g.value
  }

  /** The fact gives an entity of the rule's type a value of its attribute. */
  ghost predicate Carries(facts: seq<Triple>, rule: Rule, at: Instant, f: Triple) {
    f in facts && Shown(f, at) && f.attribute == rule.attribute && Typed(facts, f.entityId, rule.entityType, at)
  }

  /** The entities that share the fact's value. */
  ghost function Sharers(facts: seq<Triple>, rule: Rule, at: Instant, f: Triple): set<string> {
    set g | g in facts && Carries(facts, rule, at, g) && SameValue(f, g) :: g.entityId
  }

  ghost predicate Dangling(facts: seq<Triple>, rule: Rule, at: Instant, f: Triple)
    requires rule.ReferenceTarget?
  {
    && Carries(facts, rule, at, f)
    && !(f.value.RefValue? && Typed(facts, f.value.target, rule.targetEntityType, at))
  }

  // Definitions in those terms

  lemma SameValueMeans(f: Triple, g: Triple)
    ensures IdentityOfValue(f) == IdentityOfValue(g) <==> SameValue(f, g)
  {
  }

  lemma SubjectsAreTyped(facts: seq<Triple>, entityType: string, at: Instant, entityId: string)
    ensures entityId in Subjects(facts, entityType, at) <==> Typed(facts, entityId, entityType, at)
  {
    assert forall f :: VisibleAt(f, at) <==> Shown(f, at);
  }

  lemma ClaimsCarries(facts: seq<Triple>, rule: Rule, at: Instant, f: Triple)
    ensures f in facts && Claims(facts, rule, at, f) <==> Carries(facts, rule, at, f)
  {
    SubjectsAreTyped(facts, rule.entityType, at, f.entityId);
  }

  ghost function PlacesOf<T>(s: seq<T>, keep: T -> bool): set<nat> {
    set i: nat | i < |s| && keep(s[i])
  }

  lemma NextPlace<T>(s: seq<T>, x: T, keep: T -> bool)
    ensures |PlacesOf(s + [x], keep)| == |PlacesOf(s, keep)| + if keep(x) then 1 else 0
  {
    assert PlacesOf(s + [x], keep) == PlacesOf(s, keep) + if keep(x) then {|s|} else {};
  }

  lemma {:induction false} FilterPlaces<T(!new)>(s: seq<T>, keep: T -> bool)
    ensures |Filter(s, keep)| == |PlacesOf(s, keep)|
  {
    if s == [] {
      assert PlacesOf(s, keep) == {};
    } else {
      var n := |s| - 1;
      FilterPlaces(s[..n], keep);
      assert s == s[..n] + [s[n]];
      FilterNext(s[..n], s[n], keep);
      NextPlace(s[..n], s[n], keep);
    }
  }

  lemma CountIsPlaces(facts: seq<Triple>, entityId: string, attribute: string, at: Instant)
    ensures Count(facts, entityId, attribute, at) == |Places(facts, entityId, attribute, at)|
  {
    var counts := (f: Triple) => VisibleAt(f, at) && f.entityId == entityId && f.attribute == attribute;
    FilterPlaces(facts, counts);
    assert PlacesOf(facts, counts) == Places(facts, entityId, attribute, at);
    assert Count(facts, entityId, attribute, at) == |Filter(facts, counts)|;
  }

  lemma ClaimantsAreSharers(facts: seq<Triple>, rule: Rule, at: Instant, f: Triple)
    ensures Claimants(facts, rule, at, IdentityOfValue(f)) == Sharers(facts, rule, at, f)
  {
    forall g | g in facts
      ensures Claims(facts, rule, at, g) <==> Carries(facts, rule, at, g)
      ensures IdentityOfValue(g) == IdentityOfValue(f) <==> SameValue(f, g)
    {
      ClaimsCarries(facts, rule, at, g);
      SameValueMeans(f, g);
    }
  }

  lemma DanglesIsDangling(facts: seq<Triple>, rule: Rule, at: Instant, f: Triple)
    requires rule.ReferenceTarget?
    ensures f in facts && Dangles(facts, rule, at, f) <==> Dangling(facts, rule, at, f)
  {
    ClaimsCarries(facts, rule, at, f);
    if f.value.RefValue? { SubjectsAreTyped(facts, rule.targetEntityType, at, f.value.target); }
  }

  // What is reported

  /** A required attribute is reported for each typed entity without a shown value. */
  lemma RequiredMeans(facts: seq<Triple>, rules: seq<Rule>, at: Instant, v: Violation)
    requires v.rule.Required?
    ensures IsViolation(facts, rules, at, v) <==>
            v.rule in rules && Typed(facts, v.subject, v.rule.entityType, at)
            && Places(facts, v.subject, v.rule.attribute, at) == {}
            && v.message == IsRequired && v.actual == 0 && v.valueIdentity == None
  {
    SubjectsAreTyped(facts, v.rule.entityType, at, v.subject);
    CountIsPlaces(facts, v.subject, v.rule.attribute, at);
  }

  /** A cardinality is reported for each typed entity with more shown values than
      allowed, and the report says how many. */
  lemma CardinalityMeans(facts: seq<Triple>, rules: seq<Rule>, at: Instant, v: Violation)
    requires v.rule.Cardinality?
    ensures var n := |Places(facts, v.subject, v.rule.attribute, at)|;
      IsViolation(facts, rules, at, v) <==>
      v.rule in rules && Typed(facts, v.subject, v.rule.entityType, at) && n > v.rule.max
      && v.message == TooManyValues(n, v.rule.max) && v.actual == n && v.valueIdentity == None
  {
    SubjectsAreTyped(facts, v.rule.entityType, at, v.subject);
    CountIsPlaces(facts, v.subject, v.rule.attribute, at);
  }

  /** The report of a shared value for the entity of one fact that has it. */
  ghost predicate ReportsShared(facts: seq<Triple>, at: Instant, v: Violation, f: Triple) {
    var sharers := Sharers(facts, v.rule, at, f);
    && Carries(facts, v.rule, at, f) && |sharers| >= 2
    && v.subject == f.entityId && v.actual == |sharers| && v.message == AlsoUsedBy(sharers - {f.entityId})
    && v.valueIdentity == Some(IdentityOfValue(f))
  }

  lemma UniqueMeans(facts: seq<Triple>, rules: seq<Rule>, at: Instant, v: Violation)
    requires v.rule.Unique?
    ensures IsViolation(facts, rules, at, v) <==> v.rule in rules && exists f :: ReportsShared(facts, at, v, f)
  {
    if IsViolation(facts, rules, at, v) {
      var identity := v.valueIdentity.value;
      var f :| f in facts && Claims(facts, v.rule, at, f) && IdentityOfValue(f) == identity && f.entityId == v.subject;
      ClaimsCarries(facts, v.rule, at, f);
      ClaimantsAreSharers(facts, v.rule, at, f);
      assert ReportsShared(facts, at, v, f);
    }
    if f :| ReportsShared(facts, at, v, f) {
      ClaimsCarries(facts, v.rule, at, f);
      ClaimantsAreSharers(facts, v.rule, at, f);
    }
  }

  lemma TwoInSet(s: set<string>, a: string, b: string)
    requires a in s && b in s && a != b
    ensures |s| >= 2
  {
    assert {a, b} <= s;
    assert |s| == |{a, b}| + |s - {a, b}|;
  }

  lemma OtherInSet(s: set<string>, a: string) returns (b: string)
    requires a in s && |s| >= 2
    ensures b in s && b != a
  {
    assert |s - {a}| == |s| - 1;
    b :| b in s - {a};
  }

  /** So an entity is reported under a uniqueness rule exactly when it shares a value
      with another: by blind token, whatever the ciphertexts, or by plain value. */
  lemma SharedSubjectReported(facts: seq<Triple>, rules: seq<Rule>, rule: Rule, at: Instant, subject: string)
    requires rule.Unique? && rule in rules
    ensures (exists v: Violation :: v.rule == rule && v.subject == subject && IsViolation(facts, rules, at, v)) <==>
            (exists f, g :: Carries(facts, rule, at, f) && Carries(facts, rule, at, g) && SameValue(f, g)
                            && f.entityId == subject != g.entityId)
  {
    if v: Violation :| v.rule == rule && v.subject == subject && IsViolation(facts, rules, at, v) {
      UniqueMeans(facts, rules, at, v);
      var f :| ReportsShared(facts, at, v, f);
      assert SameValue(f, f) && subject in Sharers(facts, rule, at, f);
      var other := OtherInSet(Sharers(facts, rule, at, f), subject);
      var g :| g in facts && Carries(facts, rule, at, g) && SameValue(f, g) && g.entityId == other;
    }
    if f, g :| Carries(facts, rule, at, f) && Carries(facts, rule, at, g) && SameValue(f, g)
               && f.entityId == subject != g.entityId {
      var sharers := Sharers(facts, rule, at, f);
      assert SameValue(f, f) && f.entityId in sharers && g.entityId in sharers;
      TwoInSet(sharers, f.entityId, g.entityId);
      var v := Violation(rule, subject, AlsoUsedBy(sharers - {subject}), |sharers|, Some(IdentityOfValue(f)));
      assert ReportsShared(facts, at, v, f);
      UniqueMeans(facts, rules, at, v);
    }
  }

  /** The report of a dangling reference. */
  ghost predicate ReportsDangling(facts: seq<Triple>, at: Instant, v: Violation, f: Triple)
    requires v.rule.ReferenceTarget?
  {
    && Dangling(facts, v.rule, at, f) && v.subject == f.entityId && v.actual == 1
    && v.message == (if f.value.RefValue? then TargetNotLive(f.value.target) else NotAReference)
    && v.valueIdentity == Some(IdentityOfValue(f))
  }

  ghost function DanglingPlaces(facts: seq<Triple>, at: Instant, v: Violation): set<nat>
    requires v.rule.ReferenceTarget?
  {
    set i: nat | i < |facts| && ReportsDangling(facts, at, v, facts[i])
  }

  /** Each dangling fact is reported, once. */
  lemma ReferenceMeans(facts: seq<Triple>, rules: seq<Rule>, at: Instant, v: Violation)
    requires v.rule.ReferenceTarget?
    ensures IsViolation(facts, rules, at, v) <==> v.rule in rules && exists f :: ReportsDangling(facts, at, v, f)
    ensures Multiplicity(facts, v.rule, at, v) == |DanglingPlaces(facts, at, v)|
  {
    var bad := (f: Triple) => Dangles(facts, v.rule, at, f) && BadReference(v.rule, f) == v;
    assert Multiplicity(facts, v.rule, at, v) == |Filter(facts, bad)|;
    FilterPlaces(facts, bad);
    forall f ensures f in facts && bad(f) <==> ReportsDangling(facts, at, v, f) {
      DanglesIsDangling(facts, v.rule, at, f);
    }
    assert DanglingPlaces(facts, at, v) == PlacesOf(facts, bad);
    if IsViolation(facts, rules, at, v) {
      var f := DanglingFact(facts, v.rule, at, v);
      assert ReportsDangling(facts, at, v, f);
    }
    if f :| ReportsDangling(facts, at, v, f) {
      assert f in Filter(facts, bad);
    }
  }

  // What enforcement asks

  ghost predicate RequiredNoWorse(before: seq<Triple>, after: seq<Triple>, rule: Rule, at: Instant) {
    forall e | Typed(after, e, rule.entityType, at) && Places(after, e, rule.attribute, at) == {} ::
      Typed(before, e, rule.entityType, at) && Places(before, e, rule.attribute, at) == {}
  }

  ghost predicate CardinalityNoWorse(before: seq<Triple>, after: seq<Triple>, rule: Rule, at: Instant)
    requires rule.Cardinality?
  {
    forall e | Typed(after, e, rule.entityType, at) && |Places(after, e, rule.attribute, at)| > rule.max ::
      && Typed(before, e, rule.entityType, at) && |Places(before, e, rule.attribute, at)| > rule.max
      && |Places(before, e, rule.attribute, at)| >= |Places(after, e, rule.attribute, at)|
  }

  /** The entity had the fact's value before, shared by at least `n`. */
  ghost predicate SharedBefore(before: seq<Triple>, rule: Rule, at: Instant, f: Triple, n: nat) {
    exists g :: Carries(before, rule, at, g) && g.entityId == f.entityId && SameValue(f, g)
                && |Sharers(before, rule, at, g)| >= n
  }

  ghost predicate UniqueNoWorse(before: seq<Triple>, after: seq<Triple>, rule: Rule, at: Instant) {
    forall f | Carries(after, rule, at, f) && |Sharers(after, rule, at, f)| >= 2 ::
      SharedBefore(before, rule, at, f, |Sharers(after, rule, at, f)|)
  }

  /** The entity had the fact's value before, dangling as well. */
  ghost predicate DangledBefore(before: seq<Triple>, rule: Rule, at: Instant, f: Triple)
    requires rule.ReferenceTarget?
  {
    exists g :: Dangling(before, rule, at, g) && g.entityId == f.entityId && SameValue(f, g)
  }

  ghost predicate ReferenceNoWorse(before: seq<Triple>, after: seq<Triple>, rule: Rule, at: Instant)
    requires rule.ReferenceTarget?
  {
    forall f | Dangling(after, rule, at, f) :: DangledBefore(before, rule, at, f)
  }

  ghost predicate RuleNoWorse(before: seq<Triple>, after: seq<Triple>, rule: Rule, at: Instant) {
    match rule
    case Required(_, _) => RequiredNoWorse(before, after, rule, at)
    case Cardinality(_, _, _) => CardinalityNoWorse(before, after, rule, at)
    case Unique(_, _) => UniqueNoWorse(before, after, rule, at)
    case ReferenceTarget(_, _, _) => ReferenceNoWorse(before, after, rule, at)
  }

  /** No report of the rule at that instant is new or grown. */
  ghost predicate ReportsNoWorse(before: seq<Triple>, after: seq<Triple>, rules: seq<Rule>, rule: Rule, at: Instant) {
    forall v: Violation | v.rule == rule && IsViolation(after, rules, at, v) :: Already(before, rules, at, v)
  }

  lemma RequiredDecides(before: seq<Triple>, after: seq<Triple>, rules: seq<Rule>, rule: Rule, at: Instant)
    requires rule.Required? && rule in rules
    ensures ReportsNoWorse(before, after, rules, rule, at) <==> RequiredNoWorse(before, after, rule, at)
  {
    forall facts, v: Violation | v.rule == rule
      ensures IsViolation(facts, rules, at, v) <==>
              Typed(facts, v.subject, rule.entityType, at) && Places(facts, v.subject, rule.attribute, at) == {}
              && v == Violation(rule, v.subject, IsRequired, 0, None)
    {
      RequiredMeans(facts, rules, at, v);
    }
    if ReportsNoWorse(before, after, rules, rule, at) {
      forall e | Typed(after, e, rule.entityType, at) && Places(after, e, rule.attribute, at) == {}
        ensures Typed(before, e, rule.entityType, at) && Places(before, e, rule.attribute, at) == {}
      {
        var v := Violation(rule, e, IsRequired, 0, None);
        assert IsViolation(after, rules, at, v) && Already(before, rules, at, v);
      }
    }
    if RequiredNoWorse(before, after, rule, at) {
      forall v: Violation | v.rule == rule && IsViolation(after, rules, at, v) ensures Already(before, rules, at, v) {
        assert IsViolation(before, rules, at, v);
      }
    }
  }

  ghost function TooMany(rule: Rule, e: string, n: nat): Violation
    requires rule.Cardinality?
  {
    Violation(rule, e, TooManyValues(n, rule.max), n, None)
  }

  lemma CardinalityDecides(before: seq<Triple>, after: seq<Triple>, rules: seq<Rule>, rule: Rule, at: Instant)
    requires rule.Cardinality? && rule in rules
    ensures ReportsNoWorse(before, after, rules, rule, at) <==> CardinalityNoWorse(before, after, rule, at)
  {
    forall facts, v: Violation | v.rule == rule
      ensures var n := |Places(facts, v.subject, rule.attribute, at)|;
        IsViolation(facts, rules, at, v) <==>
        Typed(facts, v.subject, rule.entityType, at) && n > rule.max && v == TooMany(rule, v.subject, n)
    {
      CardinalityMeans(facts, rules, at, v);
    }
    if ReportsNoWorse(before, after, rules, rule, at) {
      forall e | Typed(after, e, rule.entityType, at) && |Places(after, e, rule.attribute, at)| > rule.max
        ensures Typed(before, e, rule.entityType, at) && |Places(before, e, rule.attribute, at)| > rule.max
        ensures |Places(before, e, rule.attribute, at)| >= |Places(after, e, rule.attribute, at)|
      {
        var v := TooMany(rule, e, |Places(after, e, rule.attribute, at)|);
        assert IsViolation(after, rules, at, v) && Already(before, rules, at, v);
      }
    }
    if CardinalityNoWorse(before, after, rule, at) {
      forall v: Violation | v.rule == rule && IsViolation(after, rules, at, v) ensures Already(before, rules, at, v) {
        var w := TooMany(rule, v.subject, |Places(before, v.subject, rule.attribute, at)|);
        assert IsViolation(before, rules, at, w) && IdentityOf(w) == IdentityOf(v) && w.actual >= v.actual;
      }
    }
  }

  ghost function Shared(facts: seq<Triple>, rule: Rule, at: Instant, f: Triple): Violation {
    var sharers := Sharers(facts, rule, at, f);
    Violation(rule, f.entityId, AlsoUsedBy(sharers - {f.entityId}), |sharers|, Some(IdentityOfValue(f)))
  }

  lemma UniqueAsked(before: seq<Triple>, after: seq<Triple>, rules: seq<Rule>, rule: Rule, at: Instant, f: Triple)
    requires rule.Unique? && rule in rules && ReportsNoWorse(before, after, rules, rule, at)
    requires Carries(after, rule, at, f) && |Sharers(after, rule, at, f)| >= 2
    ensures SharedBefore(before, rule, at, f, |Sharers(after, rule, at, f)|)
  {
    var v := Shared(after, rule, at, f);
    assert ReportsShared(after, at, v, f);
    UniqueMeans(after, rules, at, v);
    assert Already(before, rules, at, v);
    var w :| IsViolation(before, rules, at, w) && IdentityOf(w) == IdentityOf(v) && w.actual >= v.actual;
    UniqueMeans(before, rules, at, w);
    var g :| ReportsShared(before, at, w, g);
    SameValueMeans(f, g);
  }

  lemma UniqueGiven(before: seq<Triple>, after: seq<Triple>, rules: seq<Rule>, at: Instant, v: Violation)
    requires v.rule.Unique? && UniqueNoWorse(before, after, v.rule, at) && IsViolation(after, rules, at, v)
    ensures Already(before, rules, at, v)
  {
    UniqueMeans(after, rules, at, v);
    var f :| ReportsShared(after, at, v, f);
    assert SharedBefore(before, v.rule, at, f, |Sharers(after, v.rule, at, f)|);
    var g :| Carries(before, v.rule, at, g) && g.entityId == f.entityId && SameValue(f, g)
             && |Sharers(before, v.rule, at, g)| >= |Sharers(after, v.rule, at, f)|;
    SameValueMeans(f, g);
    var w := Shared(before, v.rule, at, g);
    assert ReportsShared(before, at, w, g);
    UniqueMeans(before, rules, at, w);
    assert IdentityOf(w) == IdentityOf(v) && w.actual >= v.actual;
  }

  lemma ReferenceAsked(before: seq<Triple>, after: seq<Triple>, rules: seq<Rule>, rule: Rule, at: Instant, f: Triple)
    requires rule.ReferenceTarget? && rule in rules && ReportsNoWorse(before, after, rules, rule, at)
    requires Dangling(after, rule, at, f)
    ensures DangledBefore(before, rule, at, f)
  {
    var message := if f.value.RefValue? then TargetNotLive(f.value.target) else NotAReference;
    var v := Violation(rule, f.entityId, message, 1, Some(IdentityOfValue(f)));
    assert ReportsDangling(after, at, v, f);
    ReferenceMeans(after, rules, at, v);
    assert Already(before, rules, at, v);
    var w :| IsViolation(before, rules, at, w) && IdentityOf(w) == IdentityOf(v) && w.actual >= v.actual;
    ReferenceMeans(before, rules, at, w);
    var g :| ReportsDangling(before, at, w, g);
    SameValueMeans(f, g);
  }

  lemma ReferenceGiven(before: seq<Triple>, after: seq<Triple>, rules: seq<Rule>, at: Instant, v: Violation)
    requires v.rule.ReferenceTarget? && ReferenceNoWorse(before, after, v.rule, at) && IsViolation(after, rules, at, v)
    ensures Already(before, rules, at, v)
  {
    ReferenceMeans(after, rules, at, v);
    var f :| ReportsDangling(after, at, v, f);
    assert DangledBefore(before, v.rule, at, f);
    var g :| Dangling(before, v.rule, at, g) && g.entityId == f.entityId && SameValue(f, g);
    SameValueMeans(f, g);
    var message := if g.value.RefValue? then TargetNotLive(g.value.target) else NotAReference;
    var w := Violation(v.rule, g.entityId, message, 1, Some(IdentityOfValue(g)));
    assert ReportsDangling(before, at, w, g);
    ReferenceMeans(before, rules, at, w);
    assert IdentityOf(w) == IdentityOf(v) && w.actual >= v.actual;
  }

  lemma RuleDecides(before: seq<Triple>, after: seq<Triple>, rules: seq<Rule>, rule: Rule, at: Instant)
    requires rule in rules
    ensures ReportsNoWorse(before, after, rules, rule, at) <==> RuleNoWorse(before, after, rule, at)
  {
    match rule
    case Required(_, _) => RequiredDecides(before, after, rules, rule, at);
    case Cardinality(_, _, _) => CardinalityDecides(before, after, rules, rule, at);
    case Unique(_, _) =>
      if ReportsNoWorse(before, after, rules, rule, at) {
        forall f | Carries(after, rule, at, f) && |Sharers(after, rule, at, f)| >= 2
          ensures SharedBefore(before, rule, at, f, |Sharers(after, rule, at, f)|)
        {
          UniqueAsked(before, after, rules, rule, at, f);
        }
      }
      if UniqueNoWorse(before, after, rule, at) {
        forall v: Violation | v.rule == rule && IsViolation(after, rules, at, v) ensures Already(before, rules, at, v) {
          UniqueGiven(before, after, rules, at, v);
        }
      }
    case ReferenceTarget(_, _, _) =>
      if ReportsNoWorse(before, after, rules, rule, at) {
        forall f | Dangling(after, rule, at, f) ensures DangledBefore(before, rule, at, f) {
          ReferenceAsked(before, after, rules, rule, at, f);
        }
      }
      if ReferenceNoWorse(before, after, rule, at) {
        forall v: Violation | v.rule == rule && IsViolation(after, rules, at, v) ensures Already(before, rules, at, v) {
          ReferenceGiven(before, after, rules, at, v);
        }
      }
  }

  /** A transaction passes exactly when, for each rule at each instant: no typed entity
      loses its last required value or appears without one, none above its maximum has
      more values than before, no value becomes shared or shared by more, and no
      reference newly dangles. */
  lemma EnforcementMeans(before: seq<Triple>, after: seq<Triple>, rules: seq<Rule>)
    ensures NoWorse(before, after, rules) <==>
            forall rule, at: Instant | rule in rules :: RuleNoWorse(before, after, rule, at)
  {
    forall rule, at: Instant | rule in rules
      ensures ReportsNoWorse(before, after, rules, rule, at) <==> RuleNoWorse(before, after, rule, at)
    {
      RuleDecides(before, after, rules, rule, at);
    }
    if NoWorse(before, after, rules) {
      forall rule, at: Instant | rule in rules ensures RuleNoWorse(before, after, rule, at) {
        assert ReportsNoWorse(before, after, rules, rule, at);
      }
    }
    if forall rule, at: Instant | rule in rules :: RuleNoWorse(before, after, rule, at) {
      forall at: Instant, v | IsViolation(after, rules, at, v) ensures Already(before, rules, at, v) {
        assert RuleNoWorse(before, after, v.rule, at) && ReportsNoWorse(before, after, rules, v.rule, at);
      }
    }
  }

  /** One more value of an entity that is above its maximum is refused, whatever else
      the transaction does. */
  lemma GrownCountIsRefused(before: seq<Triple>, after: seq<Triple>, rules: seq<Rule>, rule: Rule, at: Instant,
                            e: string)
    requires rule.Cardinality? && rule in rules && Typed(after, e, rule.entityType, at)
    requires |Places(after, e, rule.attribute, at)| > rule.max
    requires |Places(after, e, rule.attribute, at)| > |Places(before, e, rule.attribute, at)|
    ensures !NoWorse(before, after, rules)
  {
    EnforcementMeans(before, after, rules);
    assert !CardinalityNoWorse(before, after, rule, at) && !RuleNoWorse(before, after, rule, at);
  }
}
