/** Enforcement reads only a slice of the live facts, and the slice decides as the
    whole store does. */
module ConstraintSlice {
  import opened Facts
  import opened Constraint
  import opened ConstraintEvaluation
  import opened ConstraintEnforcement
  import Orders

  // Loading

  /** An empty type constrains nothing. */
  function ByEntityType(all: seq<Triple>, entityType: string): seq<Triple> {
    if entityType == "" then all else Filter(all, (f: Triple) => f.entityType == Some(entityType))
  }

  function ByEntity(all: seq<Triple>, entityId: string): seq<Triple> {
    Filter(all, (f: Triple) => f.entityId == entityId)
  }

  function FlatMap<A(!new), B(!new)>(s: seq<A>, f: A -> seq<B>): (r: seq<B>)
    ensures forall y :: y in r <==> exists x :: x in s && y in f(x)
  {
    if s == [] then [] else f(s[0]) + FlatMap(s[1..], f)
  }

  function SortedSet(s: seq<string>): (r: seq<string>)
    ensures forall x :: x in r <==> x in s
  {
    Orders.SortBy(CodeUnitLess, Deduplicate(s))
  }

  function TargetTypeOf(rule: Rule): seq<string> {
    if rule.ReferenceTarget? then [rule.targetEntityType] else []
  }

  function CreatedSubject(op: Op, sourceTypes: seq<string>): seq<string> {
    if op.Assert? && op.entityType.Some? && op.entityType.value in sourceTypes then [op.entityId] else []
  }

  function Ids(s: seq<Triple>): set<string> {
    set f | f in s :: f.id
  }

  /** Like a map from id to fact: the first position of an id, its last fact. */
  function UniqueById(s: seq<Triple>): (r: seq<Triple>)
    ensures forall f :: f in r ==> f in s
    ensures Ids(r) == Ids(s)
  {
    if s == [] then []
    else
      var n := |s| - 1;
      assert s == s[..n] + [s[n]];
      assert Ids(s) == Ids(s[..n]) + {s[n].id};
      Put(UniqueById(s[..n]), s[n])
  }

  function Put(s: seq<Triple>, f: Triple): (r: seq<Triple>)
    ensures forall g :: g in r ==> g == f || g in s
    ensures Ids(r) == Ids(s) + {f.id}
  {
    if s == [] then [f]
    else
      IdsCons(s[0], s[1..]);
      assert s == [s[0]] + s[1..];
      if s[0].id == f.id then
        IdsCons(f, s[1..]);
        [f] + s[1..]
      else
        IdsCons(s[0], Put(s[1..], f));
        [s[0]] + Put(s[1..], f)
  }

  lemma IdsCons(f: Triple, rest: seq<Triple>)
    ensures Ids([f] + rest) == {f.id} + Ids(rest)
  {
    assert forall g :: g in [f] + rest <==> g == f || g in rest;
  }

  lemma {:induction false} PutDistinct(s: seq<Triple>, f: Triple)
    requires DistinctIds(s)
    ensures DistinctIds(Put(s, f))
  {
    if s != [] && s[0].id != f.id {
      PutDistinct(s[1..], f);
      var rest := Put(s[1..], f);
      forall i | 0 <= i < |rest| ensures rest[i].id != s[0].id {
        assert rest[i].id in Ids(rest);
        assert s[0].id !in Ids(s[1..]);
      }
    }
  }

  lemma {:induction false} UniqueByIdDistinct(s: seq<Triple>)
    ensures DistinctIds(UniqueById(s))
  {
    if s != [] {
      UniqueByIdDistinct(s[..|s| - 1]);
      PutDistinct(UniqueById(s[..|s| - 1]), s[|s| - 1]);
    }
  }

  function SourceTypes(rules: seq<Rule>): seq<string> {
    SortedSet(FlatMap(rules, (rule: Rule) => [rule.entityType]))
  }

  function TargetTypes(rules: seq<Rule>): seq<string> {
    SortedSet(FlatMap(rules, TargetTypeOf))
  }

  function TypeScan(all: seq<Triple>): string -> seq<Triple> {
    (entityType: string) => ByEntityType(all, entityType)
  }

  function EntityScan(all: seq<Triple>): string -> seq<Triple> {
    (entityId: string) => ByEntity(all, entityId)
  }

  function ByTypes(types: seq<string>, all: seq<Triple>): seq<Triple> {
    FlatMap(types, TypeScan(all))
  }

  function ByEntities(ids: seq<string>, all: seq<Triple>): seq<Triple> {
    FlatMap(ids, EntityScan(all))
  }

  /** The subjects that the source type scans and the operations name. */
  function SourceIdsOf(rules: seq<Rule>, ops: seq<Op>, sourceTypeFacts: seq<Triple>): seq<string> {
    var sourceTypes := SourceTypes(rules);
    SortedSet(FlatMap(sourceTypeFacts, (f: Triple) => [f.entityId])
              + FlatMap(ops, (op: Op) => CreatedSubject(op, sourceTypes)))
  }

  function SourceIds(rules: seq<Rule>, ops: seq<Op>, all: seq<Triple>): seq<string> {
    SourceIdsOf(rules, ops, ByTypes(SourceTypes(rules), all))
  }

  function LoadRelevantFacts(rules: seq<Rule>, ops: seq<Op>, all: seq<Triple>): seq<Triple> {
    UniqueById(Loaded(rules, ops, all))
  }

  /** Source type scans, the expansion of the subjects they and the operations
      name, and the target type scans. */
  function Loaded(rules: seq<Rule>, ops: seq<Op>, all: seq<Triple>): seq<Triple> {
    ByTypes(SourceTypes(rules), all) + ByEntities(SourceIds(rules, ops, all), all) + ByTypes(TargetTypes(rules), all)
  }

  /** A fact that no rule can look at, whatever the operations do. */
  ghost predicate Irrelevant(rules: seq<Rule>, ids: seq<string>, f: Triple) {
    && f.entityId !in ids
    && forall rule | rule in rules ::
         && f.entityType != Some(rule.entityType)
         && (rule.ReferenceTarget? ==> f.entityType != Some(rule.targetEntityType))
  }

  lemma SourceTypesAre(rules: seq<Rule>, entityType: string)
    ensures entityType in SourceTypes(rules) <==> exists rule :: rule in rules && rule.entityType == entityType
  {
    var f := (rule: Rule) => [rule.entityType];
    forall rule | rule in rules && rule.entityType == entityType ensures entityType in FlatMap(rules, f) {
      assert entityType in f(rule);
    }
  }

  lemma SourceIdsContain(rules: seq<Rule>, ops: seq<Op>, all: seq<Triple>, rule: Rule)
    requires rule in rules
    ensures forall f | f in all && f.entityType == Some(rule.entityType) :: f.entityId in SourceIds(rules, ops, all)
    ensures forall op | op in ops && op.Assert? && op.entityType == Some(rule.entityType) ::
              op.entityId in SourceIds(rules, ops, all)
  {
    SourceTypesAre(rules, rule.entityType);
    var sourceTypes := SourceTypes(rules);
    var loader := (t: string) => ByEntityType(all, t);
    var idOf := (f: Triple) => [f.entityId];
    var created := (op: Op) => CreatedSubject(op, sourceTypes);
    forall f | f in all && f.entityType == Some(rule.entityType) ensures f.entityId in SourceIds(rules, ops, all) {
      assert f in loader(rule.entityType);
      assert f in FlatMap(sourceTypes, loader);
      assert f.entityId in idOf(f);
    }
    forall op | op in ops && op.Assert? && op.entityType == Some(rule.entityType)
      ensures op.entityId in SourceIds(rules, ops, all)
    {
      assert op.entityId in created(op);
    }
  }

  lemma LoadedByType(all: seq<Triple>, types: seq<string>, f: Triple)
    ensures f in FlatMap(types, (t: string) => ByEntityType(all, t)) <==>
            f in all && ("" in types || (f.entityType.Some? && f.entityType.value in types))
  {
    var byType := (t: string) => ByEntityType(all, t);
    if f in all && "" in types {
      assert f in byType("");
    } else if f in all && f.entityType.Some? && f.entityType.value in types {
      assert f in byType(f.entityType.value);
    }
  }

  lemma LoadedById(all: seq<Triple>, ids: seq<string>, f: Triple)
    ensures f in FlatMap(ids, (id: string) => ByEntity(all, id)) <==> f in all && f.entityId in ids
  {
    var byId := (id: string) => ByEntity(all, id);
    if f in all && f.entityId in ids {
      assert f in byId(f.entityId);
    }
  }

  lemma TargetTypesAre(rules: seq<Rule>, rule: Rule)
    requires rule in rules && rule.ReferenceTarget?
    ensures rule.targetEntityType in SortedSet(FlatMap(rules, TargetTypeOf))
  {
    assert rule.targetEntityType in TargetTypeOf(rule);
  }

  /** A fact or an assertion of the rule's type names the entity. */
  ghost predicate NamesSubject(rule: Rule, ops: seq<Op>, all: seq<Triple>, id: string) {
    || (exists f :: f in all && f.entityId == id && (rule.entityType == "" || f.entityType == Some(rule.entityType)))
    || (exists op :: op in ops && op.Assert? && op.entityId == id && op.entityType == Some(rule.entityType))
  }

  lemma FoundNames(rules: seq<Rule>, ops: seq<Op>, all: seq<Triple>, f: Triple)
    requires f in ByTypes(SourceTypes(rules), all)
    ensures exists rule :: rule in rules && NamesSubject(rule, ops, all, f.entityId)
  {
    var t :| t in SourceTypes(rules) && f in TypeScan(all)(t);
    SourceTypesAre(rules, t);
    var rule :| rule in rules && rule.entityType == t;
    assert NamesSubject(rule, ops, all, f.entityId);
  }

  lemma CreatedNames(rules: seq<Rule>, ops: seq<Op>, all: seq<Triple>, op: Op, id: string)
    requires op in ops && id in CreatedSubject(op, SourceTypes(rules))
    ensures exists rule :: rule in rules && NamesSubject(rule, ops, all, id)
  {
    SourceTypesAre(rules, op.entityType.value);
    var rule :| rule in rules && rule.entityType == op.entityType.value;
    assert NamesSubject(rule, ops, all, id);
  }

  lemma SubjectFrom(rules: seq<Rule>, ops: seq<Op>, found: seq<Triple>, id: string)
    ensures id in SourceIdsOf(rules, ops, found) <==>
            (exists f :: f in found && f.entityId == id)
                || (exists op :: op in ops && id in CreatedSubject(op, SourceTypes(rules)))
  {
    var types := SourceTypes(rules);
    var idOf := (f: Triple) => [f.entityId];
    var created := (op: Op) => CreatedSubject(op, types);
    if f :| f in found && f.entityId == id {
      assert id in idOf(f);
    }
    if op :| op in ops && id in CreatedSubject(op, types) {
      assert id in created(op);
    }
    assert id in FlatMap(found, idOf) <==> exists f :: f in found && id in idOf(f);
    assert id in FlatMap(ops, created) <==> exists op :: op in ops && id in created(op);
  }

  lemma NamedIsSource(rules: seq<Rule>, ops: seq<Op>, all: seq<Triple>, rule: Rule, id: string)
    requires rule in rules && NamesSubject(rule, ops, all, id)
    ensures id in SourceIds(rules, ops, all)
  {
    SourceIdsContain(rules, ops, all, rule);
    if rule.entityType == "" {
      if f :| f in all && f.entityId == id {
        SourceTypesAre(rules, "");
        assert f in TypeScan(all)("");
        assert f in ByTypes(SourceTypes(rules), all);
        SubjectFrom(rules, ops, ByTypes(SourceTypes(rules), all), id);
      }
    }
  }

  /** The expanded entities are exactly those that a fact or an assertion of a source
      type names. */
  lemma SourceIdsAre(rules: seq<Rule>, ops: seq<Op>, all: seq<Triple>, id: string)
    ensures id in SourceIds(rules, ops, all) <==> exists rule :: rule in rules && NamesSubject(rule, ops, all, id)
  {
    var found := ByTypes(SourceTypes(rules), all);
    SubjectFrom(rules, ops, found, id);
    if f :| f in found && f.entityId == id { FoundNames(rules, ops, all, f); }
    if op :| op in ops && id in CreatedSubject(op, SourceTypes(rules)) { CreatedNames(rules, ops, all, op, id); }
    if rule :| rule in rules && NamesSubject(rule, ops, all, id) { NamedIsSource(rules, ops, all, rule, id); }
  }

  lemma RelevantIsLoaded(rules: seq<Rule>, ops: seq<Op>, all: seq<Triple>, f: Triple)
    ensures f in Loaded(rules, ops, all) ==> f in all
    ensures f in all && !Irrelevant(rules, SourceIds(rules, ops, all), f) ==> f in Loaded(rules, ops, all)
  {
    var targetTypes := SortedSet(FlatMap(rules, TargetTypeOf));
    var ids := SourceIds(rules, ops, all);
    LoadedByType(all, SourceTypes(rules), f);
    LoadedById(all, ids, f);
    LoadedByType(all, targetTypes, f);
    if f in all && !Irrelevant(rules, ids, f) && f.entityId !in ids {
      var rule :| rule in rules && (f.entityType == Some(rule.entityType) ||
                                    (rule.ReferenceTarget? && f.entityType == Some(rule.targetEntityType)));
      SourceTypesAre(rules, rule.entityType);
      if rule.ReferenceTarget? { TargetTypesAre(rules, rule); }
    }
  }

  lemma LoadedFacts(rules: seq<Rule>, ops: seq<Op>, all: seq<Triple>, f: Triple)
    requires DistinctIds(all)
    ensures f in LoadRelevantFacts(rules, ops, all) ==> f in all
    ensures f in all && !Irrelevant(rules, SourceIds(rules, ops, all), f) ==> f in LoadRelevantFacts(rules, ops, all)
  {
    var loaded := Loaded(rules, ops, all);
    RelevantIsLoaded(rules, ops, all, f);
    if f in loaded {
      assert f.id in Ids(UniqueById(loaded));
      var g :| g in UniqueById(loaded) && g.id == f.id;
      RelevantIsLoaded(rules, ops, all, g);
      SameIdSameFact(all, f, g);
    }
  }

  lemma SameIdSameFact(all: seq<Triple>, f: Triple, g: Triple)
    requires DistinctIds(all) && f in all && g in all && f.id == g.id
    ensures f == g
  {
  }

  lemma DistinctFacts(s: seq<Triple>, f: Triple)
    requires DistinctIds(s)
    ensures multiset(s)[f] == if f in s then 1 else 0
  {
    DistinctMultiset(s, f);
  }

  /** What the slice leaves out is irrelevant. */
  lemma SliceLeavesOut(rules: seq<Rule>, ops: seq<Op>, all: seq<Triple>) returns (rest: multiset<Triple>)
    requires DistinctIds(all)
    ensures multiset(all) == multiset(LoadRelevantFacts(rules, ops, all)) + rest
    ensures forall f | f in rest :: Irrelevant(rules, SourceIds(rules, ops, all), f)
  {
    var slice := LoadRelevantFacts(rules, ops, all);
    rest := multiset(all) - multiset(slice);
    forall f ensures multiset(slice)[f] <= multiset(all)[f] {
      SliceCounts(rules, ops, all, f);
    }
    forall f | f in rest ensures Irrelevant(rules, SourceIds(rules, ops, all), f) {
      SliceCounts(rules, ops, all, f);
    }
  }

  lemma SliceCounts(rules: seq<Rule>, ops: seq<Op>, all: seq<Triple>, f: Triple)
    requires DistinctIds(all)
    ensures multiset(LoadRelevantFacts(rules, ops, all))[f] <= multiset(all)[f]
    ensures multiset(all)[f] > multiset(LoadRelevantFacts(rules, ops, all))[f] ==>
            Irrelevant(rules, SourceIds(rules, ops, all), f)
  {
    LoadedFacts(rules, ops, all, f);
    UniqueByIdDistinct(Loaded(rules, ops, all));
    DistinctFacts(LoadRelevantFacts(rules, ops, all), f);
    DistinctFacts(all, f);
  }

  // Dropping irrelevant facts changes no report

  /** `whole` has `rest` more facts than `part`, none of which a rule can look at. */
  ghost predicate Extends(whole: seq<Triple>, part: seq<Triple>, rest: multiset<Triple>, rules: seq<Rule>,
                          ids: seq<string>) {
    && multiset(whole) == multiset(part) + rest
    && (forall f | f in rest :: Irrelevant(rules, ids, f))
    && (forall f, rule | f in whole && rule in rules :: f.entityType == Some(rule.entityType) ==> f.entityId in ids)
  }

  lemma ExtendsMembers(whole: seq<Triple>, part: seq<Triple>, rest: multiset<Triple>, rules: seq<Rule>,
                       ids: seq<string>)
    requires Extends(whole, part, rest, rules, ids)
    ensures forall f :: f in whole <==> f in part || f in rest
  {
    forall f ensures f in whole <==> f in part || f in rest {
      assert f in whole <==> f in multiset(whole);
      assert f in part <==> f in multiset(part);
    }
  }

  lemma SameSubjects(whole: seq<Triple>, part: seq<Triple>, rest: multiset<Triple>, rules: seq<Rule>,
                     ids: seq<string>, rule: Rule, at: Instant)
    requires Extends(whole, part, rest, rules, ids) && rule in rules
    ensures Subjects(whole, rule.entityType, at) == Subjects(part, rule.entityType, at)
    ensures forall s | s in Subjects(whole, rule.entityType, at) :: s in ids
    ensures rule.ReferenceTarget? ==>
              Subjects(whole, rule.targetEntityType, at) == Subjects(part, rule.targetEntityType, at)
  {
    ExtendsMembers(whole, part, rest, rules, ids);
  }

  lemma SameClaims(whole: seq<Triple>, part: seq<Triple>, rest: multiset<Triple>, rules: seq<Rule>,
                   ids: seq<string>, rule: Rule, at: Instant)
    requires Extends(whole, part, rest, rules, ids) && rule in rules
    ensures forall f :: f in whole && Claims(whole, rule, at, f) <==> f in part && Claims(part, rule, at, f)
    ensures forall f | f in rest :: !Claims(whole, rule, at, f)
  {
    ExtendsMembers(whole, part, rest, rules, ids);
    SameSubjects(whole, part, rest, rules, ids, rule, at);
  }

  lemma DropFromReferences(whole: seq<Triple>, part: seq<Triple>, rest: multiset<Triple>, rules: seq<Rule>,
                           ids: seq<string>, rule: Rule, at: Instant, v: Violation)
    requires Extends(whole, part, rest, rules, ids) && rule in rules && rule.ReferenceTarget?
    ensures Multiplicity(whole, rule, at, v) == Multiplicity(part, rule, at, v)
  {
    SameSubjects(whole, part, rest, rules, ids, rule, at);
    SameClaims(whole, part, rest, rules, ids, rule, at);
    var keep := (f: Triple) => Dangles(whole, rule, at, f) && BadReference(rule, f) == v;
    var left := FilterExtra(whole, part, rest, keep);
    assert left == multiset{};
    SameSize(Filter(whole, keep), Filter(part, keep));
    FilterSamePredicate(part, keep, (f: Triple) => Dangles(part, rule, at, f) && BadReference(rule, f) == v);
  }

  lemma DropIrrelevant(whole: seq<Triple>, part: seq<Triple>, rest: multiset<Triple>, rules: seq<Rule>,
                       ids: seq<string>, rule: Rule, at: Instant, v: Violation)
    requires Extends(whole, part, rest, rules, ids) && rule in rules
    ensures Multiplicity(whole, rule, at, v) == Multiplicity(part, rule, at, v)
  {
    SameSubjects(whole, part, rest, rules, ids, rule, at);
    match rule
    case Required(_, attribute) =>
      if v.subject in ids { DropFromCount(whole, part, rest, rules, ids, v.subject, attribute, at); }
    case Cardinality(_, attribute, _) =>
      if v.subject in ids { DropFromCount(whole, part, rest, rules, ids, v.subject, attribute, at); }
    case Unique(_, _) =>
      if v.valueIdentity.Some? {
        SameClaims(whole, part, rest, rules, ids, rule, at);
        assert Claimants(whole, rule, at, v.valueIdentity.value) == Claimants(part, rule, at, v.valueIdentity.value);
      }
    case ReferenceTarget(_, _, _) =>
      DropFromReferences(whole, part, rest, rules, ids, rule, at, v);
  }

  lemma SameSize<T>(a: seq<T>, b: seq<T>)
    requires multiset(a) == multiset(b)
    ensures |a| == |b|
  {
    assert |multiset(a)| == |a|;
    assert |multiset(b)| == |b|;
  }

  lemma DropFromCount(whole: seq<Triple>, part: seq<Triple>, rest: multiset<Triple>, rules: seq<Rule>,
                      ids: seq<string>, subject: string, attribute: string, at: Instant)
    requires multiset(whole) == multiset(part) + rest && subject in ids
    requires forall f | f in rest :: Irrelevant(rules, ids, f)
    ensures Count(whole, subject, attribute, at) == Count(part, subject, attribute, at)
  {
    var keep := (f: Triple) => VisibleAt(f, at) && f.entityId == subject && f.attribute == attribute;
    var left := FilterExtra(whole, part, rest, keep);
    assert left == multiset{};
    SameSize(Filter(whole, keep), Filter(part, keep));
  }

  // The operations keep the slice and the store in step

  lemma {:induction false} ApplyKeepsRest(whole: seq<Triple>, part: seq<Triple>, rest: multiset<Triple>, ops: seq<Op>,
                                          instant: Instant, name: nat -> string) returns (left: multiset<Triple>)
    requires multiset(whole) == multiset(part) + rest
    ensures left <= rest
    ensures multiset(ApplyOps(whole, ops, instant, name)) == multiset(ApplyOps(part, ops, instant, name)) + left
  {
    left := rest;
    if ops != [] {
      var n := |ops| - 1;
      var before := ApplyKeepsRest(whole, part, rest, ops[..n], instant, name);
      var w, p := ApplyOps(whole, ops[..n], instant, name), ApplyOps(part, ops[..n], instant, name);
      match ops[n]
      case Retract(gone) => left := FilterExtra(w, p, before, (f: Triple) => f.id != gone);
      case RetractPattern(pattern) => left := FilterExtra(w, p, before, (f: Triple) => !PatternMatches(f, pattern));
      case Assert(_, _, _, _, _, _) => left := before;
    }
  }

  lemma {:induction false} AppliedFacts(facts: seq<Triple>, ops: seq<Op>, instant: Instant, name: nat -> string,
                                        f: Triple)
    requires f in ApplyOps(facts, ops, instant, name)
    ensures f in facts || exists i :: 0 <= i < |ops| && ops[i].Assert? && f == NewFact(ops[i], name(i), instant)
  {
    if ops != [] {
      var n := |ops| - 1;
      if !(ops[n].Assert? && f == NewFact(ops[n], name(n), instant)) {
        AppliedFacts(facts, ops[..n], instant, name, f);
        if f !in facts {
          var i :| 0 <= i < n && ops[..n][i].Assert? && f == NewFact(ops[..n][i], name(i), instant);
          assert ops[i] == ops[..n][i];
        }
      }
    }
  }

  lemma TypedIdsKnown(rules: seq<Rule>, ops: seq<Op>, all: seq<Triple>, instant: Instant, rule: Rule)
    requires rule in rules
    ensures forall f | f in Projection(all, ops, instant) && f.entityType == Some(rule.entityType) ::
              f.entityId in SourceIds(rules, ops, all)
  {
    SourceIdsContain(rules, ops, all, rule);
    forall f | f in Projection(all, ops, instant) && f.entityType == Some(rule.entityType)
      ensures f.entityId in SourceIds(rules, ops, all)
    {
      AppliedFacts(all, ops, instant, PendingId, f);
      if f !in all {
        var i :| 0 <= i < |ops| && ops[i].Assert? && f == NewFact(ops[i], PendingId(i), instant);
        assert ops[i] in ops;
      }
    }
  }

  ghost predicate ReportSame(a: seq<Triple>, b: seq<Triple>, rules: seq<Rule>) {
    forall at: Instant, v :: IsViolation(a, rules, at, v) <==> IsViolation(b, rules, at, v)
  }

  lemma ExtensionReportsSame(whole: seq<Triple>, part: seq<Triple>, rest: multiset<Triple>, rules: seq<Rule>,
                             ids: seq<string>)
    requires Extends(whole, part, rest, rules, ids)
    ensures ReportSame(whole, part, rules) && ReportSame(part, whole, rules)
  {
    forall at: Instant, v ensures IsViolation(whole, rules, at, v) <==> IsViolation(part, rules, at, v) {
      if v.rule in rules {
        DropIrrelevant(whole, part, rest, rules, ids, v.rule, at, v);
      }
    }
  }

  lemma StoreExtendsSlice(rules: seq<Rule>, ops: seq<Op>, all: seq<Triple>, instant: Instant)
    returns (rest: multiset<Triple>, left: multiset<Triple>)
    requires DistinctIds(all)
    ensures Extends(all, LoadRelevantFacts(rules, ops, all), rest, rules, SourceIds(rules, ops, all))
    ensures Extends(Projection(all, ops, instant), Projection(LoadRelevantFacts(rules, ops, all), ops, instant),
                    left, rules, SourceIds(rules, ops, all))
  {
    rest := SliceLeavesOut(rules, ops, all);
    left := ApplyKeepsRest(all, LoadRelevantFacts(rules, ops, all), rest, ops, instant, PendingId);
    forall f, rule | f in all && rule in rules
      ensures f.entityType == Some(rule.entityType) ==> f.entityId in SourceIds(rules, ops, all)
    {
      SourceIdsContain(rules, ops, all, rule);
    }
    forall f, rule | f in Projection(all, ops, instant) && rule in rules
      ensures f.entityType == Some(rule.entityType) ==> f.entityId in SourceIds(rules, ops, all)
    {
      TypedIdsKnown(rules, ops, all, instant, rule);
    }
  }

  /** Enforcing on the loaded slice accepts exactly what enforcing on the whole
      live fact set would. */
  lemma SliceDecidesAsStore(rules: seq<Rule>, ops: seq<Op>, all: seq<Triple>, instant: Instant)
    requires DistinctIds(all)
    ensures var slice := LoadRelevantFacts(rules, ops, all);
            NoWorse(slice, Projection(slice, ops, instant), rules) <==>
              NoWorse(all, Projection(all, ops, instant), rules)
  {
    var slice := LoadRelevantFacts(rules, ops, all);
    var ids := SourceIds(rules, ops, all);
    var slice', all' := Projection(slice, ops, instant), Projection(all, ops, instant);
    var rest, left := StoreExtendsSlice(rules, ops, all, instant);
    ExtensionReportsSame(all, slice, rest, rules, ids);
    ExtensionReportsSame(all', slice', left, rules, ids);
    if NoWorse(slice, slice', rules) { NoWorseFromReports(slice, slice', all, all', rules); }
    if NoWorse(all, all', rules) { NoWorseFromReports(all, all', slice, slice', rules); }
  }

  lemma NoWorseFromReports(a: seq<Triple>, a': seq<Triple>, b: seq<Triple>, b': seq<Triple>, rules: seq<Rule>)
    requires ReportSame(a, b, rules) && ReportSame(b', a', rules) && NoWorse(a, a', rules)
    ensures NoWorse(b, b', rules)
  {
    forall at: Instant, v | IsViolation(b', rules, at, v) ensures Already(b, rules, at, v) {
      assert IsViolation(a', rules, at, v);
      var w :| IsViolation(a, rules, at, w) && IdentityOf(w) == IdentityOf(v) && w.actual >= v.actual;
      assert IsViolation(b, rules, at, w);
    }
  }
}
