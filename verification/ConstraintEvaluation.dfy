/** The rule loops: evaluating a rule set over a fact list at one instant and
    sorting what they report. */
module ConstraintEvaluation {
  import opened Facts
  import opened Constraint
  import Orders

  /** The string comparison and the text renderings that the report order uses. */
  datatype Collation = Collation(
    text: (string, string) -> bool,
    key: Rule -> string,
    path: string -> string,
    value: ValueIdentity -> string)
  {
    ghost predicate Valid() {
      Orders.StrictTotal(text)
    }
    /** All texts a report is sorted by tell two rules apart. */
    ghost predicate RulesApart(r: Rule, s: Rule) {
      var same := r.entityType == s.entityType && path(r.attribute) == path(s.attribute);
      same && CodeText(r) == CodeText(s) && key(r) == key(s) ==> r == s
    }

    /** The texts tell the rules and the values at hand apart. */
    ghost predicate TellsApart(facts: seq<Triple>, rules: seq<Rule>) {
      && (forall r, s | r in rules && s in rules :: RulesApart(r, s))
      && (forall f, g | f in facts && g in facts ::
            value(IdentityOfValue(f)) == value(IdentityOfValue(g)) ==> IdentityOfValue(f) == IdentityOfValue(g))
    }
  }

  /** Comparing texts by code unit is such a comparison. */
  lemma SomeCollation(key: Rule -> string, path: string -> string, value: ValueIdentity -> string)
    returns (c: Collation)
    ensures c.Valid() && c.key == key && c.path == path && c.value == value
  {
    c := Collation(CodeUnitLess, key, path, value);
    var less := (x: char, y: char) => x < y;
    forall a ensures !CodeUnitLess(a, a) {
      Orders.LexIrreflexive(less, a);
    }
    forall x, y, z | CodeUnitLess(x, y) && CodeUnitLess(y, z) ensures CodeUnitLess(x, z) {
      Orders.LexTransitive(less, x, y, z);
    }
    forall x, y | x != y ensures CodeUnitLess(x, y) || CodeUnitLess(y, x) {
      Orders.LexConnected(less, x, y);
    }
  }

  function CodeText(rule: Rule): string {
    match rule
    case Required(_, _) => "required"
    case Cardinality(_, _, _) => "cardinality"
    case Unique(_, _) => "unique"
    case ReferenceTarget(_, _, _) => "reference-target"
  }

  function SortKey(c: Collation, v: Violation): seq<string> {
    [v.rule.entityType, v.subject, c.path(v.rule.attribute), CodeText(v.rule), c.key(v.rule),
     if v.valueIdentity.Some? then c.value(v.valueIdentity.value) else ""]
  }

  function ReportOrder(c: Collation): (Violation, Violation) -> bool {
    (v, w) => Orders.LexLess(c.text, SortKey(c, v), SortKey(c, w))
  }

  /** One text decides, or the next ones do. */
  predicate Decides(less: (string, string) -> bool, a: string, b: string, later: bool) {
    less(a, b) || (a == b && later)
  }

  function ValueText(c: Collation, v: Violation): string {
    if v.valueIdentity.Some? then c.value(v.valueIdentity.value) else ""
  }

  /** The codes that reports carry. */
  predicate HasCode(rule: Rule, code: string) {
    code == if rule.Required? then "required" else if rule.Cardinality? then "cardinality"
            else if rule.Unique? then "unique" else "reference-target"
  }

  /** Reports come by entity type, then subject, path, code, rule key and value. */
  lemma ReportOrderMeans(c: Collation, v: Violation, w: Violation, codeOfV: string, codeOfW: string)
    requires HasCode(v.rule, codeOfV) && HasCode(w.rule, codeOfW)
    ensures var byValue := c.text(ValueText(c, v), ValueText(c, w));
      var byKey := Decides(c.text, c.key(v.rule), c.key(w.rule), byValue);
      var byCode := Decides(c.text, codeOfV, codeOfW, byKey);
      var byPath := Decides(c.text, c.path(v.rule.attribute), c.path(w.rule.attribute), byCode);
      var bySubject := Decides(c.text, v.subject, w.subject, byPath);
      ReportOrder(c)(v, w) <==> Decides(c.text, v.rule.entityType, w.rule.entityType, bySubject)
  {
    var a, b := SortKey(c, v), SortKey(c, w);
    LexStep(c.text, a, b, 0);
    LexStep(c.text, a, b, 1);
    LexStep(c.text, a, b, 2);
    LexStep(c.text, a, b, 3);
    LexStep(c.text, a, b, 4);
    LexStep(c.text, a, b, 5);
    assert a[0..] == a && b[0..] == b && a[6..] == [] == b[6..];
  }

  lemma LexStep(less: (string, string) -> bool, a: seq<string>, b: seq<string>, i: nat)
    requires i < |a| == |b|
    ensures Orders.LexLess(less, a[i..], b[i..]) <==>
            less(a[i], b[i]) || (a[i] == b[i] && Orders.LexLess(less, a[i + 1..], b[i + 1..]))
  {
    assert a[i..][1..] == a[i + 1..] && b[i..][1..] == b[i + 1..];
  }

  function RuleOrder(c: Collation): (Rule, Rule) -> bool {
    (r, s) => c.text(c.key(r), c.key(s))
  }

  lemma ReportOrderWeak(c: Collation)
    requires c.Valid()
    ensures Orders.StrictWeak(ReportOrder(c))
  {
    var less := ReportOrder(c);
    forall v ensures !less(v, v) {
      Orders.LexIrreflexive(c.text, SortKey(c, v));
    }
    forall v, w, x | less(v, w) && less(w, x) ensures less(v, x) {
      Orders.LexTransitive(c.text, SortKey(c, v), SortKey(c, w), SortKey(c, x));
    }
    forall v, w, x | less(v, x) ensures less(v, w) || less(w, x) {
      if SortKey(c, v) != SortKey(c, w) {
        Orders.LexConnected(c.text, SortKey(c, v), SortKey(c, w));
        if less(w, v) {
          Orders.LexTransitive(c.text, SortKey(c, w), SortKey(c, v), SortKey(c, x));
        }
      }
    }
  }

  /** Visible facts of the entities that carry the rule's type. */
  function TypedFacts(facts: seq<Triple>, rule: Rule, at: Instant): seq<Triple> {
    var subjects := Subjects(facts, rule.entityType, at);
    Filter(Filter(facts, (f: Triple) => VisibleAt(f, at)), (f: Triple) => f.entityId in subjects)
  }

  lemma TypedFilter(facts: seq<Triple>, rule: Rule, at: Instant, keep: Triple -> bool, whole: Triple -> bool)
    requires forall f | f in facts ::
      whole(f) == (VisibleAt(f, at) && f.entityId in Subjects(facts, rule.entityType, at) && keep(f))
    ensures Filter(TypedFacts(facts, rule, at), keep) == Filter(facts, whole)
  {
    var subjects := Subjects(facts, rule.entityType, at);
    var visible := (f: Triple) => VisibleAt(f, at);
    var typed := (f: Triple) => f.entityId in subjects;
    var both := (f: Triple) => VisibleAt(f, at) && f.entityId in subjects;
    FilterTwice(facts, visible, typed, both);
    FilterTwice(facts, both, keep, whole);
  }

  function Elements<T>(s: seq<T>): set<T> {
    set x | x in s
  }

  /** `found` reports every violation of the rule as often as it should. */
  ghost predicate Tallies(found: seq<Violation>, facts: seq<Triple>, rule: Rule, at: Instant) {
    forall v :: multiset(found)[v] == Multiplicity(facts, rule, at, v)
  }

  // Required and cardinality rules: one look at each subject

  function SubjectReport(facts: seq<Triple>, rule: Rule, at: Instant, subject: string): seq<Violation> {
    var count := Count(facts, subject, rule.attribute, at);
    if rule.Required? && count == 0 then [MissingValue(rule, subject)]
    else if rule.Cardinality? && count > rule.max then [ExcessValues(rule, subject, count)]
    else []
  }

  function SubjectReports(facts: seq<Triple>, rule: Rule, at: Instant, subjects: seq<string>): seq<Violation> {
    if subjects == [] then []
    else
      var n := |subjects| - 1;
      SubjectReports(facts, rule, at, subjects[..n]) + SubjectReport(facts, rule, at, subjects[n])
  }

  lemma {:induction false} SubjectReportsTally(facts: seq<Triple>, rule: Rule, at: Instant, subjects: seq<string>,
                                               v: Violation)
    requires rule.Required? || rule.Cardinality?
    requires Distinct(subjects)
    requires forall s | s in subjects :: s in Subjects(facts, rule.entityType, at)
    ensures multiset(SubjectReports(facts, rule, at, subjects))[v] ==
            if v.subject in subjects then Multiplicity(facts, rule, at, v) else 0
  {
    if subjects != [] {
      var n := |subjects| - 1;
      SubjectReportsTally(facts, rule, at, subjects[..n], v);
      assert subjects == subjects[..n] + [subjects[n]];
      assert subjects[n] in subjects && subjects[n] !in subjects[..n];
      SubjectReportTally(facts, rule, at, subjects[n], v);
    }
  }

  lemma SubjectReportTally(facts: seq<Triple>, rule: Rule, at: Instant, subject: string, v: Violation)
    requires rule.Required? || rule.Cardinality?
    requires subject in Subjects(facts, rule.entityType, at)
    ensures multiset(SubjectReport(facts, rule, at, subject))[v] ==
            if v.subject == subject then Multiplicity(facts, rule, at, v) else 0
  {
  }

  method CheckCounts(facts: seq<Triple>, rule: Rule, at: Instant, subjects: seq<string>, typedFacts: seq<Triple>)
    returns (found: seq<Violation>)
    requires rule.Required? || rule.Cardinality?
    requires typedFacts == TypedFacts(facts, rule, at)
    requires forall s :: s in subjects <==> s in Subjects(facts, rule.entityType, at)
    requires Distinct(subjects)
    ensures Tallies(found, facts, rule, at)
  {
    found := [];
    for i := 0 to |subjects|
      invariant found == SubjectReports(facts, rule, at, subjects[..i])
    {
      var subject := subjects[i];
      var count := |Filter(typedFacts, (f: Triple) => f.entityId == subject && f.attribute == rule.attribute)|;
      assert count == Count(facts, subject, rule.attribute, at) by {
        TypedFilter(facts, rule, at, (f: Triple) => f.entityId == subject && f.attribute == rule.attribute,
                    (f: Triple) => VisibleAt(f, at) && f.entityId == subject && f.attribute == rule.attribute);
      }
      assert subjects[..i + 1][..i] == subjects[..i];
      if rule.Required? && count == 0 {
        found := found + [MissingValue(rule, subject)];
      }
      if rule.Cardinality? && count > rule.max {
        found := found + [ExcessValues(rule, subject, count)];
      }
    }
    assert subjects[..|subjects|] == subjects;
    forall v ensures multiset(found)[v] == Multiplicity(facts, rule, at, v) {
      SubjectReportsTally(facts, rule, at, subjects, v);
      OnlySubjects(facts, rule, at, v);
    }
  }

  lemma OnlySubjects(facts: seq<Triple>, rule: Rule, at: Instant, v: Violation)
    requires rule.Required? || rule.Cardinality?
    ensures v.subject !in Subjects(facts, rule.entityType, at) ==> Multiplicity(facts, rule, at, v) == 0
  {
  }

  // Uniqueness rules: collect claimants per value, then report shared values

  /** Claimants of each value, values and claimants in the order they appear. */
  datatype ClaimTable = ClaimTable(order: seq<ValueIdentity>, claimants: map<ValueIdentity, seq<string>>)

  function ClaimantsAmong(typedFacts: seq<Triple>, attribute: string, identity: ValueIdentity): set<string> {
    set f | f in typedFacts && f.attribute == attribute && IdentityOfValue(f) == identity :: f.entityId
  }

  ghost predicate LooksUp(table: ClaimTable, identity: ValueIdentity, claimants: set<string>) {
    if identity in table.claimants then
      claimants != {} && Distinct(table.claimants[identity]) && Elements(table.claimants[identity]) == claimants
    else claimants == {}
  }

  ghost predicate Collects(table: ClaimTable, typedFacts: seq<Triple>, attribute: string) {
    && Distinct(table.order)
    && (forall identity :: identity in table.order <==> identity in table.claimants)
    && (forall identity :: LooksUp(table, identity, ClaimantsAmong(typedFacts, attribute, identity)))
  }

  function AddClaim(table: ClaimTable, identity: ValueIdentity, entityId: string): ClaimTable {
    if identity !in table.claimants then
      ClaimTable(table.order + [identity], table.claimants[identity := [entityId]])
    else if entityId in table.claimants[identity] then table
    else table.(claimants := table.claimants[identity := table.claimants[identity] + [entityId]])
  }

  lemma AddClaimCollects(table: ClaimTable, typedFacts: seq<Triple>, attribute: string, fact: Triple)
    requires Collects(table, typedFacts, attribute)
    ensures Collects(if fact.attribute == attribute then AddClaim(table, IdentityOfValue(fact), fact.entityId)
                     else table, typedFacts + [fact], attribute)
  {
    var table' := if fact.attribute == attribute then AddClaim(table, IdentityOfValue(fact), fact.entityId) else table;
    forall identity ensures LooksUp(table', identity, ClaimantsAmong(typedFacts + [fact], attribute, identity)) {
      assert LooksUp(table, identity, ClaimantsAmong(typedFacts, attribute, identity));
      ClaimantsStep(typedFacts, fact, attribute, identity);
      if fact.attribute == attribute && identity == IdentityOfValue(fact) {
        assert fact.entityId in table'.claimants[identity];
      }
    }
  }

  lemma ClaimantsStep(typedFacts: seq<Triple>, fact: Triple, attribute: string, identity: ValueIdentity)
    ensures ClaimantsAmong(typedFacts + [fact], attribute, identity) ==
            ClaimantsAmong(typedFacts, attribute, identity) +
            if fact.attribute == attribute && IdentityOfValue(fact) == identity then {fact.entityId} else {}
  {
  }

  method CollectClaims(typedFacts: seq<Triple>, attribute: string) returns (table: ClaimTable)
    ensures Collects(table, typedFacts, attribute)
  {
    table := ClaimTable([], map[]);
    for i := 0 to |typedFacts|
      invariant Collects(table, typedFacts[..i], attribute)
    {
      var fact := typedFacts[i];
      AddClaimCollects(table, typedFacts[..i], attribute, fact);
      assert typedFacts[..i + 1] == typedFacts[..i] + [fact];
      if fact.attribute == attribute {
        table := AddClaim(table, IdentityOfValue(fact), fact.entityId);
      }
    }
    assert typedFacts[..|typedFacts|] == typedFacts;
  }

  predicate CodeUnitLess(a: string, b: string) {
    Orders.LexLess((x: char, y: char) => x < y, a, b)
  }

  function ClaimantReports(rule: Rule, identity: ValueIdentity, claimants: set<string>,
                           listed: seq<string>): seq<Violation> {
    if listed == [] then []
    else
      var n := |listed| - 1;
      ClaimantReports(rule, identity, claimants, listed[..n]) + [SharedValue(rule, listed[n], identity, claimants)]
  }

  lemma {:induction false} ClaimantReportsTally(rule: Rule, identity: ValueIdentity, claimants: set<string>,
                                                listed: seq<string>, v: Violation)
    ensures multiset(ClaimantReports(rule, identity, claimants, listed))[v] ==
            if v == SharedValue(rule, v.subject, identity, claimants) then multiset(listed)[v.subject] else 0
  {
    if listed != [] {
      var n := |listed| - 1;
      assert listed == listed[..n] + [listed[n]];
      ClaimantReportsTally(rule, identity, claimants, listed[..n], v);
    }
  }

  lemma DistinctMultiset<T>(s: seq<T>, x: T)
    requires Distinct(s)
    ensures multiset(s)[x] == if x in s then 1 else 0
  {
    if x in s {
      var i :| 0 <= i < |s| && s[i] == x;
      assert s == s[..i] + [x] + s[i + 1..];
      assert x !in s[..i] && x !in s[i + 1..];
    }
  }

  lemma DistinctCardinality<T>(s: seq<T>)
    requires Distinct(s)
    ensures |Elements(s)| == |s|
  {
    if s != [] {
      var n := |s| - 1;
      DistinctCardinality(s[..n]);
      assert Elements(s) == Elements(s[..n]) + {s[n]};
    }
  }

  function IdentityReport(rule: Rule, identity: ValueIdentity, claimants: seq<string>): seq<Violation> {
    if |claimants| < 2 then []
    else
      ClaimantReports(rule, identity, Elements(claimants), Orders.SortBy(CodeUnitLess, claimants))
  }

  lemma IdentityReportTally(facts: seq<Triple>, rule: Rule, at: Instant, identity: ValueIdentity,
                            claimants: seq<string>, v: Violation)
    requires rule.Unique? && Distinct(claimants)
    requires Elements(claimants) == Claimants(facts, rule, at, identity)
    ensures multiset(IdentityReport(rule, identity, claimants))[v] ==
            if v.valueIdentity == Some(identity) then Multiplicity(facts, rule, at, v) else 0
  {
    var all := Elements(claimants);
    DistinctCardinality(claimants);
    assert |all| == |claimants|;
    ClaimantReportsTally(rule, identity, all, Orders.SortBy(CodeUnitLess, claimants), v);
    DistinctMultiset(claimants, v.subject);
  }

  function IdentityReports(rule: Rule, table: ClaimTable, order: seq<ValueIdentity>): seq<Violation>
    requires forall identity | identity in order :: identity in table.claimants
  {
    if order == [] then []
    else
      var n := |order| - 1;
      IdentityReports(rule, table, order[..n]) + IdentityReport(rule, order[n], table.claimants[order[n]])
  }

  lemma {:induction false} IdentityReportsTally(facts: seq<Triple>, rule: Rule, at: Instant, table: ClaimTable,
                                                order: seq<ValueIdentity>, v: Violation)
    requires rule.Unique? && Distinct(order)
    requires forall identity | identity in order ::
      identity in table.claimants && LooksUp(table, identity, Claimants(facts, rule, at, identity))
    ensures multiset(IdentityReports(rule, table, order))[v] ==
            if v.valueIdentity.Some? && v.valueIdentity.value in order then Multiplicity(facts, rule, at, v) else 0
  {
    if order != [] {
      var n := |order| - 1;
      assert order == order[..n] + [order[n]];
      assert order[n] in order && order[n] !in order[..n];
      IdentityReportsTally(facts, rule, at, table, order[..n], v);
      IdentityReportTally(facts, rule, at, order[n], table.claimants[order[n]], v);
    }
  }

  lemma TypedClaimants(facts: seq<Triple>, rule: Rule, at: Instant, identity: ValueIdentity)
    ensures ClaimantsAmong(TypedFacts(facts, rule, at), rule.attribute, identity)
            == Claimants(facts, rule, at, identity)
  {
    assert forall f :: f in TypedFacts(facts, rule, at) && f.attribute == rule.attribute
                       <==> f in facts && Claims(facts, rule, at, f);
  }

  method ReportClaimants(rule: Rule, identity: ValueIdentity, claimants: seq<string>) returns (found: seq<Violation>)
    requires Distinct(claimants)
    ensures found == IdentityReport(rule, identity, claimants)
  {
    found := [];
    if |claimants| < 2 { return; }
    var all := Elements(claimants);
    var ordered := Orders.SortBy(CodeUnitLess, claimants);
    for k := 0 to |ordered|
      invariant found == ClaimantReports(rule, identity, all, ordered[..k])
    {
      assert ordered[..k + 1][..k] == ordered[..k];
      found := found + [SharedValue(rule, ordered[k], identity, all)];
    }
    assert ordered[..|ordered|] == ordered;
  }

  lemma UniqueTallies(facts: seq<Triple>, rule: Rule, at: Instant, table: ClaimTable)
    requires rule.Unique? && Collects(table, TypedFacts(facts, rule, at), rule.attribute)
    ensures Tallies(IdentityReports(rule, table, table.order), facts, rule, at)
  {
    forall identity ensures LooksUp(table, identity, Claimants(facts, rule, at, identity)) {
      TypedClaimants(facts, rule, at, identity);
    }
    forall v ensures multiset(IdentityReports(rule, table, table.order))[v] == Multiplicity(facts, rule, at, v) {
      IdentityReportsTally(facts, rule, at, table, table.order, v);
      if v.valueIdentity.Some? && v.valueIdentity.value !in table.order {
        assert LooksUp(table, v.valueIdentity.value, Claimants(facts, rule, at, v.valueIdentity.value));
      }
    }
  }

  method CheckUnique(facts: seq<Triple>, rule: Rule, at: Instant, typedFacts: seq<Triple>)
    returns (found: seq<Violation>)
    requires rule.Unique?
    requires typedFacts == TypedFacts(facts, rule, at)
    ensures Tallies(found, facts, rule, at)
  {
    var table := CollectClaims(typedFacts, rule.attribute);
    found := [];
    for i := 0 to |table.order|
      invariant found == IdentityReports(rule, table, table.order[..i])
    {
      var identity := table.order[i];
      assert LooksUp(table, identity, ClaimantsAmong(typedFacts, rule.attribute, identity));
      var reports := ReportClaimants(rule, identity, table.claimants[identity]);
      assert table.order[..i + 1][..i] == table.order[..i];
      found := found + reports;
    }
    assert table.order[..|table.order|] == table.order;
    UniqueTallies(facts, rule, at, table);
  }

  // Reference rules: one look at each typed fact

  function FactReports(facts: seq<Triple>, rule: Rule, at: Instant, typedFacts: seq<Triple>): seq<Violation>
    requires rule.ReferenceTarget?
  {
    if typedFacts == [] then []
    else
      var n := |typedFacts| - 1;
      var earlier := FactReports(facts, rule, at, typedFacts[..n]);
      if typedFacts[n].attribute == rule.attribute && !TargetLive(facts, typedFacts[n].value, rule.targetEntityType, at)
      then earlier + [BadReference(rule, typedFacts[n])] else earlier
  }

  function ReportsAs(facts: seq<Triple>, rule: Rule, at: Instant, v: Violation): Triple -> bool
    requires rule.ReferenceTarget?
  {
    (f: Triple) => f.attribute == rule.attribute
      && !TargetLive(facts, f.value, rule.targetEntityType, at) && BadReference(rule, f) == v
  }

  lemma {:induction false} FactReportsTally(facts: seq<Triple>, rule: Rule, at: Instant, typedFacts: seq<Triple>,
                                            v: Violation)
    requires rule.ReferenceTarget?
    ensures multiset(FactReports(facts, rule, at, typedFacts))[v] ==
            |Filter(typedFacts, ReportsAs(facts, rule, at, v))|
  {
    if typedFacts != [] {
      var n := |typedFacts| - 1;
      assert typedFacts == typedFacts[..n] + [typedFacts[n]];
      FactReportsTally(facts, rule, at, typedFacts[..n], v);
      FilterAppend(typedFacts[..n], [typedFacts[n]], ReportsAs(facts, rule, at, v));
    }
  }

  lemma DanglesTally(facts: seq<Triple>, rule: Rule, at: Instant, v: Violation)
    requires rule.ReferenceTarget?
    ensures |Filter(TypedFacts(facts, rule, at), ReportsAs(facts, rule, at, v))| == Multiplicity(facts, rule, at, v)
  {
    var whole := (f: Triple) => Dangles(facts, rule, at, f) && BadReference(rule, f) == v;
    TypedFilter(facts, rule, at, ReportsAs(facts, rule, at, v), whole);
    if v.rule != rule {
      FilterNone(facts, whole);
    }
  }

  method CheckReferences(facts: seq<Triple>, rule: Rule, at: Instant, typedFacts: seq<Triple>)
    returns (found: seq<Violation>)
    requires rule.ReferenceTarget?
    requires typedFacts == TypedFacts(facts, rule, at)
    ensures Tallies(found, facts, rule, at)
  {
    found := [];
    for i := 0 to |typedFacts|
      invariant found == FactReports(facts, rule, at, typedFacts[..i])
    {
      var fact := typedFacts[i];
      assert typedFacts[..i + 1][..i] == typedFacts[..i];
      if fact.attribute == rule.attribute && !TargetLive(facts, fact.value, rule.targetEntityType, at) {
        found := found + [BadReference(rule, fact)];
      }
    }
    assert typedFacts[..|typedFacts|] == typedFacts;
    forall v ensures multiset(found)[v] == Multiplicity(facts, rule, at, v) {
      FactReportsTally(facts, rule, at, typedFacts, v);
      DanglesTally(facts, rule, at, v);
    }
  }

  // One rule, then all of them

  method DistinctSubjects(facts: seq<Triple>, entityType: string, at: Instant) returns (subjects: seq<string>)
    ensures forall s :: s in subjects <==> s in Subjects(facts, entityType, at)
    ensures Distinct(subjects)
  {
    subjects := [];
    for i := 0 to |facts|
      invariant forall s :: s in subjects <==> s in Subjects(facts[..i], entityType, at)
      invariant Distinct(subjects)
    {
      var fact := facts[i];
      assert facts[..i + 1] == facts[..i] + [fact];
      if VisibleAt(fact, at) && fact.entityType == Some(entityType) && fact.entityId !in subjects {
        subjects := subjects + [fact.entityId];
      }
    }
    assert facts[..|facts|] == facts;
  }

  method EvaluateRule(facts: seq<Triple>, rule: Rule, at: Instant) returns (found: seq<Violation>)
    ensures Tallies(found, facts, rule, at)
  {
    var typedFacts := TypedFacts(facts, rule, at);
    match rule
    case Unique(_, _) => found := CheckUnique(facts, rule, at, typedFacts);
    case ReferenceTarget(_, _, _) => found := CheckReferences(facts, rule, at, typedFacts);
    case _ =>
      var subjects := DistinctSubjects(facts, rule.entityType, at);
      found := CheckCounts(facts, rule, at, subjects, typedFacts);
  }

  /** A rule listed twice reports twice. */
  ghost predicate TalliesAll(found: seq<Violation>, facts: seq<Triple>, rules: seq<Rule>, at: Instant) {
    forall v: Violation :: multiset(found)[v] == multiset(rules)[v.rule] * Multiplicity(facts, v.rule, at, v)
  }

  lemma TallyOneMore(violations: seq<Violation>, found: seq<Violation>, facts: seq<Triple>,
                      rules: seq<Rule>, rule: Rule, at: Instant, v: Violation)
    requires TalliesAll(violations, facts, rules, at) && Tallies(found, facts, rule, at)
    ensures multiset(violations + found)[v] == multiset(rules + [rule])[v.rule] * Multiplicity(facts, v.rule, at, v)
  {
    var n, m := multiset(rules)[v.rule], Multiplicity(facts, v.rule, at, v);
    assert multiset(violations)[v] == n * m;
    assert multiset(found)[v] == Multiplicity(facts, rule, at, v);
    if v.rule == rule {
      assert multiset(rules + [rule])[rule] == n + 1;
      OneMore(n, m);
    } else {
      assert multiset(rules + [rule])[v.rule] == n && Multiplicity(facts, rule, at, v) == 0;
    }
  }

  lemma TalliesOneMore(violations: seq<Violation>, found: seq<Violation>, facts: seq<Triple>,
                       rules: seq<Rule>, rule: Rule, at: Instant)
    requires TalliesAll(violations, facts, rules, at) && Tallies(found, facts, rule, at)
    ensures TalliesAll(violations + found, facts, rules + [rule], at)
  {
    forall v: Violation ensures multiset(violations + found)[v] ==
      multiset(rules + [rule])[v.rule] * Multiplicity(facts, v.rule, at, v)
    {
      TallyOneMore(violations, found, facts, rules, rule, at, v);
    }
  }

  lemma OneMore(n: nat, m: nat)
    ensures (n + 1) * m == n * m + m
  {
  }

  lemma PositiveProduct(n: nat, m: nat)
    ensures n * m > 0 <==> n > 0 && m > 0
  {
    if n > 0 && m > 0 { OneMore(n - 1, m); }
  }

  lemma TalliedAreViolations(result: seq<Violation>, facts: seq<Triple>, rules: seq<Rule>, at: Instant)
    requires TalliesAll(result, facts, rules, at)
    ensures forall v :: v in result <==> IsViolation(facts, rules, at, v)
  {
    forall v ensures v in result <==> IsViolation(facts, rules, at, v) {
      assert v in result <==> multiset(result)[v] > 0;
      assert v.rule in rules <==> multiset(rules)[v.rule] > 0;
      PositiveProduct(multiset(rules)[v.rule], Multiplicity(facts, v.rule, at, v));
    }
  }

  method EvaluateRules(facts: seq<Triple>, rules: seq<Rule>, at: Instant) returns (violations: seq<Violation>)
    ensures TalliesAll(violations, facts, rules, at)
  {
    violations := [];
    for i := 0 to |rules|
      invariant TalliesAll(violations, facts, rules[..i], at)
    {
      var found := EvaluateRule(facts, rules[i], at);
      TalliesOneMore(violations, found, facts, rules[..i], rules[i], at);
      assert rules[..i + 1] == rules[..i] + [rules[i]];
      violations := violations + found;
    }
    assert rules[..|rules|] == rules;
  }

  /** Reports exactly the violations of the rule set, sorted. */
  method EvaluateFacts(facts: seq<Triple>, rules: seq<Rule>, at: Instant, c: Collation)
    returns (result: seq<Violation>)
    requires c.Valid()
    ensures TalliesAll(result, facts, rules, at)
    ensures forall v :: v in result <==> IsViolation(facts, rules, at, v)
    ensures Orders.NonDecreasing(ReportOrder(c), result)
  {
    var sorted := Orders.SortBy(RuleOrder(c), rules);
    var violations := EvaluateRules(facts, sorted, at);
    result := Orders.SortBy(ReportOrder(c), violations);
    ReportOrderWeak(c);
    Orders.SortBySorts(ReportOrder(c), violations);
    TalliedAreViolations(result, facts, rules, at);
  }

  /** The report is a function of the facts and rules as collections: permuting
      either list leaves it unchanged, element for element. */
  lemma ReportIgnoresOrder(facts: seq<Triple>, facts': seq<Triple>, rules: seq<Rule>, rules': seq<Rule>,
                           at: Instant, c: Collation, result: seq<Violation>, result': seq<Violation>)
    requires c.Valid() && c.TellsApart(facts, rules)
    requires multiset(facts) == multiset(facts') && multiset(rules) == multiset(rules')
    requires TalliesAll(result, facts, rules, at) && TalliesAll(result', facts', rules', at)
    requires Orders.NonDecreasing(ReportOrder(c), result) && Orders.NonDecreasing(ReportOrder(c), result')
    ensures result == result'
  {
    forall v ensures multiset(result)[v] == multiset(result')[v] {
      MultiplicityIgnoresOrder(facts, facts', v.rule, at, v);
    }
    assert multiset(result) == multiset(result');
    ReportOrderWeak(c);
    var less := ReportOrder(c);
    forall v, w | v in result && w in result && !less(v, w) && !less(w, v) ensures v == w {
      TiesAreEqual(facts, rules, at, c, result, v, w);
    }
    Orders.SortedUnique(less, result, result');
  }

  lemma TiesAreEqual(facts: seq<Triple>, rules: seq<Rule>, at: Instant, c: Collation, result: seq<Violation>,
                     v: Violation, w: Violation)
    requires c.Valid() && c.TellsApart(facts, rules) && v in result && w in result
    requires TalliesAll(result, facts, rules, at)
    requires !ReportOrder(c)(v, w) && !ReportOrder(c)(w, v)
    ensures v == w
  {
    if SortKey(c, v) != SortKey(c, w) {
      Orders.LexConnected(c.text, SortKey(c, v), SortKey(c, w));
    }
    var a, b := SortKey(c, v), SortKey(c, w);
    assert a[0] == b[0] && a[1] == b[1] && a[2] == b[2] && a[3] == b[3] && a[4] == b[4] && a[5] == b[5];
    assert multiset(result)[v] > 0 && multiset(result)[w] > 0;
    PositiveProduct(multiset(rules)[v.rule], Multiplicity(facts, v.rule, at, v));
    PositiveProduct(multiset(rules)[w.rule], Multiplicity(facts, w.rule, at, w));
    assert v.rule in rules && w.rule in rules && c.RulesApart(v.rule, w.rule);
    assert v.rule == w.rule && v.subject == w.subject;
    ReportsShape(facts, v.rule, at, v);
    ReportsShape(facts, w.rule, at, w);
    if v.valueIdentity.Some? {
      var f := ReportedValue(facts, v.rule, at, v);
      var g := ReportedValue(facts, w.rule, at, w);
    }
    IdentityFixesViolation(facts, rules, at, v, w);
  }

  /** Whether a report names a value depends on the kind of its rule only. */
  lemma ReportsShape(facts: seq<Triple>, rule: Rule, at: Instant, v: Violation)
    requires Multiplicity(facts, rule, at, v) > 0
    ensures v.rule == rule
    ensures v.valueIdentity.Some? <==> rule.Unique? || rule.ReferenceTarget?
  {
    if rule.ReferenceTarget? {
      var f := DanglingFact(facts, rule, at, v);
    }
  }

  /** A value that a report names is the value of some fact. */
  lemma ReportedValue(facts: seq<Triple>, rule: Rule, at: Instant, v: Violation) returns (f: Triple)
    requires Multiplicity(facts, rule, at, v) > 0 && v.valueIdentity.Some?
    ensures f in facts && IdentityOfValue(f) == v.valueIdentity.value
  {
    if rule.ReferenceTarget? {
      f := DanglingFact(facts, rule, at, v);
    } else {
      f :| f in facts && Claims(facts, rule, at, f) && IdentityOfValue(f) == v.valueIdentity.value
          && f.entityId == v.subject;
    }
  }
}
