/** Keyset pagination pinned to a commit position: completing the order, checking
    and minting cursors, and one page with its one-row lookahead. */
module Pagination {
  import opened Facts
  import opened FactTable
  import Orders

  const DEFAULT_QUERY_PAGE_SIZE := 100
  const MAX_QUERY_PAGE_SIZE := 1000
  const MAX_SAFE_INTEGER := 9007199254740991

  datatype Result<+T> = Ok(value: T) | Err(error: PaginationError)

  datatype PaginationError =
    | InvalidOrdering
    | Malformed
    | UnsupportedVersion
    | BasisMismatch
    | ScopeMismatch
    | QueryMismatch

  // Queries, rows and cursors

  datatype Direction = Asc | Desc

  datatype OrderItem = OrderItem(variable: string, direction: Direction)

  /** `body` stands for the clauses, which pagination never looks into. */
  datatype DatalogQuery = DatalogQuery(
    find: seq<string>,
    aggregateTargets: seq<string>,
    optionalVariables: seq<string>,
    limit: Option<int>,
    offset: Option<int>,
    orderBy: Option<seq<OrderItem>>,
    body: string)

  datatype WrappedQuery = WrappedQuery(
    inner: DatalogQuery,
    filters: string,
    orderBy: Option<seq<OrderItem>>,
    limit: Option<int>,
    includeCount: bool,
    cursor: Option<Cursor>)

  /** A wrapped query with its page size and order settled and no cursor. */
  datatype LogicalQuery = LogicalQuery(
    inner: DatalogQuery,
    filters: string,
    orderBy: seq<OrderItem>,
    limit: int,
    includeCount: bool)

  datatype Cell = NumberCell(number: real) | FlagCell(flag: bool) | TextCell(text: string) | NullCell

  type ResultRow = map<string, Cell>

  datatype PageBasis = PageBasis(recordedAt: Instant, recordedPosition: int, validAt: Instant)

  /** Stands for the hash of the canonical text of the same parts. */
  datatype Fingerprint = Fingerprint(query: LogicalQuery, basis: PageBasis)

  datatype Envelope = Envelope(
    version: int,
    queryFingerprint: Fingerprint,
    scopeFingerprint: string,
    basis: PageBasis,
    values: seq<Cell>)

  /** Text that is not base64url JSON of the right shape, or the envelope it holds. */
  datatype Cursor = Undecodable | Encoded(envelope: Envelope)

  datatype TemporalBasis = TemporalBasis(recordedAt: Option<Instant>, validAt: Option<Instant>)

  datatype Prepared = Prepared(
    fetch: int,
    logicalQuery: LogicalQuery,
    basis: PageBasis,
    cursorValues: Option<seq<Cell>>,
    scopeFingerprint: string)
  {
    function OrderBy(): seq<OrderItem> { logicalQuery.orderBy }
    function PageSize(): int { logicalQuery.limit }
  }

  datatype Page = Page(results: seq<ResultRow>, nextCursor: Option<Cursor>)

  // Completing the order

  predicate IsVariable(term: string) {
    term != "" && term[0] == '?'
  }

  function AddVariable(variables: seq<string>, term: string): seq<string> {
    if IsVariable(term) && term !in variables then variables + [term] else variables
  }

  function AddVariables(variables: seq<string>, terms: seq<string>): seq<string> {
    if terms == [] then variables
    else AddVariable(AddVariables(variables, terms[..|terms| - 1]), terms[|terms| - 1])
  }

  function Terms(q: DatalogQuery): seq<string> {
    q.find + q.aggregateTargets + q.optionalVariables
  }

  function ProjectedVariables(q: DatalogQuery): seq<string> {
    AddVariables([], Terms(q))
  }

  lemma {:induction false} AddedVariables(terms: seq<string>, v: string)
    ensures v in AddVariables([], terms) <==> v in terms && IsVariable(v)
    ensures Distinct(AddVariables([], terms))
  {
    if terms != [] {
      var n := |terms| - 1;
      AddedVariables(terms[..n], v);
      assert terms == terms[..n] + [terms[n]];
    }
  }

  function NewVariableAt(terms: seq<string>): nat -> bool {
    (i: nat) => i < |terms| && terms[i] != "" && terms[i][0] == '?' && terms[i] !in terms[..i]
  }

  /** The variables stand at these places of the terms, each at its first one. */
  ghost predicate FirstVariables(variables: seq<string>, terms: seq<string>, n: nat, places: seq<nat>) {
    && PlacesIn(places, n, NewVariableAt(terms)) && |variables| == |places|
    && (forall k :: 0 <= k < |places| ==> places[k] < |terms| && variables[k] == terms[places[k]])
  }

  lemma FirstVariablesNext(variables: seq<string>, terms: seq<string>, n: nat, places: seq<nat>)
    requires n < |terms| && FirstVariables(variables, terms, n, places)
    requires NewVariableAt(terms)(n) <==> IsVariable(terms[n]) && terms[n] !in variables
    ensures FirstVariables(AddVariable(variables, terms[n]), terms, n + 1,
                           if NewVariableAt(terms)(n) then places + [n] else places)
  {
    NextPlaces(places, n, NewVariableAt(terms));
  }

  lemma AddVariablesPrefix(terms: seq<string>, n: nat)
    requires n < |terms|
    ensures AddVariables([], terms[..n + 1]) == AddVariable(AddVariables([], terms[..n]), terms[n])
  {
    assert terms[..n + 1][..n] == terms[..n];
  }

  lemma StillNew(terms: seq<string>, n: nat)
    requires n < |terms|
    ensures NewVariableAt(terms)(n) <==> IsVariable(terms[n]) && terms[n] !in AddVariables([], terms[..n])
  {
    AddedVariables(terms[..n], terms[n]);
  }

  lemma {:induction false} AddedInOrder(terms: seq<string>, n: nat) returns (places: seq<nat>)
    requires n <= |terms|
    ensures FirstVariables(AddVariables([], terms[..n]), terms, n, places)
  {
    if n == 0 {
      places := [];
    } else {
      var m := n - 1;
      var earlier := AddedInOrder(terms, m);
      StillNew(terms, m);
      AddVariablesPrefix(terms, m);
      FirstVariablesNext(AddVariables([], terms[..m]), terms, m, earlier);
      places := if NewVariableAt(terms)(m) then earlier + [m] else earlier;
    }
  }

  /** The projected variables are the terms that start with a question mark, each
      once and in the order of their first occurrences. */
  lemma ProjectedOnce(q: DatalogQuery, terms: seq<string>)
    requires terms == q.find + q.aggregateTargets + q.optionalVariables
    ensures forall v :: v in ProjectedVariables(q) <==> v in terms && v != "" && v[0] == '?'
    ensures Distinct(ProjectedVariables(q))
    ensures exists places :: FirstVariables(ProjectedVariables(q), terms, |terms|, places)
  {
    forall v ensures v in ProjectedVariables(q) <==> v in terms && v != "" && v[0] == '?' {
      AddedVariables(terms, v);
    }
    AddedVariables(terms, "");
    assert terms[..|terms|] == terms;
    var places := AddedInOrder(terms, |terms|);
  }

  method CollectVariables(q: DatalogQuery) returns (variables: seq<string>)
    ensures variables == ProjectedVariables(q)
    ensures var terms := q.find + q.aggregateTargets + q.optionalVariables;
      exists places :: FirstVariables(variables, terms, |terms|, places)
  {
    variables := [];
    var terms := q.find + q.aggregateTargets + q.optionalVariables;
    for i := 0 to |terms|
      invariant variables == AddVariables([], terms[..i])
    {
      assert terms[..i + 1][..i] == terms[..i];
      if terms[i] != "" && terms[i][0] == '?' && terms[i] !in variables {
        variables := variables + [terms[i]];
      }
    }
    assert terms[..|terms|] == terms;
    ProjectedOnce(q, terms);
  }

  predicate Names(order: seq<OrderItem>, variable: string) {
    exists i :: 0 <= i < |order| && order[i].variable == variable
  }

  function AddItem(order: seq<OrderItem>, item: OrderItem): seq<OrderItem> {
    if Names(order, item.variable) then order else order + [item]
  }

  function AddItems(order: seq<OrderItem>, items: seq<OrderItem>): seq<OrderItem> {
    if items == [] then order
    else AddItem(AddItems(order, items[..|items| - 1]), items[|items| - 1])
  }

  function Ascending(variables: seq<string>): (items: seq<OrderItem>)
    ensures |items| == |variables| && forall i :: 0 <= i < |items| ==> items[i] == OrderItem(variables[i], Asc)
  {
    seq(|variables|, i requires 0 <= i < |variables| => OrderItem(variables[i], Asc))
  }

  predicate AllProjected(asked: seq<OrderItem>, projected: seq<string>) {
    forall i :: 0 <= i < |asked| ==> asked[i].variable in projected
  }

  function NormalizeOrder(q: DatalogQuery, orderBy: Option<seq<OrderItem>>): Result<seq<OrderItem>> {
    var projected := ProjectedVariables(q);
    var asked := if orderBy.Some? then orderBy.value else [];
    if AllProjected(asked, projected) then Ok(AddItems(AddItems([], asked), Ascending(projected)))
    else Err(InvalidOrdering)
  }

  method NormalizePaginationOrder(q: DatalogQuery, orderBy: Option<seq<OrderItem>>) returns (r: Result<seq<OrderItem>>)
    ensures r == NormalizeOrder(q, orderBy)
  {
    var projected := CollectVariables(q);
    var asked := if orderBy.Some? then orderBy.value else [];
    var order: seq<OrderItem> := [];
    for i := 0 to |asked|
      invariant AllProjected(asked[..i], projected)
      invariant order == AddItems([], asked[..i])
    {
      AskedOneMore(asked, i, projected);
      if asked[i].variable !in projected { return Err(InvalidOrdering); }
      if !Names(order, asked[i].variable) { order := order + [asked[i]]; }
    }
    assert asked[..|asked|] == asked;
    order := Complete(order, projected);
    r := Ok(order);
  }

  lemma AskedOneMore(asked: seq<OrderItem>, i: nat, projected: seq<string>)
    requires i < |asked| && AllProjected(asked[..i], projected)
    ensures asked[..i + 1][..i] == asked[..i] && asked[..i + 1][i] == asked[i]
    ensures AllProjected(asked[..i + 1], projected) <==> asked[i].variable in projected
    ensures AllProjected(asked, projected) ==> asked[i].variable in projected
  {
    var longer := asked[..i + 1];
    if asked[i].variable in projected {
      forall k | 0 <= k < i + 1 ensures longer[k].variable in projected {
        if k < i { assert longer[k] == asked[..i][k]; }
      }
    }
  }

  method Complete(first: seq<OrderItem>, projected: seq<string>) returns (order: seq<OrderItem>)
    ensures order == AddItems(first, Ascending(projected))
  {
    order := first;
    ghost var items := Ascending(projected);
    for i := 0 to |projected|
      invariant order == AddItems(first, items[..i])
    {
      assert items[..i + 1][..i] == items[..i];
      if !Names(order, projected[i]) { order := order + [OrderItem(projected[i], Asc)]; }
    }
    assert items[..|projected|] == items;
  }

  ghost predicate DistinctItems(order: seq<OrderItem>) {
    forall i, j :: 0 <= i < j < |order| ==> order[i].variable != order[j].variable
  }

  lemma {:induction false} AddItemsKeeps(order: seq<OrderItem>, items: seq<OrderItem>)
    requires DistinctItems(order)
    ensures DistinctItems(AddItems(order, items))
    ensures order <= AddItems(order, items)
    ensures forall v :: Names(AddItems(order, items), v) <==> Names(order, v) || Names(items, v)
  {
    if items != [] {
      var n := |items| - 1;
      var before := AddItems(order, items[..n]);
      AddItemsKeeps(order, items[..n]);
      forall v ensures Names(AddItems(order, items), v) <==> Names(order, v) || Names(items, v) {
        AddItemNames(before, items[n], v);
        assert items == items[..n] + [items[n]];
        NamesAppend(items[..n], items[n], v);
      }
    }
  }

  lemma NamesAppend(order: seq<OrderItem>, item: OrderItem, v: string)
    ensures Names(order + [item], v) <==> Names(order, v) || item.variable == v
  {
    var longer := order + [item];
    assert longer[|order|] == item;
    if Names(order, v) {
      var i :| 0 <= i < |order| && order[i].variable == v;
      assert longer[i].variable == v;
    }
  }

  lemma AddItemNames(order: seq<OrderItem>, item: OrderItem, v: string)
    ensures Names(AddItem(order, item), v) <==> Names(order, v) || item.variable == v
  {
    NamesAppend(order, item, v);
  }

  lemma AscendingNames(variables: seq<string>, v: string)
    ensures Names(Ascending(variables), v) <==> v in variables
  {
    if v in variables {
      var i :| 0 <= i < |variables| && variables[i] == v;
      assert Ascending(variables)[i].variable == v;
    }
  }

  lemma AskedAreProjected(asked: seq<OrderItem>, projected: seq<string>, v: string)
    requires AllProjected(asked, projected) && Names(AddItems([], asked), v)
    ensures v in projected
  {
    AddItemsKeeps([], asked);
    assert Names(asked, v);
  }

  /** The item names a variable that no earlier one names. */
  function FirstNamedAt(items: seq<OrderItem>): nat -> bool {
    (i: nat) => i < |items| && forall j :: 0 <= j < i ==> items[j].variable != items[i].variable
  }

  function UnnamedAt(variables: seq<string>, items: seq<OrderItem>): nat -> bool {
    (i: nat) => i < |variables| && forall j :: 0 <= j < |items| ==> items[j].variable != variables[i]
  }

  /** The order starts with the asked items that name a new variable, with their
      directions and in the order asked. */
  ghost predicate Chooses(order: seq<OrderItem>, asked: seq<OrderItem>, n: nat, chosen: seq<nat>) {
    && PlacesIn(chosen, n, FirstNamedAt(asked)) && |chosen| <= |order|
    && (forall k :: 0 <= k < |chosen| ==> chosen[k] < |asked| && order[k] == asked[chosen[k]])
  }

  /** From place `m` on it has the variables that no item names, ascending. */
  ghost predicate Remains(order: seq<OrderItem>, m: nat, items: seq<OrderItem>, variables: seq<string>, n: nat,
                          rest: seq<nat>) {
    && PlacesIn(rest, n, UnnamedAt(variables, items)) && |order| == m + |rest|
    && (forall k :: 0 <= k < |rest| ==>
          rest[k] < |variables| && order[m + k] == OrderItem(variables[rest[k]], Asc))
  }

  lemma FirstNamedMeans(asked: seq<OrderItem>, n: nat)
    requires n < |asked|
    ensures FirstNamedAt(asked)(n) <==> !Names(asked[..n], asked[n].variable)
  {
    if Names(asked[..n], asked[n].variable) {
      var i :| 0 <= i < n && asked[..n][i].variable == asked[n].variable;
      assert asked[i].variable == asked[n].variable;
    }
    if !FirstNamedAt(asked)(n) {
      var j :| 0 <= j < n && asked[j].variable == asked[n].variable;
      assert asked[..n][j].variable == asked[n].variable;
    }
  }

  lemma ChoosesNext(order: seq<OrderItem>, asked: seq<OrderItem>, n: nat, chosen: seq<nat>)
    requires n < |asked| && Chooses(order, asked, n, chosen) && |order| == |chosen|
    requires FirstNamedAt(asked)(n) <==> !Names(order, asked[n].variable)
    ensures var longer := if FirstNamedAt(asked)(n) then chosen + [n] else chosen;
      Chooses(AddItem(order, asked[n]), asked, n + 1, longer) && |AddItem(order, asked[n])| == |longer|
  {
    NextPlaces(chosen, n, FirstNamedAt(asked));
  }

  lemma StillFirst(asked: seq<OrderItem>, n: nat)
    requires n < |asked|
    ensures FirstNamedAt(asked)(n) <==> !Names(AddItems([], asked[..n]), asked[n].variable)
  {
    AddItemsKeeps([], asked[..n]);
    FirstNamedMeans(asked, n);
  }

  lemma AddItemsPrefix(asked: seq<OrderItem>, n: nat)
    requires n < |asked|
    ensures AddItems([], asked[..n + 1]) == AddItem(AddItems([], asked[..n]), asked[n])
  {
    assert asked[..n + 1][..n] == asked[..n];
  }

  ghost predicate ChoosesAll(order: seq<OrderItem>, asked: seq<OrderItem>, n: nat, chosen: seq<nat>) {
    Chooses(order, asked, n, chosen) && |order| == |chosen|
  }

  lemma {:induction false} AddedItems(asked: seq<OrderItem>, n: nat) returns (chosen: seq<nat>)
    requires n <= |asked|
    ensures ChoosesAll(AddItems([], asked[..n]), asked, n, chosen)
  {
    if n == 0 {
      chosen := [];
    } else {
      var m := n - 1;
      var earlier := AddedItems(asked, m);
      StillFirst(asked, m);
      AddItemsPrefix(asked, m);
      chosen := ChosenNext(AddItems([], asked[..m]), asked, m, earlier);
    }
  }

  lemma ChosenNext(order: seq<OrderItem>, asked: seq<OrderItem>, n: nat, chosen: seq<nat>) returns (longer: seq<nat>)
    requires n < |asked| && ChoosesAll(order, asked, n, chosen)
    requires FirstNamedAt(asked)(n) <==> !Names(order, asked[n].variable)
    ensures ChoosesAll(AddItem(order, asked[n]), asked, n + 1, longer)
  {
    ChoosesNext(order, asked, n, chosen);
    longer := if FirstNamedAt(asked)(n) then chosen + [n] else chosen;
  }

  lemma RemainsNext(order: seq<OrderItem>, first: seq<OrderItem>, variables: seq<string>, n: nat, rest: seq<nat>)
    requires n < |variables| && Remains(order, |first|, first, variables, n, rest)
    requires UnnamedAt(variables, first)(n) <==> !Names(order, variables[n])
    ensures Remains(AddItem(order, OrderItem(variables[n], Asc)), |first|, first, variables, n + 1,
                    if UnnamedAt(variables, first)(n) then rest + [n] else rest)
  {
    NextPlaces(rest, n, UnnamedAt(variables, first));
  }

  lemma AscendingNext(variables: seq<string>, n: nat)
    requires n < |variables|
    ensures Ascending(variables[..n + 1]) == Ascending(variables[..n]) + [OrderItem(variables[n], Asc)]
  {
  }

  lemma AddItemsNext(order: seq<OrderItem>, items: seq<OrderItem>, item: OrderItem)
    ensures AddItems(order, items + [item]) == AddItem(AddItems(order, items), item)
  {
    assert (items + [item])[..|items|] == items;
  }

  lemma StillUnnamed(first: seq<OrderItem>, variables: seq<string>, n: nat)
    requires n < |variables| && Distinct(variables) && DistinctItems(first)
    ensures UnnamedAt(variables, first)(n) <==> !Names(AddItems(first, Ascending(variables[..n])), variables[n])
  {
    AddItemsKeeps(first, Ascending(variables[..n]));
    AscendingNames(variables[..n], variables[n]);
    assert UnnamedAt(variables, first)(n) <==> !Names(first, variables[n]);
  }

  lemma {:induction false} AddedRest(first: seq<OrderItem>, variables: seq<string>, n: nat) returns (rest: seq<nat>)
    requires n <= |variables| && Distinct(variables) && DistinctItems(first)
    ensures Remains(AddItems(first, Ascending(variables[..n])), |first|, first, variables, n, rest)
  {
    rest := [];
    if n > 0 {
      var items := Ascending(variables[..n - 1]);
      var earlier := AddedRest(first, variables, n - 1);
      StillUnnamed(first, variables, n - 1);
      RemainsNext(AddItems(first, items), first, variables, n - 1, earlier);
      AscendingNext(variables, n - 1);
      AddItemsNext(first, items, OrderItem(variables[n - 1], Asc));
      rest := if UnnamedAt(variables, first)(n - 1) then earlier + [n - 1] else earlier;
    }
  }

  /** First the asked items, then the projected variables they do not name. */
  ghost predicate Completes(order: seq<OrderItem>, asked: seq<OrderItem>, projected: seq<string>,
                            chosen: seq<nat>, rest: seq<nat>) {
    Chooses(order, asked, |asked|, chosen) && Remains(order, |chosen|, asked, projected, |projected|, rest)
  }

  lemma UnnamedByFirst(variables: seq<string>, first: seq<OrderItem>, asked: seq<OrderItem>, n: nat, rest: seq<nat>)
    requires forall v :: Names(first, v) <==> Names(asked, v)
    requires PlacesIn(rest, n, UnnamedAt(variables, first))
    ensures PlacesIn(rest, n, UnnamedAt(variables, asked))
  {
    forall i: nat ensures UnnamedAt(variables, first)(i) <==> UnnamedAt(variables, asked)(i) {
      if i < |variables| {
        assert Names(first, variables[i]) <==> Names(asked, variables[i]);
      }
    }
  }

  lemma OrderCompletes(asked: seq<OrderItem>, projected: seq<string>) returns (chosen: seq<nat>, rest: seq<nat>)
    requires Distinct(projected)
    ensures Completes(AddItems(AddItems([], asked), Ascending(projected)), asked, projected, chosen, rest)
  {
    var first := AddItems([], asked);
    assert asked[..|asked|] == asked && projected[..|projected|] == projected;
    chosen := AddedItems(asked, |asked|);
    AddItemsKeeps([], asked);
    AddItemsKeeps(first, Ascending(projected));
    rest := AddedRest(first, projected, |projected|);
    UnnamedByFirst(projected, first, asked, |projected|, rest);
  }

  /** The completed order names every projected variable once: first the caller's
      items, with their directions, then the others, ascending and in projected order.
      It fails just when the caller orders by something else. */
  lemma CompletedOrder(q: DatalogQuery, orderBy: Option<seq<OrderItem>>)
    ensures var asked := if orderBy.Some? then orderBy.value else [];
      match NormalizeOrder(q, orderBy)
      case Err(e) => e == InvalidOrdering && !AllProjected(asked, ProjectedVariables(q))
      case Ok(order) =>
        && DistinctItems(order)
        && (forall v :: Names(order, v) <==> v in ProjectedVariables(q))
        && exists chosen, rest :: Completes(order, asked, ProjectedVariables(q), chosen, rest)
  {
    var projected := ProjectedVariables(q);
    var asked := if orderBy.Some? then orderBy.value else [];
    var r := NormalizeOrder(q, orderBy);
    if r.Ok? {
      AddItemsKeeps([], asked);
      AddItemsKeeps(AddItems([], asked), Ascending(projected));
      forall v ensures Names(r.value, v) <==> v in projected {
        AscendingNames(projected, v);
        if Names(AddItems([], asked), v) { AskedAreProjected(asked, projected, v); }
      }
      ProjectedOnce(q, q.find + q.aggregateTargets + q.optionalVariables);
      var chosen, rest := OrderCompletes(asked, projected);
    }
  }

  // Preparing a page

  predicate SafePosition(position: int) {
    0 <= position <= MAX_SAFE_INTEGER
  }

  function DecodeEnvelope(cursor: Cursor): Result<Envelope> {
    match cursor
    case Undecodable => Err(Malformed)
    case Encoded(e) =>
      if e.version != 1 then Err(UnsupportedVersion)
      else if e.basis.recordedAt < 0 || e.basis.validAt < 0 || !SafePosition(e.basis.recordedPosition)
      then Err(Malformed)
      else Ok(e)
  }

  function ResolveBasis(asked: Option<TemporalBasis>, now: Instant, position: int): Result<PageBasis> {
    var recordedAt := if asked.Some? then asked.value.recordedAt else None;
    var validAt := if asked.Some? then asked.value.validAt else None;
    if now < 0 || (recordedAt.Some? && recordedAt.value < 0) || (validAt.Some? && validAt.value < 0) then Err(Malformed)
    else Ok(PageBasis(if recordedAt.Some? then recordedAt.value else now, position,
                      if validAt.Some? then validAt.value else now))
  }

  predicate Contradicts(asked: Option<TemporalBasis>, basis: PageBasis) {
    asked.Some? &&
    ((asked.value.recordedAt.Some? && asked.value.recordedAt.value != basis.recordedAt)
     || (asked.value.validAt.Some? && asked.value.validAt.value != basis.validAt))
  }

  /** An inner limit or offset is made deterministic by completing its own order. */
  function StableInner(inner: DatalogQuery): Result<DatalogQuery> {
    if inner.limit.None? && inner.offset.None? then Ok(inner)
    else match NormalizeOrder(inner, inner.orderBy)
      case Err(e) => Err(e)
      case Ok(order) => Ok(inner.(orderBy := Some(order)))
  }

  function BaseQuery(query: WrappedQuery): Result<LogicalQuery> {
    var pageSize := if query.limit.Some? then query.limit.value else DEFAULT_QUERY_PAGE_SIZE;
    if pageSize < 1 || pageSize > MAX_QUERY_PAGE_SIZE then Err(Malformed)
    else match NormalizeOrder(query.inner, query.orderBy)
      case Err(e) => Err(e)
      case Ok(order) =>
        match StableInner(query.inner)
        case Err(e) => Err(e)
        case Ok(inner) => Ok(LogicalQuery(inner, query.filters, order, pageSize, query.includeCount))
  }

  function PreparePagination(query: WrappedQuery, asked: Option<TemporalBasis>, now: Instant, position: int,
                             scope: string): Result<Prepared> {
    if !SafePosition(position) then Err(Malformed) else
    match BaseQuery(query)
    case Err(e) => Err(e)
    case Ok(base) =>
      if query.cursor.None? then
        match ResolveBasis(asked, now, position)
        case Err(e) => Err(e)
        case Ok(basis) => Ok(Prepared(base.limit + 1, base, basis, None, scope))
      else
        match DecodeEnvelope(query.cursor.value)
        case Err(e) => Err(e)
        case Ok(envelope) =>
          if Contradicts(asked, envelope.basis) then Err(BasisMismatch)
          else if envelope.scopeFingerprint != scope then Err(ScopeMismatch)
          else if envelope.queryFingerprint != Fingerprint(base, envelope.basis) then Err(QueryMismatch)
          else if |envelope.values| != |base.orderBy| then Err(Malformed)
          else Ok(Prepared(base.limit + 1, base, envelope.basis, Some(envelope.values), scope))
  }

  // Ordering rows

  function CellAt(row: ResultRow, variable: string): Cell {
    if variable in row then row[variable] else NullCell
  }

  function KeyOf(order: seq<OrderItem>, row: ResultRow): (key: seq<Cell>)
    ensures |key| == |order|
    ensures forall i :: 0 <= i < |order| ==> key[i] == CellAt(row, order[i].variable)
  {
    seq(|order|, i requires 0 <= i < |order| => CellAt(row, order[i].variable))
  }

  function Category(cell: Cell): nat {
    match cell
    case NumberCell(_) => 0
    case FlagCell(_) => 1
    case TextCell(_) => 2
    case NullCell => 3
  }

  function CharLess(): (char, char) -> bool {
    (a, b) => a < b
  }

  predicate SameCategoryLess(a: Cell, b: Cell) {
    match (a, b)
    case (NumberCell(x), NumberCell(y)) => x < y
    case (FlagCell(x), FlagCell(y)) => !x && y
    case (TextCell(x), TextCell(y)) => Orders.LexLess(CharLess(), x, y)
    case _ => false
  }

  /** The direction reverses values, never the order of their kinds. */
  predicate CellBefore(direction: Direction, a: Cell, b: Cell) {
    if Category(a) != Category(b) then Category(a) < Category(b)
    else if direction.Asc? then SameCategoryLess(a, b)
    else SameCategoryLess(b, a)
  }

  predicate KeyBefore(order: seq<OrderItem>, a: seq<Cell>, b: seq<Cell>)
    requires |a| == |b| == |order|
  {
    order != [] &&
    (CellBefore(order[0].direction, a[0], b[0]) || (a[0] == b[0] && KeyBefore(order[1..], a[1..], b[1..])))
  }

  function RowBefore(order: seq<OrderItem>): (ResultRow, ResultRow) -> bool {
    (r, s) => KeyBefore(order, KeyOf(order, r), KeyOf(order, s))
  }

  function RowsAfter(rows: set<ResultRow>, order: seq<OrderItem>, key: Option<seq<Cell>>): set<ResultRow>
    requires key.Some? ==> |key.value| == |order|
  {
    match key
    case None => rows
    case Some(k) => set r | r in rows && KeyBefore(order, k, KeyOf(order, r))
  }

  /** The contract of the executor's page step: the first `fetch` rows strictly
      after the cursor key, among the rows of the answer. */
  ghost function ExecutePage(rows: set<ResultRow>, prepared: Prepared): seq<ResultRow>
    requires Orders.StrictTotalOn(RowBefore(prepared.OrderBy()), rows)
    requires prepared.fetch >= 0
    requires prepared.cursorValues.Some? ==> |prepared.cursorValues.value| == |prepared.OrderBy()|
  {
    var later := RowsAfter(rows, prepared.OrderBy(), prepared.cursorValues);
    var listed := Orders.Listing(RowBefore(prepared.OrderBy()), later);
    if |listed| <= prepared.fetch then listed else listed[..prepared.fetch]
  }

  function FinishPagination(prepared: Prepared, results: seq<ResultRow>): Page
    requires prepared.PageSize() >= 1
  {
    if |results| <= prepared.PageSize() then Page(results, None)
    else
      var page := results[..prepared.PageSize()];
      Page(page, Some(Encoded(Envelope(1, Fingerprint(prepared.logicalQuery, prepared.basis), prepared.scopeFingerprint,
                                       prepared.basis, KeyOf(prepared.OrderBy(), page[|page| - 1])))))
  }

  /** The query that a request settles on: its page size between 1 and 1000, 100 unless
      asked, its order completed, and an inner order completed too where it matters. */
  ghost predicate Settles(query: WrappedQuery, logical: LogicalQuery) {
    && logical.limit == (if query.limit.Some? then query.limit.value else 100) && 1 <= logical.limit <= 1000
    && NormalizeOrder(query.inner, query.orderBy) == Ok(logical.orderBy)
    && logical.filters == query.filters && logical.includeCount == query.includeCount
    && (if query.inner.limit == None && query.inner.offset == None then logical.inner == query.inner
        else exists order :: NormalizeOrder(query.inner, query.inner.orderBy) == Ok(order)
                             && logical.inner == query.inner.(orderBy := Some(order)))
  }

  lemma BaseSettles(query: WrappedQuery, logical: LogicalQuery)
    ensures BaseQuery(query) == Ok(logical) <==> Settles(query, logical)
  {
    if Settles(query, logical) && !(query.inner.limit == None && query.inner.offset == None) {
      var order :| NormalizeOrder(query.inner, query.inner.orderBy) == Ok(order)
                   && logical.inner == query.inner.(orderBy := Some(order));
    }
  }

  function Asked(part: Option<Instant>, now: Instant): Instant {
    if part.Some? then part.value else now
  }

  /** A first request reads at the current position, at the instants it asks for and
      now otherwise, and fetches one row more than its page. */
  lemma FirstRequest(query: WrappedQuery, asked: Option<TemporalBasis>, now: Instant, position: int, scope: string,
                     prepared: Prepared)
    requires query.cursor.None?
    ensures var recordedAt := Asked(if asked.Some? then asked.value.recordedAt else None, now);
            var validAt := Asked(if asked.Some? then asked.value.validAt else None, now);
            PreparePagination(query, asked, now, position, scope) == Ok(prepared) <==>
            && 0 <= position <= 9007199254740991 && now >= 0 && recordedAt >= 0 && validAt >= 0
            && Settles(query, prepared.logicalQuery) && prepared.fetch == prepared.logicalQuery.limit + 1
            && prepared.basis == PageBasis(recordedAt, position, validAt)
            && prepared.cursorValues == None && prepared.scopeFingerprint == scope
  {
    BaseSettles(query, prepared.logicalQuery);
  }

  /** A cursor is read exactly when it is of version 1 and carries a basis that a first
      request could have. */
  lemma DecodesWhen(cursor: Cursor, e: Envelope)
    ensures DecodeEnvelope(cursor) == Ok(e) <==>
            && cursor == Encoded(e) && e.version == 1 && e.basis.recordedAt >= 0 && e.basis.validAt >= 0
            && 0 <= e.basis.recordedPosition <= 9007199254740991
  {
  }

  lemma CursorAccepted(envelope: Envelope, query: WrappedQuery, asked: Option<TemporalBasis>, now: Instant,
                       position: int, scope: string)
    requires query.cursor == Some(Encoded(envelope)) && DecodeEnvelope(Encoded(envelope)).Ok?
    ensures var next := PreparePagination(query, asked, now, position, scope);
      && (next.Ok? <==>
            && SafePosition(position) && BaseQuery(query).Ok?
            && !Contradicts(asked, envelope.basis) && scope == envelope.scopeFingerprint
            && envelope.queryFingerprint == Fingerprint(BaseQuery(query).value, envelope.basis)
            && |envelope.values| == |BaseQuery(query).value.orderBy|)
      && (next.Ok? ==> next.value.basis == envelope.basis && next.value.cursorValues == Some(envelope.values))
  {
  }

  /** Why a readable cursor is refused: another basis first, then another database, then
      another query; a request that is itself malformed fails before that. */
  lemma CursorRefused(envelope: Envelope, query: WrappedQuery, asked: Option<TemporalBasis>, now: Instant,
                      position: int, scope: string)
    requires query.cursor == Some(Encoded(envelope)) && DecodeEnvelope(Encoded(envelope)).Ok?
    requires 0 <= position <= 9007199254740991 && BaseQuery(query).Ok?
    ensures var contradicts := asked.Some?
              && ((asked.value.recordedAt.Some? && asked.value.recordedAt.value != envelope.basis.recordedAt)
                  || (asked.value.validAt.Some? && asked.value.validAt.value != envelope.basis.validAt));
      var same := envelope.queryFingerprint == Fingerprint(BaseQuery(query).value, envelope.basis);
      match PreparePagination(query, asked, now, position, scope)
      case Ok(next) =>
        && !contradicts && scope == envelope.scopeFingerprint && same
        && next.logicalQuery == BaseQuery(query).value && next.fetch == next.logicalQuery.limit + 1
        && next.scopeFingerprint == scope && next.basis == envelope.basis && next.cursorValues == Some(envelope.values)
      case Err(e) =>
        && (e == BasisMismatch <==> contradicts)
        && (e == ScopeMismatch <==> !contradicts && scope != envelope.scopeFingerprint)
        && (e == QueryMismatch <==> !contradicts && scope == envelope.scopeFingerprint && !same)
        && (e == Malformed || contradicts || scope != envelope.scopeFingerprint || !same)
  {
  }

  /** A minted cursor is accepted for exactly the same query, page size, order and
      scope, whatever was committed since, unless the request asks for another
      basis; and then the page continues at the basis and row it was minted at. */
  lemma MintedCursorAccepted(prepared: Prepared, results: seq<ResultRow>, query: WrappedQuery,
                             asked: Option<TemporalBasis>, now: Instant, position: int, scope: string)
    requires prepared.PageSize() >= 1 && |results| > prepared.PageSize()
    requires SafePosition(prepared.basis.recordedPosition) && prepared.basis.recordedAt >= 0
             && prepared.basis.validAt >= 0
    requires query.cursor == FinishPagination(prepared, results).nextCursor
    ensures var next := PreparePagination(query, asked, now, position, scope);
      && (next.Ok? <==>
            && SafePosition(position)
            && BaseQuery(query) == Ok(prepared.logicalQuery)
            && scope == prepared.scopeFingerprint
            && !Contradicts(asked, prepared.basis))
      && (next.Ok? ==>
            && next.value.basis == prepared.basis
            && next.value.cursorValues == Some(KeyOf(prepared.OrderBy(), results[prepared.PageSize() - 1])))
  {
    CursorAccepted(query.cursor.value.envelope, query, asked, now, position, scope);
  }

  // The row order is total on the rows of an answer

  lemma CellIrreflexive(direction: Direction, a: Cell)
    ensures !CellBefore(direction, a, a)
  {
    if a.TextCell? { Orders.LexIrreflexive(CharLess(), a.text); }
  }

  lemma SameCategoryTransitive(a: Cell, b: Cell, c: Cell)
    requires SameCategoryLess(a, b) && SameCategoryLess(b, c)
    ensures SameCategoryLess(a, c)
  {
    if a.TextCell? { Orders.LexTransitive(CharLess(), a.text, b.text, c.text); }
  }

  lemma CellTransitive(direction: Direction, a: Cell, b: Cell, c: Cell)
    requires CellBefore(direction, a, b) && CellBefore(direction, b, c)
    ensures CellBefore(direction, a, c)
  {
    if Category(a) == Category(b) == Category(c) {
      if direction.Asc? { SameCategoryTransitive(a, b, c); } else { SameCategoryTransitive(c, b, a); }
    }
  }

  lemma CellConnected(direction: Direction, a: Cell, b: Cell)
    requires a != b
    ensures CellBefore(direction, a, b) || CellBefore(direction, b, a)
  {
    if a.TextCell? && b.TextCell? { Orders.LexConnected(CharLess(), a.text, b.text); }
  }

  /** The texts agree before place `n`, and there `a` ends or has the smaller character. */
  predicate DiffersAt(a: string, b: string, n: nat) {
    n <= |a| && n < |b| && (forall i :: 0 <= i < n ==> a[i] == b[i]) && (n < |a| ==> a[n] < b[n])
  }

  /** Texts are ordered by their first difference, and a longer one after its prefixes. */
  lemma {:induction false} TextOrderMeans(a: string, b: string)
    ensures Orders.LexLess(CharLess(), a, b) <==> exists n :: DiffersAt(a, b, n)
  {
    if a == [] || b == [] {
      if b != [] { assert DiffersAt(a, b, 0); }
    } else {
      TextOrderMeans(a[1..], b[1..]);
      if n: nat :| DiffersAt(a, b, n) {
        if n > 0 { assert DiffersAt(a[1..], b[1..], n - 1); }
      }
      if a[0] < b[0] { assert DiffersAt(a, b, 0); }
      if a[0] == b[0] {
        if n: nat :| DiffersAt(a[1..], b[1..], n) {
          OneLater(a, b, n);
        }
      }
    }
  }

  lemma OneLater(a: string, b: string, n: nat)
    requires a != [] && b != [] && a[0] == b[0] && DiffersAt(a[1..], b[1..], n)
    ensures DiffersAt(a, b, n + 1)
  {
    forall i | 0 <= i < n + 1 ensures a[i] == b[i] {
      if i > 0 { assert a[1..][i - 1] == b[1..][i - 1]; }
    }
  }

  lemma {:induction false} KeyIrreflexive(order: seq<OrderItem>, a: seq<Cell>)
    requires |a| == |order|
    ensures !KeyBefore(order, a, a)
  {
    if order != [] {
      CellIrreflexive(order[0].direction, a[0]);
      KeyIrreflexive(order[1..], a[1..]);
    }
  }

  lemma {:induction false} KeyTransitive(order: seq<OrderItem>, a: seq<Cell>, b: seq<Cell>, c: seq<Cell>)
    requires |a| == |b| == |c| == |order| && KeyBefore(order, a, b) && KeyBefore(order, b, c)
    ensures KeyBefore(order, a, c)
  {
    if CellBefore(order[0].direction, a[0], b[0]) && CellBefore(order[0].direction, b[0], c[0]) {
      CellTransitive(order[0].direction, a[0], b[0], c[0]);
    } else if a[0] == b[0] == c[0] && KeyBefore(order[1..], a[1..], b[1..]) && KeyBefore(order[1..], b[1..], c[1..]) {
      KeyTransitive(order[1..], a[1..], b[1..], c[1..]);
    } else {
      CellIrreflexive(order[0].direction, a[0]);
    }
  }

  lemma {:induction false} KeyConnected(order: seq<OrderItem>, a: seq<Cell>, b: seq<Cell>)
    requires |a| == |b| == |order| && a != b
    ensures KeyBefore(order, a, b) || KeyBefore(order, b, a)
  {
    if order != [] && a[0] != b[0] {
      CellConnected(order[0].direction, a[0], b[0]);
    } else if order != [] {
      assert a == [a[0]] + a[1..] && b == [b[0]] + b[1..];
      KeyConnected(order[1..], a[1..], b[1..]);
    }
  }

  /** The rows have the same value for the variable, or neither has one but null. */
  predicate SameCell(r: ResultRow, s: ResultRow, v: string) {
    if v in r && v in s then r[v] == s[v]
    else (v in r ==> r[v] == NullCell) && (v in s ==> s[v] == NullCell)
  }

  /** Set-valued over the projected variables: no two rows project alike. */
  ghost predicate SetValued(q: DatalogQuery, rows: set<ResultRow>) {
    forall r, s | r in rows && s in rows :: (forall v | v in ProjectedVariables(q) :: SameCell(r, s, v)) ==> r == s
  }

  lemma KeysTellRowsApart(q: DatalogQuery, order: seq<OrderItem>, rows: set<ResultRow>, r: ResultRow, s: ResultRow)
    requires SetValued(q, rows) && r in rows && s in rows && r != s
    requires forall v | v in ProjectedVariables(q) :: Names(order, v)
    ensures KeyOf(order, r) != KeyOf(order, s)
  {
    var v :| v in ProjectedVariables(q) && !SameCell(r, s, v);
    var i :| 0 <= i < |order| && order[i].variable == v;
    assert KeyOf(order, r)[i] != KeyOf(order, s)[i];
  }

  /** Any order that names every projected variable lists the answer one way only. */
  lemma RowOrderTotal(q: DatalogQuery, order: seq<OrderItem>, rows: set<ResultRow>)
    requires SetValued(q, rows)
    requires forall v | v in ProjectedVariables(q) :: Names(order, v)
    ensures Orders.StrictTotalOn(RowBefore(order), rows)
  {
    var less := RowBefore(order);
    forall r | r in rows ensures !less(r, r) {
      KeyIrreflexive(order, KeyOf(order, r));
    }
    forall r, s, t | r in rows && s in rows && t in rows && less(r, s) && less(s, t) ensures less(r, t) {
      KeyTransitive(order, KeyOf(order, r), KeyOf(order, s), KeyOf(order, t));
    }
    forall r, s | r in rows && s in rows && r != s ensures less(r, s) || less(s, r) {
      KeysTellRowsApart(q, order, rows, r, s);
      KeyConnected(order, KeyOf(order, r), KeyOf(order, s));
    }
  }
}
