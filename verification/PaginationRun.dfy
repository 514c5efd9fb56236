/** Following next cursors across any number of requests while the store goes on
    taking commits. */
module PaginationRun {
  import opened Facts
  import opened FactTable
  import opened Pagination
  import Orders

  /** One caller paging through one query: `nows(n)` and `histories(n)` are the
      clock and the commits the n-th request meets, and `answer` is the executor's
      evaluation of the query on the visible facts. */
  datatype Session = Session(
    query: WrappedQuery,
    asked: Option<TemporalBasis>,
    scope: string,
    nows: nat -> Instant,
    histories: nat -> seq<Commit>,
    answer: (LogicalQuery, seq<Triple>) -> set<ResultRow>)

  ghost predicate Sound(session: Session, n: nat) {
    && Possible(session.histories(n))
    && |session.histories(n)| <= MAX_SAFE_INTEGER
    && session.histories(n) <= session.histories(n + 1)
  }

  ghost predicate Valid(session: Session) {
    && session.query.cursor.None?
    && (forall n: nat :: Sound(session, n))
    && (forall logical: LogicalQuery, facts: seq<Triple> :: SetValued(logical.inner, session.answer(logical, facts)))
  }

  lemma {:induction false} HistoryGrows(session: Session, n: nat)
    requires Valid(session)
    ensures session.histories(0) <= session.histories(n)
  {
    if n > 0 {
      HistoryGrows(session, n - 1);
      assert Sound(session, n - 1);
    }
  }

  // One request

  function Prepare(session: Session, n: nat, cursor: Option<Cursor>): Result<Prepared> {
    PreparePagination(session.query.(cursor := cursor), session.asked, session.nows(n), |session.histories(n)|,
                      session.scope)
  }

  lemma BaseShape(query: WrappedQuery)
    requires BaseQuery(query).Ok?
    ensures BaseQuery(query).value.limit >= 1
    ensures forall v | v in ProjectedVariables(BaseQuery(query).value.inner) :: Names(BaseQuery(query).value.orderBy, v)
  {
    CompletedOrder(query.inner, query.orderBy);
    assert ProjectedVariables(BaseQuery(query).value.inner) == ProjectedVariables(query.inner);
  }

  lemma PreparedFrom(query: WrappedQuery, asked: Option<TemporalBasis>, now: Instant, position: int, scope: string)
    requires PreparePagination(query, asked, now, position, scope).Ok?
    ensures var prepared := PreparePagination(query, asked, now, position, scope).value;
      && prepared.fetch == prepared.PageSize() + 1
      && BaseQuery(query) == Ok(prepared.logicalQuery)
      && SafePosition(prepared.basis.recordedPosition)
      && (prepared.cursorValues.Some? ==> |prepared.cursorValues.value| == |prepared.OrderBy()|)
  {
  }

  lemma PreparedShape(session: Session, n: nat, cursor: Option<Cursor>)
    requires Valid(session) && Prepare(session, n, cursor).Ok?
    ensures var prepared := Prepare(session, n, cursor).value;
      && prepared.fetch == prepared.PageSize() + 1 && prepared.PageSize() >= 1
      && BaseQuery(session.query) == Ok(prepared.logicalQuery)
      && SafePosition(prepared.basis.recordedPosition)
      && (prepared.cursorValues.Some? ==> |prepared.cursorValues.value| == |prepared.OrderBy()|)
      && forall v | v in ProjectedVariables(prepared.logicalQuery.inner) :: Names(prepared.OrderBy(), v)
  {
    PreparedFrom(session.query.(cursor := cursor), session.asked, session.nows(n), |session.histories(n)|,
                 session.scope);
    assert BaseQuery(session.query.(cursor := cursor)) == BaseQuery(session.query);
    BaseShape(session.query);
  }

  function Cuts(basis: PageBasis): Basis
    requires basis.recordedPosition >= 0
  {
    Basis(Some(basis.recordedAt), Some(basis.recordedPosition), basis.validAt)
  }

  /** The answer on the facts that request n sees through `basis`. */
  ghost function Snapshot(session: Session, n: nat, logical: LogicalQuery, basis: PageBasis): set<ResultRow>
    requires basis.recordedPosition >= 0
  {
    session.answer(logical, Read(After(session.histories(n)).rows, Cuts(basis)))
  }

  ghost function Respond(session: Session, n: nat, cursor: Option<Cursor>): Result<Page>
    requires Valid(session)
  {
    match Prepare(session, n, cursor)
    case Err(e) => Err(e)
    case Ok(prepared) =>
      PreparedShape(session, n, cursor);
      var rows := Snapshot(session, n, prepared.logicalQuery, prepared.basis);
      RowOrderTotal(prepared.logicalQuery.inner, prepared.OrderBy(), rows);
      Ok(FinishPagination(prepared, ExecutePage(rows, prepared)))
  }

  lemma RespondIs(session: Session, n: nat, cursor: Option<Cursor>, prepared: Prepared, rows: set<ResultRow>)
    requires Valid(session) && Prepare(session, n, cursor) == Ok(prepared)
    requires prepared.basis.recordedPosition >= 0 && rows == Snapshot(session, n, prepared.logicalQuery, prepared.basis)
    ensures prepared.fetch == prepared.PageSize() + 1 && prepared.PageSize() >= 1
    ensures Orders.StrictTotalOn(RowBefore(prepared.OrderBy()), rows)
    ensures prepared.cursorValues.Some? ==> |prepared.cursorValues.value| == |prepared.OrderBy()|
    ensures Respond(session, n, cursor) == Ok(FinishPagination(prepared, ExecutePage(rows, prepared)))
  {
    PreparedShape(session, n, cursor);
    RowOrderTotal(prepared.logicalQuery.inner, prepared.OrderBy(), rows);
  }

  // Runs

  ghost predicate Follows(session: Session, pages: seq<Page>, i: nat)
    requires Valid(session) && 1 <= i < |pages|
  {
    pages[i - 1].nextCursor.Some? && Respond(session, i, pages[i - 1].nextCursor) == Ok(pages[i])
  }

  /** Request 0 carries no cursor and each later one the cursor it was handed. */
  ghost predicate Walk(session: Session, pages: seq<Page>)
    requires Valid(session)
  {
    && pages != []
    && Respond(session, 0, None) == Ok(pages[0])
    && forall i :: 1 <= i < |pages| ==> Follows(session, pages, i)
  }

  /** The assumptions on a session can be met, by a request that is answered. */
  lemma SomeSessionWalks() returns (session: Session, pages: seq<Page>)
    ensures Valid(session) && Walk(session, pages)
  {
    var inner := DatalogQuery(["?x"], [], [], None, None, None, "");
    session := Session(WrappedQuery(inner, "", None, None, false, None), None, "", n => 0, n => [],
                       (logical, facts) => {});
    assert Valid(session);
    assert NormalizeOrder(inner, None).Ok?;
    assert Prepare(session, 0, None).Ok?;
    pages := [Respond(session, 0, None).value];
  }

  function Shown(pages: seq<Page>): seq<ResultRow> {
    if pages == [] then [] else Shown(pages[..|pages| - 1]) + pages[|pages| - 1].results
  }

  ghost predicate Starts(session: Session, prepared: Prepared) {
    Valid(session) && Prepare(session, 0, None) == Ok(prepared)
  }

  /** The rows of the snapshot the first request pinned, in the completed order. */
  ghost function Whole(session: Session, prepared: Prepared): (r: seq<ResultRow>)
    requires Starts(session, prepared)
    ensures prepared.basis.recordedPosition >= 0 && prepared.PageSize() >= 1
    ensures forall x :: x in r <==> x in Snapshot(session, 0, prepared.logicalQuery, prepared.basis)
    ensures Orders.StrictlySorted(RowBefore(prepared.OrderBy()), r)
  {
    PreparedShape(session, 0, None);
    var rows := Snapshot(session, 0, prepared.logicalQuery, prepared.basis);
    RowOrderTotal(prepared.logicalQuery.inner, prepared.OrderBy(), rows);
    Orders.Listing(RowBefore(prepared.OrderBy()), rows)
  }

  /** Later commits do not show through the first request's basis. */
  lemma SnapshotPinned(session: Session, prepared: Prepared, n: nat)
    requires Starts(session, prepared)
    ensures prepared.basis.recordedPosition >= 0
    ensures Snapshot(session, n, prepared.logicalQuery, prepared.basis)
            == Snapshot(session, 0, prepared.logicalQuery, prepared.basis)
  {
    PreparedShape(session, 0, None);
    HistoryGrows(session, n);
    assert Sound(session, n) && Sound(session, 0);
    var p := |session.histories(0)|;
    assert prepared.basis.recordedPosition == p;
    SnapshotStable(session.histories(n), p, Cuts(prepared.basis));
    assert session.histories(n)[..p] == session.histories(0);
  }

  function OwnCursor(prepared: Prepared, last: ResultRow): Cursor {
    Encoded(Envelope(1, Fingerprint(prepared.logicalQuery, prepared.basis), prepared.scopeFingerprint, prepared.basis,
                     KeyOf(prepared.OrderBy(), last)))
  }

  /** A cursor the first request's basis was written into is accepted by any later
      request, and continues that request. */
  lemma OwnCursorAccepted(session: Session, prepared: Prepared, n: nat, last: ResultRow)
    requires Starts(session, prepared)
    ensures Prepare(session, n, Some(OwnCursor(prepared, last)))
            == Ok(prepared.(cursorValues := Some(KeyOf(prepared.OrderBy(), last))))
  {
    var cursor := OwnCursor(prepared, last);
    assert Sound(session, n) && Sound(session, 0);
    PreparedShape(session, 0, None);
    var query := session.query.(cursor := Some(cursor));
    assert BaseQuery(query) == BaseQuery(session.query) == Ok(prepared.logicalQuery);
    assert BaseQuery(session.query.(cursor := None)) == BaseQuery(session.query);
    assert prepared.basis.recordedAt >= 0 && prepared.basis.validAt >= 0;
    assert DecodeEnvelope(cursor) == Ok(cursor.envelope);
    assert !Contradicts(session.asked, prepared.basis);
  }

  /** What the page that starts after `m` rows of `list` looks like. */
  function PageFrom(prepared: Prepared, list: seq<ResultRow>, m: nat): Page
    requires m <= |list| && prepared.PageSize() >= 1
  {
    if |list| - m <= prepared.PageSize() then Page(list[m..], None)
    else Page(list[m..m + prepared.PageSize()], Some(OwnCursor(prepared, list[m + prepared.PageSize() - 1])))
  }

  lemma FirstPage(session: Session, prepared: Prepared)
    requires Starts(session, prepared)
    ensures prepared.PageSize() >= 1 && Respond(session, 0, None) == Ok(PageFrom(prepared, Whole(session, prepared), 0))
  {
    var list := Whole(session, prepared);
    var rows := Snapshot(session, 0, prepared.logicalQuery, prepared.basis);
    RespondIs(session, 0, None, prepared, rows);
    assert prepared.cursorValues.None?;
    assert list[0..] == list;
    FinishesPage(prepared, list, 0, ExecutePage(rows, prepared));
  }

  lemma FinishesPage(prepared: Prepared, list: seq<ResultRow>, m: nat, fetched: seq<ResultRow>)
    requires m <= |list| && prepared.PageSize() >= 1
    requires fetched
             == if |list| - m <= prepared.PageSize() + 1 then list[m..] else list[m..][..prepared.PageSize() + 1]
    ensures FinishPagination(prepared, fetched) == PageFrom(prepared, list, m)
  {
    if |list| - m > prepared.PageSize() {
      assert fetched[..prepared.PageSize()] == list[m..m + prepared.PageSize()];
    }
  }

  lemma ContinuesAfter(prepared: Prepared, resumed: Prepared, rows: set<ResultRow>, list: seq<ResultRow>, m: nat)
    requires 1 <= m <= |list| && prepared.fetch == prepared.PageSize() + 1 && prepared.PageSize() >= 1
    requires resumed == prepared.(cursorValues := Some(KeyOf(prepared.OrderBy(), list[m - 1])))
    requires Orders.StrictTotalOn(RowBefore(prepared.OrderBy()), rows)
    requires Orders.StrictlySorted(RowBefore(prepared.OrderBy()), list) && forall x :: x in list <==> x in rows
    ensures ExecutePage(rows, resumed)
            == if |list| - m <= prepared.fetch then list[m..] else list[m..][..prepared.fetch]
  {
    var wanted := RowsAfter(rows, resumed.OrderBy(), resumed.cursorValues);
    var less := RowBefore(prepared.OrderBy());
    assert wanted == set r | r in rows && less(list[m - 1], r);
    Orders.RestOfListing(less, rows, list, m, wanted);
  }

  function Resuming(prepared: Prepared, last: ResultRow): Prepared {
    prepared.(cursorValues := Some(KeyOf(prepared.OrderBy(), last)))
  }

  lemma ContinuedPage(prepared: Prepared, rows: set<ResultRow>, list: seq<ResultRow>, m: nat)
    requires 1 <= m <= |list| && prepared.fetch == prepared.PageSize() + 1 && prepared.PageSize() >= 1
    requires Orders.StrictTotalOn(RowBefore(prepared.OrderBy()), rows)
    requires Orders.StrictlySorted(RowBefore(prepared.OrderBy()), list) && forall x :: x in list <==> x in rows
    ensures FinishPagination(Resuming(prepared, list[m - 1]), ExecutePage(rows, Resuming(prepared, list[m - 1])))
            == PageFrom(prepared, list, m)
  {
    var resumed := Resuming(prepared, list[m - 1]);
    ContinuesAfter(prepared, resumed, rows, list, m);
    FinishesPage(prepared, list, m, ExecutePage(rows, resumed));
  }

  lemma WholeIsSorted(session: Session, prepared: Prepared)
    requires Starts(session, prepared)
    ensures prepared.fetch == prepared.PageSize() + 1
    ensures Orders.StrictTotalOn(RowBefore(prepared.OrderBy()),
                                 Snapshot(session, 0, prepared.logicalQuery, prepared.basis))
  {
    PreparedShape(session, 0, None);
    RowOrderTotal(prepared.logicalQuery.inner, prepared.OrderBy(),
                  Snapshot(session, 0, prepared.logicalQuery, prepared.basis));
  }

  lemma LaterPage(session: Session, prepared: Prepared, n: nat, m: nat, list: seq<ResultRow>)
    requires Starts(session, prepared) && list == Whole(session, prepared) && 1 <= m <= |list|
    ensures Respond(session, n, Some(OwnCursor(prepared, list[m - 1]))) == Ok(PageFrom(prepared, list, m))
  {
    var rows := Snapshot(session, 0, prepared.logicalQuery, prepared.basis);
    OwnCursorAccepted(session, prepared, n, list[m - 1]);
    SnapshotPinned(session, prepared, n);
    RespondIs(session, n, Some(OwnCursor(prepared, list[m - 1])), Resuming(prepared, list[m - 1]), rows);
    WholeIsSorted(session, prepared);
    ContinuedPage(prepared, rows, list, m);
  }

  // The theorem

  ghost predicate FullPages(pages: seq<Page>, size: int) {
    forall i :: 0 <= i < |pages| ==> |pages[i].results| == size
  }

  /** The i-th page follows a cursor, and continues from the row the cursor names. */
  ghost predicate ContinuesAt(prepared: Prepared, list: seq<ResultRow>, pages: seq<Page>, i: nat)
    requires 1 <= i < |pages| && prepared.PageSize() >= 1
  {
    && pages[i - 1].nextCursor.Some?
    && forall m: nat :: 1 <= m <= |list| && pages[i - 1].nextCursor.value == OwnCursor(prepared, list[m - 1]) ==>
         pages[i] == PageFrom(prepared, list, m)
  }

  ghost predicate Continues(prepared: Prepared, list: seq<ResultRow>, pages: seq<Page>)
    requires prepared.PageSize() >= 1
  {
    && pages != [] && pages[0] == PageFrom(prepared, list, 0)
    && forall i :: 1 <= i < |pages| ==> ContinuesAt(prepared, list, pages, i)
  }

  lemma WalkContinues(session: Session, prepared: Prepared, pages: seq<Page>, list: seq<ResultRow>)
    requires Starts(session, prepared) && Walk(session, pages) && list == Whole(session, prepared)
    ensures prepared.PageSize() >= 1 && Continues(prepared, list, pages)
  {
    FirstPage(session, prepared);
    forall i | 1 <= i < |pages| ensures ContinuesAt(prepared, list, pages, i) {
      FollowsContinues(session, prepared, pages, list, i);
    }
  }

  lemma FollowsContinues(session: Session, prepared: Prepared, pages: seq<Page>, list: seq<ResultRow>, i: nat)
    requires Starts(session, prepared) && list == Whole(session, prepared) && prepared.PageSize() >= 1
    requires 1 <= i < |pages| && Follows(session, pages, i)
    ensures ContinuesAt(prepared, list, pages, i)
  {
    forall m: nat | 1 <= m <= |list| && pages[i - 1].nextCursor.value == OwnCursor(prepared, list[m - 1])
      ensures pages[i] == PageFrom(prepared, list, m)
    {
      LaterPage(session, prepared, i, m, list);
    }
  }

  ghost predicate Progress(prepared: Prepared, list: seq<ResultRow>, pages: seq<Page>)
    requires pages != [] && prepared.PageSize() >= 1
  {
    var before := Shown(pages[..|pages| - 1]);
    && |before| <= |list| && before == list[..|before|]
    && pages[|pages| - 1] == PageFrom(prepared, list, |before|)
    && FullPages(pages[..|pages| - 1], prepared.PageSize())
    && |pages| - 1 <= |before|
    && (|pages| > 1 ==> |before| < |list|)
  }

  lemma PageShows(prepared: Prepared, list: seq<ResultRow>, m: nat)
    requires m <= |list| && prepared.PageSize() >= 1
    ensures var page := PageFrom(prepared, list, m);
      && m + |page.results| <= |list| && list[..m] + page.results == list[..m + |page.results|]
      && |page.results| <= prepared.PageSize()
      && (page.nextCursor.None? ==> m + |page.results| == |list|)
      && (page.nextCursor.Some? ==> |page.results| == prepared.PageSize() && m + |page.results| < |list|)
      && (page.nextCursor.Some? ==> page.nextCursor == Some(OwnCursor(prepared, list[m + |page.results| - 1])))
  {
    if |list| - m > prepared.PageSize() {
      assert list[..m] + list[m..m + prepared.PageSize()] == list[..m + prepared.PageSize()];
    }
  }

  /** A page that carries a cursor is full, and its cursor names its last row. */
  lemma PageExtends(prepared: Prepared, list: seq<ResultRow>, pages: seq<Page>)
    requires pages != [] && prepared.PageSize() >= 1 && Progress(prepared, list, pages)
    ensures |Shown(pages)| <= |list| && Shown(pages) == list[..|Shown(pages)|]
    ensures pages[|pages| - 1].nextCursor.None? ==> Shown(pages) == list
    ensures pages[|pages| - 1].nextCursor.Some? ==>
      && |pages| <= |Shown(pages)| < |list| && FullPages(pages, prepared.PageSize())
      && pages[|pages| - 1].nextCursor == Some(OwnCursor(prepared, list[|Shown(pages)| - 1]))
  {
    var n := |pages| - 1;
    PageShows(prepared, list, |Shown(pages[..n])|);
    if pages[n].nextCursor.Some? {
      LastFull(pages, prepared.PageSize());
    }
  }

  lemma LastFull(pages: seq<Page>, size: int)
    requires pages != [] && FullPages(pages[..|pages| - 1], size) && |pages[|pages| - 1].results| == size
    ensures FullPages(pages, size)
  {
    forall i | 0 <= i < |pages| ensures |pages[i].results| == size {
      if i < |pages| - 1 { assert pages[..|pages| - 1][i] == pages[i]; }
    }
  }

  lemma ContinuesBefore(prepared: Prepared, list: seq<ResultRow>, pages: seq<Page>)
    requires prepared.PageSize() >= 1 && Continues(prepared, list, pages) && |pages| > 1
    ensures Continues(prepared, list, pages[..|pages| - 1])
  {
    var earlier := pages[..|pages| - 1];
    forall i | 1 <= i < |earlier| ensures ContinuesAt(prepared, list, earlier, i) {
      assert ContinuesAt(prepared, list, pages, i);
      assert earlier[i] == pages[i] && earlier[i - 1] == pages[i - 1];
    }
  }

  lemma NextProgresses(prepared: Prepared, list: seq<ResultRow>, pages: seq<Page>)
    requires prepared.PageSize() >= 1 && |pages| > 1
    requires Progress(prepared, list, pages[..|pages| - 1]) && ContinuesAt(prepared, list, pages, |pages| - 1)
    ensures Progress(prepared, list, pages)
  {
    var earlier := pages[..|pages| - 1];
    PageExtends(prepared, list, earlier);
    assert pages[|pages| - 2] == earlier[|earlier| - 1];
    var m := |Shown(earlier)|;
    assert pages[|pages| - 2].nextCursor.value == OwnCursor(prepared, list[m - 1]);
  }

  lemma {:induction false} WalkProgresses(prepared: Prepared, list: seq<ResultRow>, pages: seq<Page>)
    requires prepared.PageSize() >= 1 && Continues(prepared, list, pages)
    ensures Progress(prepared, list, pages)
    decreases |pages|
  {
    if |pages| == 1 {
      assert pages[..0] == [];
    } else {
      ContinuesBefore(prepared, list, pages);
      WalkProgresses(prepared, list, pages[..|pages| - 1]);
      assert ContinuesAt(prepared, list, pages, |pages| - 1);
      NextProgresses(prepared, list, pages);
    }
  }

  /** The walk so far against the whole list: a prefix, in full pages but for the
      last, over exactly when everything is shown, in as many pages as rows at most. */
  ghost predicate ShowsOnce(prepared: Prepared, list: seq<ResultRow>, pages: seq<Page>)
    requires pages != []
  {
    && Shown(pages) <= list
    && FullPages(pages[..|pages| - 1], prepared.PageSize())
    && |pages[|pages| - 1].results| <= prepared.PageSize()
    && (list != [] ==> pages[|pages| - 1].results != [])
    && |pages| <= (if list == [] then 1 else |list|)
    && (pages[|pages| - 1].nextCursor.None? <==> Shown(pages) == list)
  }

  lemma ProgressShowsOnce(prepared: Prepared, list: seq<ResultRow>, pages: seq<Page>)
    requires pages != [] && prepared.PageSize() >= 1 && Progress(prepared, list, pages)
    ensures ShowsOnce(prepared, list, pages)
  {
    PageExtends(prepared, list, pages);
    PageShows(prepared, list, |Shown(pages[..|pages| - 1])|);
  }

  ghost predicate NamesRow(prepared: Prepared, list: seq<ResultRow>, cursor: Option<Cursor>) {
    exists row :: row in list && cursor == Some(OwnCursor(prepared, row))
  }

  lemma CursorNamesRow(prepared: Prepared, list: seq<ResultRow>, pages: seq<Page>)
    requires pages != [] && prepared.PageSize() >= 1 && Progress(prepared, list, pages)
             && pages[|pages| - 1].nextCursor.Some?
    ensures NamesRow(prepared, list, pages[|pages| - 1].nextCursor)
  {
    PageExtends(prepared, list, pages);
    assert list[|Shown(pages)| - 1] in list;
  }

  lemma LaterAccepted(session: Session, prepared: Prepared, n: nat, list: seq<ResultRow>, cursor: Option<Cursor>)
    requires Starts(session, prepared) && list == Whole(session, prepared) && NamesRow(prepared, list, cursor)
    ensures Respond(session, n, cursor).Ok?
  {
    var row :| row in list && cursor == Some(OwnCursor(prepared, row));
    var i :| 0 <= i < |list| && list[i] == row;
    LaterPage(session, prepared, n, i + 1, list);
  }

  lemma WalkShows(session: Session, prepared: Prepared, pages: seq<Page>, list: seq<ResultRow>)
    requires Starts(session, prepared) && Walk(session, pages) && list == Whole(session, prepared)
    ensures ShowsOnce(prepared, list, pages)
    ensures pages[|pages| - 1].nextCursor.Some? ==> NamesRow(prepared, list, pages[|pages| - 1].nextCursor)
  {
    WalkContinues(session, prepared, pages, list);
    WalkProgresses(prepared, list, pages);
    ProgressShowsOnce(prepared, list, pages);
    if pages[|pages| - 1].nextCursor.Some? { CursorNamesRow(prepared, list, pages); }
  }

  /** However far a caller has followed the cursors it was given, and whatever was
      committed meanwhile: the pages so far are a prefix of the first request's
      snapshot in the completed order, every page but the last is full, each cursor
      handed out is accepted by the next request, and the walk ends, within as many
      pages as there are rows, exactly when the whole snapshot has been shown. */
  lemma WalkShowsSnapshotOnce(session: Session, prepared: Prepared, pages: seq<Page>)
    requires Starts(session, prepared) && Walk(session, pages)
    ensures ShowsOnce(prepared, Whole(session, prepared), pages)
    ensures pages[|pages| - 1].nextCursor.Some? ==> Respond(session, |pages|, pages[|pages| - 1].nextCursor).Ok?
  {
    var list := Whole(session, prepared);
    WalkShows(session, prepared, pages, list);
    if pages[|pages| - 1].nextCursor.Some? {
      LaterAccepted(session, prepared, |pages|, list, pages[|pages| - 1].nextCursor);
    }
  }
}
