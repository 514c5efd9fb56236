/** Freshness of the facts a result was computed from: the last commit that touched
    their attributes, and the next instant at which time alone changes them. */
module DependencyState {
  import opened Facts
  import opened FactTable

  /** The position cut, when there is one, is the only recorded cut looked at. */
  function OneCut(basis: Basis): Basis {
    if basis.recordedPosition.Some? then basis.(recordedAt := None) else basis
  }

  // The last position that bears on a row

  function Bearing(row: Row, basis: Basis): nat {
    if basis.recordedPosition.Some? then
      if row.recordedPosition > basis.recordedPosition.value then 0
      else if row.retractedPosition.Some? && row.retractedPosition.value <= basis.recordedPosition.value
      then row.retractedPosition.value else row.recordedPosition
    else if basis.recordedAt.Some? then
      if row.recordedAt > basis.recordedAt.value then 0
      else if row.retractedAt.Some? && row.retractedAt.value <= basis.recordedAt.value
      then (if row.retractedPosition.Some? then row.retractedPosition.value else 0) else row.recordedPosition
    else if row.retractedPosition.Some? then row.retractedPosition.value else row.recordedPosition
  }

  function Max(a: nat, b: nat): nat {
    if a < b then b else a
  }

  function SourcePosition(rows: seq<Row>, attributes: set<string>, basis: Basis): nat {
    if rows == [] then 0
    else
      var n := |rows| - 1;
      var earlier := SourcePosition(rows[..n], attributes, basis);
      if rows[n].attribute in attributes then Max(earlier, Bearing(rows[n], basis)) else earlier
  }

  // The next edge of a row's valid interval

  function NextEdge(row: Row, at: Instant): Option<Instant> {
    if row.validFrom > at then Some(row.validFrom)
    else if row.validTo.Some? && row.validTo.value > at then row.validTo
    else None
  }

  predicate Watched(row: Row, attributes: set<string>, basis: Basis) {
    row.attribute in attributes && Live(row, OneCut(basis))
  }

  function NextBoundary(rows: seq<Row>, attributes: set<string>, basis: Basis): Option<Instant> {
    if rows == [] then None
    else
      var n := |rows| - 1;
      var earlier := NextBoundary(rows[..n], attributes, basis);
      var edge := NextEdge(rows[n], basis.validAt);
      if !Watched(rows[n], attributes, basis) || edge.None? then earlier
      else if earlier.None? || edge.value < earlier.value then edge
      else earlier
  }

  /** The visible facts of the attributes, in table order. */
  function ReadOf(rows: seq<Row>, attributes: set<string>, basis: Basis): seq<Triple> {
    if rows == [] then []
    else
      var n := |rows| - 1;
      ReadOf(rows[..n], attributes, basis)
      + if rows[n].attribute in attributes && Visible(rows[n], basis) then [FactOf(rows[n])] else []
  }

  // Which commits touch the attributes

  ghost predicate TouchesRow(rows: seq<Row>, write: Write, attributes: set<string>) {
    match write
    case Insert(input, _) => input.attribute in attributes
    case Retract(id) =>
      exists i :: 0 <= i < |rows| && rows[i].id == id && rows[i].retractedAt.None? && rows[i].attribute in attributes
  }

  ghost predicate Touches(rows: seq<Row>, writes: seq<Write>, timestamp: Instant, position: nat,
                          attributes: set<string>) {
    writes != [] &&
    var n := |writes| - 1;
    Touches(rows, writes[..n], timestamp, position, attributes)
    || TouchesRow(ApplyWrites(rows, writes[..n], timestamp, position), writes[n], attributes)
  }

  /** The last commit that asserted or retracted a fact of the attributes. */
  ghost function LastTouch(history: seq<Commit>, attributes: set<string>): (p: nat)
    ensures p <= |history|
  {
    if history == [] then 0
    else
      var n := |history| - 1;
      if Touches(After(history[..n]).rows, history[n].writes, history[n].timestamp, n + 1, attributes)
      then n + 1
      else LastTouch(history[..n], attributes)
  }

  // Source positions

  ghost predicate BearingsUpTo(rows: seq<Row>, basis: Basis, position: nat) {
    forall i :: 0 <= i < |rows| ==> Bearing(rows[i], basis) <= position
  }

  lemma {:induction false} SourceAtMost(rows: seq<Row>, attributes: set<string>, basis: Basis, position: nat)
    requires BearingsUpTo(rows, basis, position)
    ensures SourcePosition(rows, attributes, basis) <= position
  {
    if rows != [] { SourceAtMost(rows[..|rows| - 1], attributes, basis, position); }
  }

  lemma {:induction false} SourceAtLeast(rows: seq<Row>, attributes: set<string>, basis: Basis, i: nat)
    requires i < |rows| && rows[i].attribute in attributes
    ensures Bearing(rows[i], basis) <= SourcePosition(rows, attributes, basis)
  {
    if i < |rows| - 1 { SourceAtLeast(rows[..|rows| - 1], attributes, basis, i); }
  }

  ghost predicate BearAlike(a: seq<Row>, b: seq<Row>, attributes: set<string>, forA: Basis, forB: Basis) {
    |a| == |b| && forall i :: 0 <= i < |a| ==>
      && (a[i].attribute in attributes <==> b[i].attribute in attributes)
      && (a[i].attribute in attributes ==> Bearing(a[i], forA) == Bearing(b[i], forB))
  }

  lemma {:induction false} BearAlikeSource(a: seq<Row>, b: seq<Row>, attributes: set<string>, forA: Basis, forB: Basis)
    requires BearAlike(a, b, attributes, forA, forB)
    ensures SourcePosition(a, attributes, forA) == SourcePosition(b, attributes, forB)
  {
    if a != [] { BearAlikeSource(a[..|a| - 1], b[..|b| - 1], attributes, forA, forB); }
  }

  lemma WriteMovesSource(rows: seq<Row>, write: Write, timestamp: Instant, position: nat, attributes: set<string>,
                         validAt: Instant)
    requires Paired(rows) && BearingsUpTo(rows, Latest(validAt), position)
    ensures var after := ApplyWrite(rows, write, timestamp, position);
            BearingsUpTo(after, Latest(validAt), position) &&
            SourcePosition(after, attributes, Latest(validAt)) ==
              if TouchesRow(rows, write, attributes) then position
                else SourcePosition(rows, attributes, Latest(validAt))
  {
    var after := ApplyWrite(rows, write, timestamp, position);
    SourceAtMost(rows, attributes, Latest(validAt), position);
    match write
    case Insert(input, id) =>
      assert after[..|rows|] == rows;
    case Retract(id) =>
      if TouchesRow(rows, write, attributes) {
        var i :| 0 <= i < |rows| && rows[i].id == id && rows[i].retractedAt.None? && rows[i].attribute in attributes;
        SourceAtMost(after, attributes, Latest(validAt), position);
        SourceAtLeast(after, attributes, Latest(validAt), i);
      } else {
        BearAlikeSource(after, rows, attributes, Latest(validAt), Latest(validAt));
      }
  }

  lemma {:induction false} WritesMoveSource(rows: seq<Row>, writes: seq<Write>, timestamp: Instant, position: nat,
                                            attributes: set<string>, validAt: Instant)
    requires Paired(rows) && BearingsUpTo(rows, Latest(validAt), position)
    ensures var after := ApplyWrites(rows, writes, timestamp, position);
            Paired(after) && BearingsUpTo(after, Latest(validAt), position) &&
            SourcePosition(after, attributes, Latest(validAt)) ==
              if Touches(rows, writes, timestamp, position, attributes) then position
              else SourcePosition(rows, attributes, Latest(validAt))
  {
    if writes != [] {
      var n := |writes| - 1;
      WritesMoveSource(rows, writes[..n], timestamp, position, attributes, validAt);
      WriteMovesSource(ApplyWrites(rows, writes[..n], timestamp, position), writes[n], timestamp, position, attributes,
                       validAt);
    }
  }

  lemma WellFormedBearings(s: State, validAt: Instant)
    requires WellFormed(s)
    ensures Paired(s.rows) && BearingsUpTo(s.rows, Latest(validAt), s.position)
  {
    WellFormedPaired(s);
    forall i | 0 <= i < |s.rows| ensures Bearing(s.rows[i], Latest(validAt)) <= s.position {
      assert RowFits(s.rows[i], s.position);
    }
  }

  lemma CommitMovesSource(earlier: seq<Commit>, c: Commit, attributes: set<string>, validAt: Instant)
    requires Possible(earlier)
    ensures SourcePosition(CommitTo(After(earlier), c).rows, attributes, Latest(validAt)) ==
              if Touches(After(earlier).rows, c.writes, c.timestamp, |earlier| + 1, attributes) then |earlier| + 1
              else SourcePosition(After(earlier).rows, attributes, Latest(validAt))
  {
    ReachableWellFormed(earlier);
    WellFormedBearings(After(earlier), validAt);
    WritesMoveSource(After(earlier).rows, c.writes, c.timestamp, |earlier| + 1, attributes, validAt);
  }

  /** The latest source position is the position of the last commit that asserted
      or retracted a fact of the attributes, and 0 when none did. */
  lemma {:induction false} SourceIsLastTouch(history: seq<Commit>, attributes: set<string>, validAt: Instant)
    requires Possible(history)
    ensures SourcePosition(After(history).rows, attributes, Latest(validAt)) == LastTouch(history, attributes)
  {
    if history != [] {
      var n := |history| - 1;
      PossiblePrefix(history, n);
      SourceIsLastTouch(history[..n], attributes, validAt);
      CommitMovesSource(history[..n], history[n], attributes, validAt);
    }
  }

  lemma LaterWriteBearsNot(rows: seq<Row>, write: Write, timestamp: Instant, position: nat, attributes: set<string>,
                           p: nat, validAt: Instant)
    requires Paired(rows) && p < position
    ensures Paired(ApplyWrite(rows, write, timestamp, position))
    ensures SourcePosition(ApplyWrite(rows, write, timestamp, position), attributes, AtPosition(p, validAt))
            == SourcePosition(rows, attributes, AtPosition(p, validAt))
  {
    LaterWriteUnseen(rows, write, timestamp, position, AtPosition(p, validAt));
    var after := ApplyWrite(rows, write, timestamp, position);
    match write
    case Insert(input, id) => assert after[..|rows|] == rows;
    case Retract(id) => BearAlikeSource(after, rows, attributes, AtPosition(p, validAt), AtPosition(p, validAt));
  }

  lemma {:induction false} LaterWritesBearNot(rows: seq<Row>, writes: seq<Write>, timestamp: Instant, position: nat,
                                              attributes: set<string>, p: nat, validAt: Instant)
    requires Paired(rows) && p < position
    ensures Paired(ApplyWrites(rows, writes, timestamp, position))
    ensures SourcePosition(ApplyWrites(rows, writes, timestamp, position), attributes, AtPosition(p, validAt))
            == SourcePosition(rows, attributes, AtPosition(p, validAt))
  {
    if writes != [] {
      var n := |writes| - 1;
      var before := ApplyWrites(rows, writes[..n], timestamp, position);
      LaterWritesBearNot(rows, writes[..n], timestamp, position, attributes, p, validAt);
      LaterWriteBearsNot(before, writes[n], timestamp, position, attributes, p, validAt);
      assert ApplyWrites(rows, writes, timestamp, position) == ApplyWrite(before, writes[n], timestamp, position);
    }
  }

  lemma OwnPositionSource(s: State, attributes: set<string>, validAt: Instant)
    requires WellFormed(s)
    ensures SourcePosition(s.rows, attributes, AtPosition(s.position, validAt))
            == SourcePosition(s.rows, attributes, Latest(validAt))
  {
    forall i | 0 <= i < |s.rows|
      ensures Bearing(s.rows[i], AtPosition(s.position, validAt)) == Bearing(s.rows[i], Latest(validAt))
    {
      assert RowFits(s.rows[i], s.position);
    }
    BearAlikeSource(s.rows, s.rows, attributes, AtPosition(s.position, validAt), Latest(validAt));
  }

  lemma LaterCommitBearsNot(earlier: seq<Commit>, c: Commit, attributes: set<string>, p: nat, validAt: Instant)
    requires Possible(earlier) && p <= |earlier|
    ensures SourcePosition(CommitTo(After(earlier), c).rows, attributes, AtPosition(p, validAt))
            == SourcePosition(After(earlier).rows, attributes, AtPosition(p, validAt))
  {
    ReachableWellFormed(earlier);
    WellFormedPaired(After(earlier));
    LaterWritesBearNot(After(earlier).rows, c.writes, c.timestamp, |earlier| + 1, attributes, p, validAt);
  }

  /** Asked at position p, the answer is what the latest answer was right after
      commit p. */
  lemma {:induction false} SourceTimeTravel(history: seq<Commit>, attributes: set<string>, p: nat, validAt: Instant)
    requires Possible(history) && p <= |history|
    ensures SourcePosition(After(history).rows, attributes, AtPosition(p, validAt))
            == SourcePosition(After(history[..p]).rows, attributes, Latest(validAt))
  {
    if p == |history| {
      assert history[..p] == history;
      ReachableWellFormed(history);
      OwnPositionSource(After(history), attributes, validAt);
    } else {
      var earlier := history[..|history| - 1];
      PossiblePrefix(history, |history| - 1);
      SourceTimeTravel(earlier, attributes, p, validAt);
      assert earlier[..p] == history[..p];
      LaterCommitBearsNot(earlier, history[|history| - 1], attributes, p, validAt);
    }
  }

  /** Hence it is the last touching commit no later than p. */
  lemma SourceAtPosition(history: seq<Commit>, attributes: set<string>, p: nat, validAt: Instant)
    requires Possible(history) && p <= |history|
    ensures SourcePosition(After(history).rows, attributes, AtPosition(p, validAt))
            == LastTouch(history[..p], attributes)
  {
    SourceTimeTravel(history, attributes, p, validAt);
    PossiblePrefix(history, p);
    SourceIsLastTouch(history[..p], attributes, validAt);
  }

  lemma BearingFromCut(recordedAt: Instant, validAt: Instant, q: nat, row: Row)
    requires row.recordedPosition <= q <==> row.recordedAt <= recordedAt
    requires row.retractedAt.Some? <==> row.retractedPosition.Some?
    requires row.retractedPosition.Some? ==> (row.retractedPosition.value <= q <==> row.retractedAt.value <= recordedAt)
    ensures Bearing(row, Basis(Some(recordedAt), None, validAt)) == Bearing(row, AtPosition(q, validAt))
  {
  }

  lemma InstantBearing(history: seq<Commit>, recordedAt: Instant, validAt: Instant, row: Row, q: nat)
    requires ClockMonotone(history) && Stamped(row, history) && q == CutPosition(history, recordedAt, |history|)
    ensures Bearing(row, Basis(Some(recordedAt), None, validAt)) == Bearing(row, AtPosition(q, validAt))
  {
    CutPositionIsLast(history, recordedAt, |history|, row.recordedPosition);
    if row.retractedPosition.Some? {
      CutPositionIsLast(history, recordedAt, |history|, row.retractedPosition.value);
    }
    BearingFromCut(recordedAt, validAt, q, row);
  }

  /** Asked at a recorded instant, it is the answer right after the last commit
      made by then, when the clock does not run backwards. */
  lemma SourceAtInstant(history: seq<Commit>, attributes: set<string>, recordedAt: Instant, validAt: Instant, q: nat)
    requires Possible(history) && ClockMonotone(history) && q == CutPosition(history, recordedAt, |history|)
    ensures SourcePosition(After(history).rows, attributes, Basis(Some(recordedAt), None, validAt))
            == LastTouch(history[..q], attributes)
  {
    var rows := After(history).rows;
    ReachableStamped(history);
    forall i | 0 <= i < |rows|
      ensures Bearing(rows[i], Basis(Some(recordedAt), None, validAt)) == Bearing(rows[i], AtPosition(q, validAt))
    {
      InstantBearing(history, recordedAt, validAt, rows[i], q);
    }
    BearAlikeSource(rows, rows, attributes, Basis(Some(recordedAt), None, validAt), AtPosition(q, validAt));
    SourceAtPosition(history, attributes, q, validAt);
  }

  // An unchanged source position means unchanged facts

  ghost predicate ReadAlike(a: seq<Row>, b: seq<Row>, attributes: set<string>, forA: Basis, forB: Basis) {
    |a| == |b| && forall i :: 0 <= i < |a| ==>
      && (a[i].attribute in attributes && Visible(a[i], forA) <==> b[i].attribute in attributes && Visible(b[i], forB))
      && FactOf(a[i]) == FactOf(b[i])
  }

  lemma {:induction false} ReadAlikeSame(a: seq<Row>, b: seq<Row>, attributes: set<string>, forA: Basis, forB: Basis)
    requires ReadAlike(a, b, attributes, forA, forB)
    ensures ReadOf(a, attributes, forA) == ReadOf(b, attributes, forB)
  {
    if a != [] { ReadAlikeSame(a[..|a| - 1], b[..|b| - 1], attributes, forA, forB); }
  }

  lemma {:induction false} UntouchedReadsSame(rows: seq<Row>, writes: seq<Write>, timestamp: Instant, position: nat,
                                              attributes: set<string>, validAt: Instant)
    requires !Touches(rows, writes, timestamp, position, attributes)
    ensures ReadOf(ApplyWrites(rows, writes, timestamp, position), attributes, Latest(validAt))
            == ReadOf(rows, attributes, Latest(validAt))
  {
    if writes != [] {
      var n := |writes| - 1;
      var before := ApplyWrites(rows, writes[..n], timestamp, position);
      UntouchedReadsSame(rows, writes[..n], timestamp, position, attributes, validAt);
      var after := ApplyWrite(before, writes[n], timestamp, position);
      match writes[n]
      case Insert(input, id) => assert after[..|before|] == before;
      case Retract(id) => ReadAlikeSame(after, before, attributes, Latest(validAt), Latest(validAt));
    }
  }

  lemma TouchFixesLast(history: seq<Commit>, attributes: set<string>)
    requires history != [] && LastTouch(history, attributes) < |history|
    ensures var earlier := history[..|history| - 1];
            var c := history[|history| - 1];
            && !Touches(After(earlier).rows, c.writes, c.timestamp, |history|, attributes)
            && LastTouch(history, attributes) == LastTouch(earlier, attributes)
  {
  }

  lemma LastCommitUntouched(history: seq<Commit>, attributes: set<string>, validAt: Instant)
    requires Possible(history) && history != [] && LastTouch(history, attributes) < |history|
    ensures ReadOf(After(history[..|history| - 1]).rows, attributes, Latest(validAt))
            == ReadOf(After(history).rows, attributes, Latest(validAt))
  {
    var n := |history| - 1;
    TouchFixesLast(history, attributes);
    PossiblePrefix(history, n);
    ReachableWellFormed(history[..n]);
    UntouchedReadsSame(After(history[..n]).rows, history[n].writes, history[n].timestamp, n + 1, attributes, validAt);
  }

  lemma {:induction false} NoTouchNoChange(history: seq<Commit>, attributes: set<string>, i: nat, j: nat,
                                           validAt: Instant)
    requires Possible(history) && i <= j <= |history|
    requires LastTouch(history[..j], attributes) <= i
    ensures ReadOf(After(history[..i]).rows, attributes, Latest(validAt))
            == ReadOf(After(history[..j]).rows, attributes, Latest(validAt))
    decreases j
  {
    if i < j {
      TouchFixesLast(history[..j], attributes);
      assert history[..j][..j - 1] == history[..j - 1];
      NoTouchNoChange(history, attributes, i, j - 1, validAt);
      PossiblePrefix(history, j);
      LastCommitUntouched(history[..j], attributes, validAt);
    }
  }

  /** Between two commits with the same source position, the live facts of the
      attributes are the same at every valid-time instant. */
  lemma UnchangedSourceUnchangedFacts(history: seq<Commit>, attributes: set<string>, i: nat, j: nat, validAt: Instant)
    requires Possible(history) && i <= j <= |history|
    requires SourcePosition(After(history[..i]).rows, attributes, Latest(validAt))
             == SourcePosition(After(history[..j]).rows, attributes, Latest(validAt))
    ensures ReadOf(After(history[..i]).rows, attributes, Latest(validAt))
            == ReadOf(After(history[..j]).rows, attributes, Latest(validAt))
  {
    PossiblePrefix(history, i);
    PossiblePrefix(history, j);
    SourceIsLastTouch(history[..i], attributes, validAt);
    SourceIsLastTouch(history[..j], attributes, validAt);
    NoTouchNoChange(history, attributes, i, j, validAt);
  }

  /** A basis with both cuts is answered by its position alone. */
  lemma {:induction false} BothCutsByPosition(rows: seq<Row>, attributes: set<string>, at: Instant, p: nat,
                                              validAt: Instant)
    ensures SourcePosition(rows, attributes, Basis(Some(at), Some(p), validAt))
            == SourcePosition(rows, attributes, AtPosition(p, validAt))
    ensures NextBoundary(rows, attributes, Basis(Some(at), Some(p), validAt))
            == NextBoundary(rows, attributes, AtPosition(p, validAt))
  {
    if rows != [] {
      BothCutsByPosition(rows[..|rows| - 1], attributes, at, p, validAt);
    }
  }

  // The next boundary

  lemma {:induction false} BoundaryIsLeast(rows: seq<Row>, attributes: set<string>, basis: Basis)
    ensures var next := NextBoundary(rows, attributes, basis);
      && (forall i | 0 <= i < |rows| && Watched(rows[i], attributes, basis) && NextEdge(rows[i], basis.validAt).Some? ::
            next.Some? && next.value <= NextEdge(rows[i], basis.validAt).value)
      && (next.Some? ==>
          exists i :: 0 <= i < |rows| && Watched(rows[i], attributes, basis)
              && NextEdge(rows[i], basis.validAt) == next)
  {
    if rows != [] {
      var n := |rows| - 1;
      BoundaryIsLeast(rows[..n], attributes, basis);
      var earlier := NextBoundary(rows[..n], attributes, basis);
      if earlier.Some? {
        var i :| 0 <= i < n && Watched(rows[..n][i], attributes, basis)
            && NextEdge(rows[..n][i], basis.validAt) == earlier;
        assert rows[..n][i] == rows[i];
      }
      assert forall i | 0 <= i < n :: rows[..n][i] == rows[i];
    }
  }

  ghost predicate AtMostOneCut(basis: Basis) {
    basis.recordedAt.None? || basis.recordedPosition.None?
  }

  /** The facts stay what they are until the boundary, and for good without one. */
  lemma ConstantUntilBoundary(rows: seq<Row>, attributes: set<string>, basis: Basis, later: Instant)
    requires AtMostOneCut(basis) && basis.validAt <= later
    requires var next := NextBoundary(rows, attributes, basis); next.Some? ==> later < next.value
    ensures ReadOf(rows, attributes, basis.(validAt := later)) == ReadOf(rows, attributes, basis)
  {
    BoundaryIsLeast(rows, attributes, basis);
    ReadAlikeSame(rows, rows, attributes, basis.(validAt := later), basis);
  }

  /** The row is visible on one side of its next edge and not on the other. */
  predicate Turns(row: Row, at: Instant) {
    row.validFrom <= at || row.validTo.None? || row.validTo.value > row.validFrom
  }

  lemma {:induction false} ReadOfMembers(rows: seq<Row>, attributes: set<string>, basis: Basis, f: Triple)
    ensures f in ReadOf(rows, attributes, basis) <==>
      exists i :: 0 <= i < |rows| && rows[i].attribute in attributes && Visible(rows[i], basis) && FactOf(rows[i]) == f
  {
    if rows != [] {
      var n := |rows| - 1;
      ReadOfMembers(rows[..n], attributes, basis, f);
      assert forall i | 0 <= i < n :: rows[..n][i] == rows[i];
    }
  }

  lemma TurningRowChangesRead(rows: seq<Row>, attributes: set<string>, a: Basis, b: Basis, i: nat)
    requires DistinctRows(rows) && i < |rows| && rows[i].attribute in attributes
    requires Visible(rows[i], a) && !Visible(rows[i], b)
    ensures ReadOf(rows, attributes, a) != ReadOf(rows, attributes, b)
  {
    var f := FactOf(rows[i]);
    ReadOfMembers(rows, attributes, a, f);
    ReadOfMembers(rows, attributes, b, f);
    assert forall k | 0 <= k < |rows| && FactOf(rows[k]) == f :: rows[k].id == f.id == rows[i].id;
    assert f !in ReadOf(rows, attributes, b);
  }

  /** At the boundary the facts differ from before just when some row whose edge
      it is does not have an empty interval still to come. */
  lemma DiffersAtBoundary(rows: seq<Row>, attributes: set<string>, basis: Basis, next: Instant)
    requires AtMostOneCut(basis) && DistinctRows(rows)
    requires NextBoundary(rows, attributes, basis) == Some(next)
    ensures ReadOf(rows, attributes, basis.(validAt := next)) != ReadOf(rows, attributes, basis) <==>
      exists i :: 0 <= i < |rows| && Watched(rows[i], attributes, basis)
                  && NextEdge(rows[i], basis.validAt) == Some(next) && Turns(rows[i], basis.validAt)
  {
    BoundaryIsLeast(rows, attributes, basis);
    var later := basis.(validAt := next);
    if i :| 0 <= i < |rows| && Watched(rows[i], attributes, basis)
            && NextEdge(rows[i], basis.validAt) == Some(next) && Turns(rows[i], basis.validAt) {
      if rows[i].validFrom > basis.validAt {
        TurningRowChangesRead(rows, attributes, later, basis, i);
      } else {
        TurningRowChangesRead(rows, attributes, basis, later, i);
      }
    } else {
      ReadAlikeSame(rows, rows, attributes, later, basis);
    }
  }

  ghost predicate NonEmptyIntervals(rows: seq<Row>) {
    forall i :: 0 <= i < |rows| ==> rows[i].validTo.None? || rows[i].validFrom < rows[i].validTo.value
  }

  /** With non-empty valid intervals the facts always differ at the boundary. */
  lemma NonEmptyDiffersAtBoundary(rows: seq<Row>, attributes: set<string>, basis: Basis, next: Instant)
    requires AtMostOneCut(basis) && DistinctRows(rows) && NonEmptyIntervals(rows)
    requires NextBoundary(rows, attributes, basis) == Some(next)
    ensures ReadOf(rows, attributes, basis.(validAt := next)) != ReadOf(rows, attributes, basis)
  {
    BoundaryIsLeast(rows, attributes, basis);
    DiffersAtBoundary(rows, attributes, basis, next);
  }

  /** A fact with an empty interval is announced though it never shows. */
  lemma EmptyIntervalFalseAlarm()
    ensures var row := NewRow(Input("e", "a", BooleanValue(true), None, Some(5), Some(5)), "1", 0, 1);
            && NextBoundary([row], {"a"}, Latest(0)) == Some(5)
            && ReadOf([row], {"a"}, Latest(5)) == ReadOf([row], {"a"}, Latest(0)) == []
  {
    var row := NewRow(Input("e", "a", BooleanValue(true), None, Some(5), Some(5)), "1", 0, 1);
    assert [row][..0] == [];
    assert NextBoundary([], {"a"}, Latest(0)) == None;
    assert Watched(row, {"a"}, Latest(0));
  }
}
