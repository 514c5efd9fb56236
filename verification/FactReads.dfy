/** What a read shows, in terms of the columns of the rows and of what was asserted. */
module FactReads {
  import opened Facts
  import opened FactTable

  /** The fact has the row's columns. */
  predicate HasColumns(f: Triple, row: Row) {
    && f.id == row.id && f.entityId == row.entityId && f.attribute == row.attribute && f.value == row.value
    && f.entityType == row.entityType && f.validFrom == row.validFrom && f.validTo == row.validTo
  }

  function VisibleAtPlace(rows: seq<Row>, basis: Basis): nat -> bool {
    (i: nat) => i < |rows| && Visible(rows[i], basis)
  }

  /** The facts are those of the visible rows among the first `n`, in table order. */
  ghost predicate ShowsPlaces(facts: seq<Triple>, rows: seq<Row>, basis: Basis, n: nat, places: seq<nat>) {
    && PlacesIn(places, n, VisibleAtPlace(rows, basis)) && |facts| == |places|
    && (forall k :: 0 <= k < |places| ==> places[k] < |rows| && HasColumns(facts[k], rows[places[k]]))
  }

  lemma ReadNext(facts: seq<Triple>, rows: seq<Row>, basis: Basis, n: nat, places: seq<nat>)
    requires n < |rows| && ShowsPlaces(facts, rows, basis, n, places)
    ensures if Visible(rows[n], basis) then ShowsPlaces(facts + [FactOf(rows[n])], rows, basis, n + 1, places + [n])
            else ShowsPlaces(facts, rows, basis, n + 1, places)
  {
    NextPlaces(places, n, VisibleAtPlace(rows, basis));
  }

  /** A read shows each visible row once, in table order, with its columns. */
  lemma {:induction false} ReadShows(rows: seq<Row>, basis: Basis, n: nat) returns (places: seq<nat>)
    requires n <= |rows|
    ensures ShowsPlaces(Read(rows[..n], basis), rows, basis, n, places)
  {
    places := [];
    if n > 0 {
      var earlier := ReadShows(rows, basis, n - 1);
      ReadNext(Read(rows[..n - 1], basis), rows, basis, n - 1, earlier);
      assert rows[..n][..n - 1] == rows[..n - 1];
      places := if Visible(rows[n - 1], basis) then earlier + [n - 1] else earlier;
    }
  }

  lemma ReadHas(rows: seq<Row>, basis: Basis, f: Triple)
    ensures f in Read(rows, basis) <==> exists i :: 0 <= i < |rows| && Visible(rows[i], basis) && HasColumns(f, rows[i])
  {
    assert rows[..|rows|] == rows;
    var places := ReadShows(rows, basis, |rows|);
    var facts := Read(rows, basis);
    if f in facts {
      var k :| 0 <= k < |facts| && facts[k] == f;
      assert places[k] in places;
    }
    if i :| 0 <= i < |rows| && Visible(rows[i], basis) && HasColumns(f, rows[i]) {
      assert VisibleAtPlace(rows, basis)(i) && i in places;
      var k :| 0 <= k < |places| && places[k] == i;
      assert facts[k] == f;
    }
  }

  // From the assertion to the read

  /** The row holds what was asserted, at the commit's instant and position. */
  predicate Holds(row: Row, input: Input, id: string, timestamp: Instant, position: nat) {
    && row.id == id && row.entityId == input.entityId && row.attribute == input.attribute && row.value == input.value
    && row.entityType == input.entityType && row.validTo == input.validTo
    && row.validFrom == (if input.validFrom.Some? then input.validFrom.value else timestamp)
    && row.recordedAt == timestamp && row.recordedPosition == position
  }

  /** Row `r` stays, but for its retraction. */
  ghost predicate Stays(before: seq<Row>, after: seq<Row>, r: nat, writes: seq<Write>) {
    && r < |before| && r < |after|
    && after[r].(retractedAt := None, retractedPosition := None)
        == before[r].(retractedAt := None, retractedPosition := None)
    && (after[r].retractedAt.Some? <==> before[r].retractedAt.Some? || Write.Retract(before[r].id) in writes)
  }

  lemma {:induction false} RowStays(rows: seq<Row>, writes: seq<Write>, timestamp: Instant, position: nat, r: nat)
    requires r < |rows|
    ensures Stays(rows, ApplyWrites(rows, writes, timestamp, position), r, writes)
  {
    if writes != [] {
      var n := |writes| - 1;
      RowStays(rows, writes[..n], timestamp, position, r);
      assert writes == writes[..n] + [writes[n]];
    }
  }

  /** A write after the `k`-th of commit `i` retracts the id. */
  ghost predicate RetractsAt(history: seq<Commit>, i: nat, k: nat, id: string, j: nat, l: nat) {
    && j < |history| && l < |history[j].writes| && (j > i || (j == i && l > k))
    && history[j].writes[l] == Write.Retract(id)
  }

  ghost predicate RetractedAfter(history: seq<Commit>, i: nat, k: nat, id: string) {
    exists j, l :: RetractsAt(history, i, k, id, j, l)
  }

  ghost predicate Asserts(history: seq<Commit>, i: nat, k: nat, input: Input, id: string) {
    i < |history| && k < |history[i].writes| && history[i].writes[k] == Write.Insert(input, id)
  }

  /** Row `r` holds the assertion, retracted or not. */
  ghost predicate HoldsAt(rows: seq<Row>, r: nat, input: Input, id: string, timestamp: Instant, position: nat,
                          retracted: bool) {
    r < |rows| && Holds(rows[r], input, id, timestamp, position) && (rows[r].retractedAt.Some? <==> retracted)
  }

  lemma StaysHolding(rows: seq<Row>, writes: seq<Write>, at: Instant, to: nat, r: nat, input: Input, id: string,
                     timestamp: Instant, position: nat, retracted: bool)
    requires HoldsAt(rows, r, input, id, timestamp, position, retracted)
    ensures HoldsAt(ApplyWrites(rows, writes, at, to), r, input, id, timestamp, position,
                    retracted || Write.Retract(id) in writes)
  {
    RowStays(rows, writes, at, to, r);
  }

  lemma NewRowHolds(rows: seq<Row>, writes: seq<Write>, input: Input, id: string, timestamp: Instant, position: nat)
    requires writes != [] && writes[|writes| - 1] == Write.Insert(input, id)
    ensures var after := ApplyWrites(rows, writes, timestamp, position);
      after != [] && HoldsAt(after, |after| - 1, input, id, timestamp, position, false)
  {
  }

  lemma RetractedInCommit(history: seq<Commit>, k: nat, id: string)
    requires history != [] && k < |history[|history| - 1].writes|
    ensures RetractedAfter(history, |history| - 1, k, id) <==>
            Write.Retract(id) in history[|history| - 1].writes[k + 1..]
  {
    var i := |history| - 1;
    var later := history[i].writes[k + 1..];
    if Write.Retract(id) in later {
      var l: nat :| l < |later| && later[l] == Write.Retract(id);
      assert RetractsAt(history, i, k, id, i, k + 1 + l);
    }
    if j: nat, l: nat :| RetractsAt(history, i, k, id, j, l) {
      assert later[l - k - 1] == Write.Retract(id);
    }
  }

  lemma RetractedNext(history: seq<Commit>, i: nat, k: nat, id: string)
    requires i < |history| - 1
    ensures RetractedAfter(history, i, k, id) <==>
            RetractedAfter(history[..|history| - 1], i, k, id) || Write.Retract(id) in history[|history| - 1].writes
  {
    var n := |history| - 1;
    var earlier, writes := history[..n], history[n].writes;
    if j: nat, l: nat :| RetractsAt(history, i, k, id, j, l) {
      if j < n { assert RetractsAt(earlier, i, k, id, j, l); }
    }
    if j: nat, l: nat :| RetractsAt(earlier, i, k, id, j, l) {
      assert RetractsAt(history, i, k, id, j, l);
    }
    if Write.Retract(id) in writes {
      var l: nat :| l < |writes| && writes[l] == Write.Retract(id);
      assert RetractsAt(history, i, k, id, n, l);
    }
  }

  lemma InCommit(rows: seq<Row>, c: Commit, position: nat, k: nat, input: Input, id: string) returns (r: nat)
    requires k < |c.writes| && c.writes[k] == Write.Insert(input, id)
    ensures HoldsAt(ApplyWrites(rows, c.writes, c.timestamp, position), r, input, id, c.timestamp, position,
                    Write.Retract(id) in c.writes[k + 1..])
  {
    var first, later := c.writes[..k + 1], c.writes[k + 1..];
    assert c.writes == first + later;
    ApplyInTwo(rows, first, later, c.timestamp, position);
    NewRowHolds(rows, first, input, id, c.timestamp, position);
    var middle := ApplyWrites(rows, first, c.timestamp, position);
    r := |middle| - 1;
    StaysHolding(middle, later, c.timestamp, position, r, input, id, c.timestamp, position, false);
  }

  lemma {:induction false} AssertionHasRow(history: seq<Commit>, i: nat, k: nat, input: Input, id: string)
    returns (r: nat)
    requires Possible(history) && Asserts(history, i, k, input, id)
    ensures HoldsAt(After(history).rows, r, input, id, history[i].timestamp, i + 1, RetractedAfter(history, i, k, id))
  {
    var n := |history| - 1;
    var before, c := After(history[..n]), history[n];
    PossiblePrefix(history, n);
    ReachableWellFormed(history[..n]);
    if i == n {
      r := InCommit(before.rows, c, i + 1, k, input, id);
      RetractedInCommit(history, k, id);
    } else {
      r := AssertionHasRow(history[..n], i, k, input, id);
      RetractedNext(history, i, k, id);
      StaysHolding(before.rows, c.writes, c.timestamp, n + 1, r, input, id, history[i].timestamp, i + 1,
                   RetractedAfter(history[..n], i, k, id));
    }
  }

  /** The fact says what was asserted. */
  predicate Says(f: Triple, input: Input, id: string, timestamp: Instant) {
    && f.id == id && f.entityId == input.entityId && f.attribute == input.attribute && f.value == input.value
    && f.entityType == input.entityType && f.validTo == input.validTo
    && f.validFrom == (if input.validFrom.Some? then input.validFrom.value else timestamp)
  }

  /** The asserted interval holds the instant. */
  predicate Covers(input: Input, timestamp: Instant, at: Instant) {
    && (if input.validFrom.Some? then input.validFrom.value else timestamp) <= at
    && (input.validTo.Some? ==> at < input.validTo.value)
  }

  /** What was asserted is read back as it was, exactly while it is not retracted and
      its valid interval holds the instant, and nothing else is read under its id. */
  lemma AssertedIsRead(history: seq<Commit>, i: nat, k: nat, input: Input, id: string, validAt: Instant)
    requires Possible(history) && Asserts(history, i, k, input, id)
    ensures var facts := Read(After(history).rows, Latest(validAt));
      && ((exists f :: f in facts && f.id == id) <==>
          !RetractedAfter(history, i, k, id) && Covers(input, history[i].timestamp, validAt))
      && forall f | f in facts && f.id == id :: Says(f, input, id, history[i].timestamp)
  {
    var rows, basis := After(history).rows, Latest(validAt);
    var r := AssertionHasRow(history, i, k, input, id);
    ReachableWellFormed(history);
    assert RowFits(rows[r], After(history).position);
    var facts := Read(rows, basis);
    forall f | f in facts && f.id == id ensures Visible(rows[r], basis) && HasColumns(f, rows[r]) {
      ReadHas(rows, basis, f);
      var j :| 0 <= j < |rows| && Visible(rows[j], basis) && HasColumns(f, rows[j]);
      assert j == r;
    }
    if Visible(rows[r], basis) {
      var row := rows[r];
      var f := Triple(row.id, row.entityId, row.attribute, row.value, row.entityType, row.validFrom, row.validTo);
      ReadHas(rows, basis, f);
      assert f in facts && f.id == id;
    }
  }

  /** The same of a read at position p, for what was asserted and retracted by then. */
  lemma AssertedIsReadAt(history: seq<Commit>, p: nat, i: nat, k: nat, input: Input, id: string, validAt: Instant)
    requires Possible(history) && i < p <= |history| && Asserts(history, i, k, input, id)
    ensures var facts := Read(After(history).rows, AtPosition(p, validAt));
      && ((exists f :: f in facts && f.id == id) <==>
          !RetractedAfter(history[..p], i, k, id) && Covers(input, history[i].timestamp, validAt))
      && forall f | f in facts && f.id == id :: Says(f, input, id, history[i].timestamp)
  {
    TimeTravel(history, p, validAt);
    PossiblePrefix(history, p);
    AssertedIsRead(history[..p], i, k, input, id, validAt);
  }
}
