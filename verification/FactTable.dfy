/** The bitemporal fact table: rows are appended and stamped as retracted, each
    commit takes the next position, and reads are cut by recorded and valid time. */
module FactTable {
  import opened Facts

  datatype Row = Row(
    id: string,
    entityId: string,
    attribute: string,
    value: Value,
    entityType: Option<string>,
    validFrom: Instant,
    validTo: Option<Instant>,
    recordedAt: Instant,
    recordedPosition: nat,
    retractedAt: Option<Instant>,
    retractedPosition: Option<nat>)

  datatype Input = Input(
    entityId: string,
    attribute: string,
    value: Value,
    entityType: Option<string>,
    validFrom: Option<Instant>,
    validTo: Option<Instant>)

  /** The cuts a read can carry. */
  datatype Basis = Basis(recordedAt: Option<Instant>, recordedPosition: Option<nat>, validAt: Instant)

  function FactOf(row: Row): Triple {
    Triple(row.id, row.entityId, row.attribute, row.value, row.entityType, row.validFrom, row.validTo)
  }

  // Which rows a basis shows

  predicate RecordedBy(row: Row, recordedAt: Option<Instant>, recordedPosition: Option<nat>) {
    && (recordedPosition.Some? ==> row.recordedPosition <= recordedPosition.value)
    && (recordedAt.Some? ==> row.recordedAt <= recordedAt.value)
  }

  /** The retraction, if any, is inside every cut the read carries. */
  predicate RetractedBy(row: Row, recordedAt: Option<Instant>, recordedPosition: Option<nat>) {
    && row.retractedAt.Some? && row.retractedPosition.Some?
    && (recordedPosition.Some? ==> row.retractedPosition.value <= recordedPosition.value)
    && (recordedAt.Some? ==> row.retractedAt.value <= recordedAt.value)
  }

  predicate Live(row: Row, basis: Basis) {
    && RecordedBy(row, basis.recordedAt, basis.recordedPosition)
    && !RetractedBy(row, basis.recordedAt, basis.recordedPosition)
  }

  predicate Visible(row: Row, basis: Basis) {
    Live(row, basis) && ValidAt(row.validFrom, row.validTo, basis.validAt)
  }

  function Latest(validAt: Instant): Basis {
    Basis(None, None, validAt)
  }

  function AtPosition(position: nat, validAt: Instant): Basis {
    Basis(None, Some(position), validAt)
  }

  /** The visible facts, in table order. */
  function Read(rows: seq<Row>, basis: Basis): seq<Triple> {
    if rows == [] then []
    else
      var n := |rows| - 1;
      Read(rows[..n], basis) + if Visible(rows[n], basis) then [FactOf(rows[n])] else []
  }

  // Writes

  datatype Write = Insert(input: Input, id: string) | Retract(id: string)

  datatype Commit = Commit(writes: seq<Write>, timestamp: Instant)

  datatype State = State(rows: seq<Row>, position: nat)

  function NewRow(input: Input, id: string, timestamp: Instant, position: nat): Row {
    Row(id, input.entityId, input.attribute, input.value, input.entityType,
        if input.validFrom.Some? then input.validFrom.value else timestamp, input.validTo,
        timestamp, position, None, None)
  }

  function Stamp(row: Row, id: string, timestamp: Instant, position: nat): Row {
    if row.id == id && row.retractedAt.None?
    then row.(retractedAt := Some(timestamp), retractedPosition := Some(position))
    else row
  }

  function StampAll(rows: seq<Row>, id: string, timestamp: Instant, position: nat): (r: seq<Row>)
    ensures |r| == |rows|
    ensures forall i :: 0 <= i < |rows| ==> r[i] == Stamp(rows[i], id, timestamp, position)
  {
    if rows == [] then []
    else
      var n := |rows| - 1;
      StampAll(rows[..n], id, timestamp, position) + [Stamp(rows[n], id, timestamp, position)]
  }

  function ApplyWrite(rows: seq<Row>, write: Write, timestamp: Instant, position: nat): seq<Row> {
    match write
    case Insert(input, id) => rows + [NewRow(input, id, timestamp, position)]
    case Retract(id) => StampAll(rows, id, timestamp, position)
  }

  function ApplyWrites(rows: seq<Row>, writes: seq<Write>, timestamp: Instant, position: nat): seq<Row> {
    if writes == [] then rows
    else
      var n := |writes| - 1;
      ApplyWrite(ApplyWrites(rows, writes[..n], timestamp, position), writes[n], timestamp, position)
  }

  const BATCH_SIZE: nat := 500

  function Inserts(inputs: seq<Input>, ids: seq<string>): (writes: seq<Write>)
    requires |ids| == |inputs|
    ensures |writes| == |inputs|
    ensures forall w | w in writes :: w.Insert?
  {
    seq(|inputs|, i requires 0 <= i < |inputs| => Insert(inputs[i], ids[i]))
  }

  predicate HasRow(rows: seq<Row>, id: string) {
    exists i :: 0 <= i < |rows| && rows[i].id == id
  }

  /** The primary key accepts every insertion of the list. */
  ghost predicate Fits(rows: seq<Row>, writes: seq<Write>) {
    && (forall k :: 0 <= k < |writes| && writes[k].Insert? ==> !HasRow(rows, writes[k].id))
    && (forall j, k :: 0 <= j < k < |writes| && writes[j].Insert? && writes[k].Insert? ==> writes[j].id != writes[k].id)
  }

  function CommitTo(s: State, c: Commit): State {
    State(ApplyWrites(s.rows, c.writes, c.timestamp, s.position + 1), s.position + 1)
  }

  function After(history: seq<Commit>): State {
    if history == [] then State([], 0)
    else CommitTo(After(history[..|history| - 1]), history[|history| - 1])
  }

  ghost predicate FitsAt(history: seq<Commit>, i: nat)
    requires i < |history|
  {
    Fits(After(history[..i]).rows, history[i].writes)
  }

  ghost predicate Possible(history: seq<Commit>) {
    forall i :: 0 <= i < |history| ==> FitsAt(history, i)
  }

  ghost predicate DistinctRows(rows: seq<Row>) {
    forall i, j :: 0 <= i < j < |rows| ==> rows[i].id != rows[j].id
  }

  /** What every reachable table satisfies. */
  ghost predicate WellFormed(s: State) {
    && (forall i :: 0 <= i < |s.rows| ==> RowFits(s.rows[i], s.position))
    && DistinctRows(s.rows)
  }

  ghost predicate RowFits(row: Row, position: nat) {
    && 1 <= row.recordedPosition <= position
    && (row.retractedAt.Some? <==> row.retractedPosition.Some?)
    && (row.retractedPosition.Some? ==> row.recordedPosition <= row.retractedPosition.value <= position)
  }

  class Table {
    var rows: seq<Row>
    var position: nat

    constructor ()
      ensures rows == [] && position == 0
    {
      rows, position := [], 0;
    }

    ghost function Contents(): State
      reads this
    {
      State(rows, position)
    }

    method NextCommitPosition() returns (next: nat)
      modifies this`position
      ensures position == old(position) + 1 && next == position
    {
      position := position + 1;
      next := position;
    }

    /** Fails, changing nothing, when the primary key is taken. */
    method Insert(input: Input, timestamp: Instant, id: string, at: nat) returns (ok: bool)
      modifies this`rows
      ensures ok <==> !old(HasRow(rows, id))
      ensures rows == if ok then ApplyWrite(old(rows), Write.Insert(input, id), timestamp, at) else old(rows)
    {
      ok := !HasRow(rows, id);
      if ok { rows := rows + [NewRow(input, id, timestamp, at)]; }
    }

    /** The rows the update matched; at most the live row of that id. */
    method Retract(id: string, timestamp: Instant, at: nat) returns (ok: bool)
      modifies this`rows
      ensures rows == ApplyWrite(old(rows), Write.Retract(id), timestamp, at)
      ensures ok <==> exists i :: 0 <= i < |old(rows)| && old(rows)[i].id == id && old(rows)[i].retractedAt.None?
    {
      ghost var before := rows;
      ok := false;
      for i := 0 to |rows|
        invariant |rows| == |before|
        invariant forall k :: 0 <= k < i ==> rows[k] == Stamp(before[k], id, timestamp, at)
        invariant forall k :: i <= k < |rows| ==> rows[k] == before[k]
        invariant ok <==> exists k :: 0 <= k < i && before[k].id == id && before[k].retractedAt.None?
      {
        if rows[i].id == id && rows[i].retractedAt.None? {
          rows := rows[i := rows[i].(retractedAt := Some(timestamp), retractedPosition := Some(at))];
          ok := true;
        }
      }
    }

    /** Inserts in multi-row statements of at most 500 rows, inside one transaction. */
    method BatchInsert(inputs: seq<Input>, timestamp: Instant, ids: seq<string>, at: nat) returns (ok: bool)
      modifies this`rows
      ensures ok <==> inputs == [] || (|ids| == |inputs| && Fits(old(rows), Inserts(inputs, ids)))
      ensures rows
              == if ok && inputs != [] then ApplyWrites(old(rows), Inserts(inputs, ids), timestamp, at) else old(rows)
    {
      if inputs == [] { return true; }
      if |ids| != |inputs| { return false; }
      var rows0 := rows;
      var writes := Inserts(inputs, ids);
      var i := 0;
      while i < |writes|
        invariant 0 <= i <= |writes|
        invariant rows == ApplyWrites(rows0, writes[..i], timestamp, at)
        invariant Fits(rows0, writes[..i])
      {
        var next := if i + BATCH_SIZE < |writes| then i + BATCH_SIZE else |writes|;
        var inserted := InsertRows(writes[i..next], timestamp, at);
        FitsInChunks(rows0, writes, i, next, timestamp, at);
        ApplyInChunks(rows0, writes, i, next, timestamp, at);
        if !inserted {
          rows := rows0;
          return false;
        }
        i := next;
      }
      assert writes[..|writes|] == writes;
      ok := true;
    }

    /** A multi-row insertion takes all its rows or none. */
    method InsertRows(writes: seq<Write>, timestamp: Instant, at: nat) returns (ok: bool)
      requires |writes| <= 500 && forall w | w in writes :: w.Insert?
      modifies this`rows
      ensures ok <==> Fits(old(rows), writes)
      ensures rows == if ok then ApplyWrites(old(rows), writes, timestamp, at) else old(rows)
    {
      var rows0 := rows;
      for k := 0 to |writes|
        invariant rows == ApplyWrites(rows0, writes[..k], timestamp, at)
        invariant Fits(rows0, writes[..k])
      {
        assert writes[..k + 1][..k] == writes[..k];
        FitsOneMore(rows0, writes, k, timestamp, at);
        assert writes[k] in writes;
        var inserted := Insert(writes[k].input, timestamp, writes[k].id, at);
        if !inserted {
          rows := rows0;
          return false;
        }
      }
      assert writes[..|writes|] == writes;
      ok := true;
    }

    /** One transaction: take a position, then write with it; a failed insertion
        rolls the whole transaction back, the position included. */
    method Transact(writes: seq<Write>, timestamp: Instant) returns (ok: bool)
      modifies this
      ensures ok <==> Fits(old(rows), writes)
      ensures Contents() == if ok then CommitTo(old(Contents()), Commit(writes, timestamp)) else old(Contents())
    {
      var rows0, position0 := rows, position;
      var at := NextCommitPosition();
      for k := 0 to |writes|
        invariant at == position == position0 + 1
        invariant rows == ApplyWrites(rows0, writes[..k], timestamp, at)
        invariant Fits(rows0, writes[..k])
      {
        assert writes[..k + 1][..k] == writes[..k];
        FitsOneMore(rows0, writes, k, timestamp, at);
        match writes[k] {
          case Insert(input, id) =>
            var inserted := Insert(input, timestamp, id, at);
            if !inserted {
              rows, position := rows0, position0;
              return false;
            }
          case Retract(id) =>
            var _ := Retract(id, timestamp, at);
        }
      }
      assert writes[..|writes|] == writes;
      ok := true;
    }
  }

  /** The ids of a table are those it had and those inserted. */
  lemma {:induction false} IdsAfterWrites(rows: seq<Row>, writes: seq<Write>, timestamp: Instant, position: nat)
    ensures forall id :: HasRow(ApplyWrites(rows, writes, timestamp, position), id) <==>
              (HasRow(rows, id) || exists k :: 0 <= k < |writes| && writes[k].Insert? && writes[k].id == id)
  {
    if writes != [] {
      var n := |writes| - 1;
      var before := ApplyWrites(rows, writes[..n], timestamp, position);
      IdsAfterWrites(rows, writes[..n], timestamp, position);
      forall id ensures HasRow(ApplyWrites(rows, writes, timestamp, position), id) <==>
        (HasRow(rows, id) || exists k :: 0 <= k < |writes| && writes[k].Insert? && writes[k].id == id)
      {
        IdsAfterWrite(before, writes[n], timestamp, position, id);
        assert forall k | 0 <= k < n :: writes[..n][k] == writes[k];
      }
    }
  }

  lemma IdsAfterWrite(rows: seq<Row>, write: Write, timestamp: Instant, position: nat, id: string)
    ensures HasRow(ApplyWrite(rows, write, timestamp, position), id) <==>
            (HasRow(rows, id) || (write.Insert? && write.id == id))
  {
    var after := ApplyWrite(rows, write, timestamp, position);
    if HasRow(rows, id) {
      var i :| 0 <= i < |rows| && rows[i].id == id;
      assert after[i].id == id;
    }
    if write.Insert? { assert after[|rows|].id == write.id; }
    if HasRow(after, id) {
      var i :| 0 <= i < |after| && after[i].id == id;
      if i < |rows| { assert rows[i].id == id; }
    }
  }

  /** A transaction fits when each insertion finds its id free in turn. */
  lemma FitsOneMore(rows: seq<Row>, writes: seq<Write>, k: nat, timestamp: Instant, position: nat)
    requires k < |writes| && Fits(rows, writes[..k])
    ensures Fits(rows, writes[..k + 1]) <==>
            (writes[k].Insert? ==> !HasRow(ApplyWrites(rows, writes[..k], timestamp, position), writes[k].id))
    ensures Fits(rows, writes) ==> Fits(rows, writes[..k + 1])
  {
    IdsAfterWrites(rows, writes[..k], timestamp, position);
    assert forall j | 0 <= j < k :: writes[..k][j] == writes[j] == writes[..k + 1][j];
    assert writes[..k + 1][k] == writes[k];
  }

  lemma {:induction false} ApplyInTwo(rows: seq<Row>, a: seq<Write>, b: seq<Write>, timestamp: Instant, position: nat)
    ensures ApplyWrites(rows, a + b, timestamp, position) ==
            ApplyWrites(ApplyWrites(rows, a, timestamp, position), b, timestamp, position)
  {
    if b == [] {
      assert a + b == a;
    } else {
      assert (a + b)[..|a + b| - 1] == a + b[..|b| - 1];
      ApplyInTwo(rows, a, b[..|b| - 1], timestamp, position);
    }
  }

  lemma ApplyInChunks(rows: seq<Row>, writes: seq<Write>, i: nat, next: nat, timestamp: Instant, position: nat)
    requires i <= next <= |writes|
    ensures ApplyWrites(rows, writes[..next], timestamp, position) ==
            ApplyWrites(ApplyWrites(rows, writes[..i], timestamp, position), writes[i..next], timestamp, position)
  {
    assert writes[..i] + writes[i..next] == writes[..next];
    ApplyInTwo(rows, writes[..i], writes[i..next], timestamp, position);
  }

  lemma FitsInChunks(rows: seq<Row>, writes: seq<Write>, i: nat, next: nat, timestamp: Instant, position: nat)
    requires i <= next <= |writes| && Fits(rows, writes[..i])
    ensures Fits(rows, writes[..next]) <==>
            Fits(ApplyWrites(rows, writes[..i], timestamp, position), writes[i..next])
    ensures Fits(rows, writes) ==> Fits(rows, writes[..next])
  {
    IdsAfterWrites(rows, writes[..i], timestamp, position);
    var after := ApplyWrites(rows, writes[..i], timestamp, position);
    assert forall j | 0 <= j < i :: writes[..i][j] == writes[..next][j];
    assert forall j | 0 <= j < next - i :: writes[i..next][j] == writes[..next][i + j];
    if Fits(after, writes[i..next]) {
      forall k | 0 <= k < next && writes[..next][k].Insert? ensures !HasRow(rows, writes[..next][k].id) {
        if k >= i { assert writes[i..next][k - i] == writes[..next][k]; }
      }
      forall j, k | 0 <= j < k < next && writes[..next][j].Insert? && writes[..next][k].Insert?
        ensures writes[..next][j].id != writes[..next][k].id
      {
        if k >= i {
          assert writes[i..next][k - i] == writes[..next][k];
          if j >= i { assert writes[i..next][j - i] == writes[..next][j]; }
          else { assert writes[..i][j] == writes[..next][j]; }
        }
      }
    }
    if Fits(rows, writes[..next]) {
      forall k | 0 <= k < next - i && writes[i..next][k].Insert? ensures !HasRow(after, writes[i..next][k].id) {
        assert writes[..next][i + k] == writes[i..next][k];
      }
    }
  }

  // Every reachable table is well formed

  lemma WriteKeepsShape(rows: seq<Row>, write: Write, timestamp: Instant, position: nat)
    requires position >= 1 && WellFormed(State(rows, position)) && (write.Insert? ==> !HasRow(rows, write.id))
    ensures WellFormed(State(ApplyWrite(rows, write, timestamp, position), position))
  {
    var after := ApplyWrite(rows, write, timestamp, position);
    forall i | 0 <= i < |after| ensures RowFits(after[i], position) {
      if i < |rows| { assert RowFits(rows[i], position); }
    }
    forall i, j | 0 <= i < j < |after| ensures after[i].id != after[j].id {
      assert after[i].id == rows[i].id;
      if j < |rows| { assert after[j].id == rows[j].id; }
    }
  }

  lemma {:induction false} WritesKeepShape(rows: seq<Row>, writes: seq<Write>, timestamp: Instant, position: nat)
    requires position >= 1 && WellFormed(State(rows, position)) && Fits(rows, writes)
    ensures WellFormed(State(ApplyWrites(rows, writes, timestamp, position), position))
  {
    if writes != [] {
      var n := |writes| - 1;
      FitsOneMore(rows, writes, n, timestamp, position);
      assert writes[..n + 1] == writes;
      WritesKeepShape(rows, writes[..n], timestamp, position);
      WriteKeepsShape(ApplyWrites(rows, writes[..n], timestamp, position), writes[n], timestamp, position);
    }
  }

  lemma CommitKeepsShape(s: State, c: Commit)
    requires WellFormed(s) && Fits(s.rows, c.writes)
    ensures WellFormed(CommitTo(s, c))
  {
    forall i | 0 <= i < |s.rows| ensures RowFits(s.rows[i], s.position + 1) {
      assert RowFits(s.rows[i], s.position);
    }
    WritesKeepShape(s.rows, c.writes, c.timestamp, s.position + 1);
  }

  lemma PossiblePrefix(history: seq<Commit>, p: nat)
    requires Possible(history) && p <= |history|
    ensures Possible(history[..p])
  {
    forall i | 0 <= i < p ensures FitsAt(history[..p], i) {
      assert history[..p][..i] == history[..i] && FitsAt(history, i);
    }
  }

  lemma {:induction false} ReachableWellFormed(history: seq<Commit>)
    requires Possible(history)
    ensures WellFormed(After(history)) && After(history).position == |history|
  {
    if history != [] {
      var n := |history| - 1;
      PossiblePrefix(history, n);
      ReachableWellFormed(history[..n]);
      assert FitsAt(history, n);
      CommitKeepsShape(After(history[..n]), history[n]);
    }
  }

  // Time travel

  /** Two tables whose rows tell the same facts and are shown alike. */
  ghost predicate ShownAlike(a: seq<Row>, b: seq<Row>, forA: Basis, forB: Basis) {
    |a| == |b| && forall i :: 0 <= i < |a| ==>
      FactOf(a[i]) == FactOf(b[i]) && (Visible(a[i], forA) <==> Visible(b[i], forB))
  }

  lemma {:induction false} ShownAlikeReadsSame(a: seq<Row>, b: seq<Row>, forA: Basis, forB: Basis)
    requires ShownAlike(a, b, forA, forB)
    ensures Read(a, forA) == Read(b, forB)
  {
    if a != [] {
      ShownAlikeReadsSame(a[..|a| - 1], b[..|b| - 1], forA, forB);
    }
  }

  ghost predicate PairedRow(row: Row) {
    row.retractedAt.Some? <==> row.retractedPosition.Some?
  }

  ghost predicate Paired(rows: seq<Row>) {
    forall i :: 0 <= i < |rows| ==> PairedRow(rows[i])
  }

  /** The read carries a position cut before `position`. */
  predicate CutBefore(basis: Basis, position: nat) {
    basis.recordedPosition.Some? && basis.recordedPosition.value < position
  }

  lemma LaterWriteUnseen(rows: seq<Row>, write: Write, timestamp: Instant, position: nat, basis: Basis)
    requires Paired(rows) && CutBefore(basis, position)
    ensures Paired(ApplyWrite(rows, write, timestamp, position))
    ensures Read(ApplyWrite(rows, write, timestamp, position), basis) == Read(rows, basis)
  {
    match write
    case Insert(input, id) =>
      assert (rows + [NewRow(input, id, timestamp, position)])[..|rows|] == rows;
    case Retract(id) =>
      ShownAlikeReadsSame(StampAll(rows, id, timestamp, position), rows, basis, basis);
  }

  lemma {:induction false} LaterWritesUnseen(rows: seq<Row>, writes: seq<Write>, timestamp: Instant, position: nat,
                                             basis: Basis)
    requires Paired(rows) && CutBefore(basis, position)
    ensures Paired(ApplyWrites(rows, writes, timestamp, position))
    ensures Read(ApplyWrites(rows, writes, timestamp, position), basis) == Read(rows, basis)
  {
    if writes != [] {
      var n := |writes| - 1;
      LaterWritesUnseen(rows, writes[..n], timestamp, position, basis);
      LaterWriteUnseen(ApplyWrites(rows, writes[..n], timestamp, position), writes[n], timestamp, position, basis);
    }
  }

  lemma WellFormedPaired(s: State)
    requires WellFormed(s)
    ensures Paired(s.rows)
  {
    forall i | 0 <= i < |s.rows| ensures PairedRow(s.rows[i]) {
      assert RowFits(s.rows[i], s.position);
    }
  }

  lemma OwnPositionIsLatest(s: State, validAt: Instant)
    requires WellFormed(s)
    ensures Read(s.rows, AtPosition(s.position, validAt)) == Read(s.rows, Latest(validAt))
  {
    forall i | 0 <= i < |s.rows|
      ensures Visible(s.rows[i], AtPosition(s.position, validAt)) <==> Visible(s.rows[i], Latest(validAt))
    {
      assert RowFits(s.rows[i], s.position);
    }
    ShownAlikeReadsSame(s.rows, s.rows, AtPosition(s.position, validAt), Latest(validAt));
  }

  /** A read at position p shows, in table order, exactly the facts that a
      latest-state read showed right after commit p. */
  lemma {:induction false} TimeTravel(history: seq<Commit>, p: nat, validAt: Instant)
    requires Possible(history) && p <= |history|
    ensures Read(After(history).rows, AtPosition(p, validAt)) == Read(After(history[..p]).rows, Latest(validAt))
  {
    if p == |history| {
      assert history[..p] == history;
      ReachableWellFormed(history);
      OwnPositionIsLatest(After(history), validAt);
    } else {
      var earlier := history[..|history| - 1];
      PossiblePrefix(history, |history| - 1);
      TimeTravel(earlier, p, validAt);
      assert earlier[..p] == history[..p];
      LaterCommitUnseen(earlier, history[|history| - 1], AtPosition(p, validAt));
    }
  }

  lemma LaterCommitUnseen(earlier: seq<Commit>, c: Commit, basis: Basis)
    requires Possible(earlier) && CutBefore(basis, |earlier| + 1)
    ensures Read(CommitTo(After(earlier), c).rows, basis) == Read(After(earlier).rows, basis)
  {
    ReachableWellFormed(earlier);
    WellFormedPaired(After(earlier));
    LaterWritesUnseen(After(earlier).rows, c.writes, c.timestamp, |earlier| + 1, basis);
  }

  /** A read with a position cut shows the same facts whatever is committed later,
      also when it carries a recorded instant as well and clocks disagree. */
  lemma {:induction false} SnapshotStable(history: seq<Commit>, p: nat, basis: Basis)
    requires Possible(history) && p <= |history| && CutBefore(basis, p + 1)
    ensures Read(After(history).rows, basis) == Read(After(history[..p]).rows, basis)
  {
    if p == |history| {
      assert history[..p] == history;
    } else {
      var earlier := history[..|history| - 1];
      PossiblePrefix(history, |history| - 1);
      SnapshotStable(earlier, p, basis);
      assert earlier[..p] == history[..p];
      LaterCommitUnseen(earlier, history[|history| - 1], basis);
    }
  }

  // A basis with both cuts, and one with a recorded instant only

  ghost predicate ClockMonotone(history: seq<Commit>) {
    forall i, j :: 0 <= i < j < |history| ==> history[i].timestamp <= history[j].timestamp
  }

  /** Rows carry the timestamp of the commit whose position they carry. */
  ghost predicate Stamped(row: Row, history: seq<Commit>) {
    && 1 <= row.recordedPosition <= |history|
    && row.recordedAt == history[row.recordedPosition - 1].timestamp
    && (row.retractedAt.Some? <==> row.retractedPosition.Some?)
    && (row.retractedPosition.Some? ==>
          && 1 <= row.retractedPosition.value <= |history|
          && row.retractedAt == Some(history[row.retractedPosition.value - 1].timestamp))
  }

  ghost predicate AllStamped(rows: seq<Row>, history: seq<Commit>) {
    forall i :: 0 <= i < |rows| ==> Stamped(rows[i], history)
  }

  lemma WriteKeepsStamps(rows: seq<Row>, write: Write, history: seq<Commit>)
    requires history != [] && AllStamped(rows, history)
    ensures AllStamped(ApplyWrite(rows, write, history[|history| - 1].timestamp, |history|), history)
  {
    var after := ApplyWrite(rows, write, history[|history| - 1].timestamp, |history|);
    forall i | 0 <= i < |after| ensures Stamped(after[i], history) {
      if i < |rows| {
        assert Stamped(rows[i], history);
        assert after[i] == rows[i] || after[i] == Stamp(rows[i], write.id, history[|history| - 1].timestamp, |history|);
      }
    }
  }

  lemma {:induction false} WritesKeepStamps(rows: seq<Row>, writes: seq<Write>, history: seq<Commit>)
    requires history != [] && AllStamped(rows, history)
    ensures AllStamped(ApplyWrites(rows, writes, history[|history| - 1].timestamp, |history|), history)
  {
    if writes != [] {
      var n := |writes| - 1;
      WritesKeepStamps(rows, writes[..n], history);
      WriteKeepsStamps(ApplyWrites(rows, writes[..n], history[|history| - 1].timestamp, |history|), writes[n], history);
    }
  }

  lemma {:induction false} ReachableStamped(history: seq<Commit>)
    requires Possible(history)
    ensures AllStamped(After(history).rows, history)
  {
    if history != [] {
      var n := |history| - 1;
      PossiblePrefix(history, n);
      ReachableStamped(history[..n]);
      ReachableWellFormed(history[..n]);
      var rows := After(history[..n]).rows;
      forall i | 0 <= i < |rows| ensures Stamped(rows[i], history) {
        assert Stamped(rows[i], history[..n]);
      }
      WritesKeepStamps(rows, history[n].writes, history);
    }
  }

  /** The last commit inside both cuts. */
  function CutPosition(history: seq<Commit>, recordedAt: Instant, recordedPosition: nat): (q: nat)
    ensures q <= recordedPosition && q <= |history|
    ensures q > 0 ==> history[q - 1].timestamp <= recordedAt
  {
    if history == [] then 0
    else if |history| <= recordedPosition && history[|history| - 1].timestamp <= recordedAt then |history|
    else CutPosition(history[..|history| - 1], recordedAt, recordedPosition)
  }

  lemma {:induction false} CutPositionIsLast(history: seq<Commit>, recordedAt: Instant, recordedPosition: nat, i: nat)
    requires ClockMonotone(history) && 1 <= i <= |history|
    ensures i <= CutPosition(history, recordedAt, recordedPosition) <==>
            i <= recordedPosition && history[i - 1].timestamp <= recordedAt
  {
    var n := |history|;
    var q := CutPosition(history, recordedAt, recordedPosition);
    if n <= recordedPosition && history[n - 1].timestamp <= recordedAt {
      assert history[i - 1].timestamp <= history[n - 1].timestamp;
    } else if i < n {
      CutPositionIsLast(history[..n - 1], recordedAt, recordedPosition, i);
      assert history[..n - 1][i - 1] == history[i - 1];
    }
  }

  lemma BothCutsShowRow(history: seq<Commit>, recordedAt: Instant, recordedPosition: nat, validAt: Instant, row: Row)
    requires ClockMonotone(history) && Stamped(row, history)
    ensures Visible(row, Basis(Some(recordedAt), Some(recordedPosition), validAt)) <==>
            Visible(row, AtPosition(CutPosition(history, recordedAt, recordedPosition), validAt))
  {
    CutPositionIsLast(history, recordedAt, recordedPosition, row.recordedPosition);
    if row.retractedPosition.Some? {
      CutPositionIsLast(history, recordedAt, recordedPosition, row.retractedPosition.value);
    }
  }

  lemma RecordedInstantShowsRow(history: seq<Commit>, recordedAt: Instant, validAt: Instant, row: Row)
    requires Stamped(row, history)
    ensures Visible(row, Basis(Some(recordedAt), None, validAt)) <==>
            Visible(row, Basis(Some(recordedAt), Some(|history|), validAt))
  {
  }

  /** With a clock that does not run backwards, a read carrying both cuts shows the
      state right after the last commit that satisfies both. */
  lemma BothCutsReadOneState(history: seq<Commit>, recordedAt: Instant, recordedPosition: nat, validAt: Instant, q: nat)
    requires Possible(history) && ClockMonotone(history)
    requires q == CutPosition(history, recordedAt, recordedPosition)
    ensures Read(After(history).rows, Basis(Some(recordedAt), Some(recordedPosition), validAt))
            == Read(After(history[..q]).rows, Latest(validAt))
  {
    var rows := After(history).rows;
    ReachableStamped(history);
    forall i | 0 <= i < |rows|
      ensures Visible(rows[i], Basis(Some(recordedAt), Some(recordedPosition), validAt)) <==>
              Visible(rows[i], AtPosition(q, validAt))
    {
      BothCutsShowRow(history, recordedAt, recordedPosition, validAt, rows[i]);
    }
    ShownAlikeReadsSame(rows, rows, Basis(Some(recordedAt), Some(recordedPosition), validAt), AtPosition(q, validAt));
    TimeTravel(history, q, validAt);
  }

  /** The same for a read that carries a recorded instant only. */
  lemma RecordedInstantReadsOneState(history: seq<Commit>, recordedAt: Instant, validAt: Instant, q: nat)
    requires Possible(history) && ClockMonotone(history)
    requires q == CutPosition(history, recordedAt, |history|)
    ensures Read(After(history).rows, Basis(Some(recordedAt), None, validAt))
            == Read(After(history[..q]).rows, Latest(validAt))
  {
    var rows := After(history).rows;
    ReachableStamped(history);
    forall i | 0 <= i < |rows|
      ensures Visible(rows[i], Basis(Some(recordedAt), None, validAt)) <==>
              Visible(rows[i], Basis(Some(recordedAt), Some(|history|), validAt))
    {
      RecordedInstantShowsRow(history, recordedAt, validAt, rows[i]);
    }
    ShownAlikeReadsSame(rows, rows, Basis(Some(recordedAt), None, validAt),
                        Basis(Some(recordedAt), Some(|history|), validAt));
    BothCutsReadOneState(history, recordedAt, |history|, validAt, q);
  }
}
