/** The tenant host: any number of requests that provision, suspend, resume, delete
    and use tenant instances, interleaved at every point where one of them waits. */
module HostProtocol {
  import opened Facts
  import opened InstanceIdentity
  import opened Lifecycle
  import opened TenantRegistry
  import T = TenantDatabase

  datatype Action = ToSuspend | ToResume | ToDelete

  /** Where a request stands, with what it holds on to across its next wait. */
  datatype Process =
    | Provision(identity: Identity, operationId: string, release: string)
    | Creating(desired: TenantRecord)
    | Rereading(identity: Identity, operationId: string)
    | Activating(current: TenantRecord, next: TenantRecord)
    | Noting(current: TenantRecord, next: TenantRecord)
    | Finishing(current: TenantRecord, next: TenantRecord)
    | Change(action: Action, identity: Identity, operationId: string)
    | Controlling(action: Action, current: TenantRecord, next: TenantRecord)
    | Writing(action: Action, current: TenantRecord, next: TenantRecord)
    | Retiring(current: TenantRecord, next: TenantRecord)
    | Closing(current: TenantRecord, next: TenantRecord)
    | DataRequest(identity: Identity, routingRevision: int)
    | Forwarding(record: TenantRecord, routingRevision: int)
    | Executing(bound: T.Binding, identity: Identity, routingRevision: int)
    | Finished

  /** A record the registry took, what its writer had read, and who wrote it. */
  datatype Entry = Entry(record: TenantRecord, read: Option<TenantRecord>, writer: nat)

  /** A data operation that ran, with the binding its request was admitted under. */
  datatype Execution = Execution(identity: Identity, routingRevision: int, bound: T.Binding)

  datatype World = World(
    records: Records,
    tenants: map<InstanceKey, T.Binding>,
    processes: seq<Process>,
    log: seq<Entry>,
    executions: seq<Execution>)

  /** What the environment decides about one step: the clock, whether the message
      arrives, whether the reply says so, and the text of an error. */
  datatype Choice = Choice(now: Instant, arrives: bool, reported: bool, message: string)

  // Steps

  function Become(w: World, p: nat, process: Process): World
    requires p < |w.processes|
  {
    w.(processes := w.processes[p := process])
  }

  function ExpectedRevision(read: Option<TenantRecord>): Option<int> {
    if read.None? then None else Some(read.value.revision)
  }

  predicate Takes(w: World, record: TenantRecord, read: Option<TenantRecord>, c: Choice) {
    c.arrives && Matches(w.records, record, ExpectedRevision(read))
  }

  /** The registry's part of a write; a lost reply does not undo it. */
  function CompareAndSet(w: World, p: nat, record: TenantRecord, read: Option<TenantRecord>, c: Choice): World {
    if Takes(w, record, read, c) then w.(records := Stored(w.records, record), log := w.log + [Entry(record, read, p)])
    else w
  }

  function BoundTo(w: World, instanceKey: InstanceKey): Option<T.Binding> {
    if instanceKey in w.tenants then Some(w.tenants[instanceKey]) else None
  }

  function BindingOf(record: TenantRecord): T.Binding {
    T.Binding(record.identity, record.routingRevision, record.state)
  }

  predicate Binds(w: World, record: TenantRecord, c: Choice) {
    c.arrives && T.Accepts(BoundTo(w, record.instanceKey), BindingOf(record))
  }

  /** A control call binds the instance before anything in it can fail. */
  function CallControl(w: World, record: TenantRecord, c: Choice): World {
    if Binds(w, record, c) then
      w.(tenants := w.tenants[record.instanceKey := BindingOf(record)])
    else w
  }

  function DesiredRecord(process: Process, now: Instant): TenantRecord
    requires process.Provision?
  {
    TenantRecord(process.identity, ProviderInstanceKey(process.identity), Provisioning, 1, 0, process.operationId,
                 process.release, 1,
                 None, None, now, now)
  }

  /** What provisioning does with the record it ends up with. */
  function Provisioned(current: TenantRecord, operationId: string, now: Instant): Process {
    if current.state != Provisioning || current.operationId != operationId then Finished
    else
      match TransitionRecord(current, Ready, operationId, now)
      case Allowed(ready) => Activating(current, ready)
      case Invalid(_, _) => Finished
  }

  function Changed(action: Action, current: TenantRecord, operationId: string, now: Instant): Process {
    var target := match action case ToSuspend => Suspended case ToResume => Ready case ToDelete => Deleting;
    var settled := match action case ToSuspend => Suspended case ToResume => Ready case ToDelete => Deleted;
    if current.state == settled then Finished
    else
      match TransitionRecord(current, target, operationId, now)
      case Allowed(next) => Controlling(action, current, next)
      case Invalid(_, _) => Finished
  }

  function Written(action: Action, next: TenantRecord, now: Instant): Process {
    if action != ToDelete then Finished
    else
      match TransitionRecord(next, Deleted, next.operationId, now)
      case Allowed(deleted) => Retiring(next, deleted)
      case Invalid(_, _) => Finished
  }

  /** What process p does to the registry, the instances and the outside world. */
  function Effect(w: World, p: nat, c: Choice): World
    requires p < |w.processes|
  {
    match w.processes[p]
    case Creating(desired) => CompareAndSet(w, p, desired, None, c)
    case Noting(current, next) => CompareAndSet(w, p, next, Some(current), c)
    case Finishing(current, next) => CompareAndSet(w, p, next, Some(current), c)
    case Writing(_, current, next) => CompareAndSet(w, p, next, Some(current), c)
    case Closing(current, next) => CompareAndSet(w, p, next, Some(current), c)
    case Activating(_, next) => CallControl(w, next, c)
    case Controlling(_, _, next) => CallControl(w, next, c)
    case Retiring(_, next) => CallControl(w, next, c)
    case Executing(bound, identity, routingRevision) =>
      if SameInstanceIdentity(bound.identity, identity) && bound.routingRevision == routingRevision
      then w.(executions := w.executions + [Execution(identity, routingRevision, bound)]) else w
    case _ => w
  }

  /** Where process p waits next. */
  function Resume(w: World, p: nat, c: Choice): Process
    requires p < |w.processes|
  {
    match w.processes[p]
    case Provision(identity, operationId, _) =>
      var current := Lookup(w.records, identity);
      if !c.reported then Finished
      else if current.None? then Creating(DesiredRecord(w.processes[p], c.now))
      else Provisioned(current.value, operationId, c.now)
    case Creating(desired) =>
      if Takes(w, desired, None, c) && c.reported then Provisioned(desired, desired.operationId, c.now)
      else Rereading(desired.identity, desired.operationId)
    case Rereading(identity, operationId) =>
      var current := Lookup(w.records, identity);
      if !c.reported || current.None? then Finished else Provisioned(current.value, operationId, c.now)
    case Activating(current, next) =>
      if Binds(w, next, c) && c.reported then Finishing(current, next)
      else Noting(current, NoteFailure(current, Failure(next.operationId, c.message, c.now, true), c.now))
    case Change(action, identity, operationId) =>
      var current := Lookup(w.records, identity);
      if !c.reported || current.None? then Finished else Changed(action, current.value, operationId, c.now)
    case Controlling(action, current, next) =>
      if Binds(w, next, c) && c.reported then Writing(action, current, next) else Finished
    case Writing(action, current, next) =>
      if Takes(w, next, Some(current), c) && c.reported then Written(action, next, c.now) else Finished
    case Retiring(current, next) =>
      if Binds(w, next, c) && c.reported then Closing(current, next) else Finished
    case DataRequest(identity, routingRevision) =>
      var record := Lookup(w.records, identity);
      if c.reported && record.Some? && record.value.state == Ready && record.value.routingRevision == routingRevision
      then Forwarding(record.value, routingRevision) else Finished
    case Forwarding(record, routingRevision) =>
      if c.arrives && record.instanceKey in w.tenants && w.tenants[record.instanceKey].state == Ready
      then Executing(w.tenants[record.instanceKey], record.identity, routingRevision) else Finished
    case _ => Finished
  }

  /** Process p runs up to its next wait. */
  function Step(w: World, p: nat, c: Choice): World
    requires p < |w.processes|
  {
    Become(Effect(w, p, c), p, Resume(w, p, c))
  }

  datatype Turn = Turn(process: nat, choice: Choice)

  function Run(w: World, turns: seq<Turn>): World {
    if turns == [] then w
    else
      var before := Run(w, turns[..|turns| - 1]);
      var turn := turns[|turns| - 1];
      if turn.process < |before.processes| then Step(before, turn.process, turn.choice) else before
  }

  predicate Fresh(process: Process) {
    process.Provision? || process.Change? || process.DataRequest?
  }

  ghost predicate Initial(w: World) {
    && w.records == map[] && w.tenants == map[] && w.log == [] && w.executions == []
    && forall p :: 0 <= p < |w.processes| ==> Fresh(w.processes[p])
  }

  // What the registry has taken for one identity

  function History(log: seq<Entry>, identity: Identity): (h: seq<Entry>)
    ensures forall i :: 0 <= i < |h| ==> h[i].record.identity == identity
  {
    if log == [] then []
    else
      History(log[..|log| - 1], identity)
      + if log[|log| - 1].record.identity == identity then [log[|log| - 1]] else []
  }

  function RecordsOf(history: seq<Entry>): (chain: seq<TenantRecord>)
    ensures |chain| == |history| && forall i :: 0 <= i < |history| ==> chain[i] == history[i].record
  {
    seq(|history|, i requires 0 <= i < |history| => history[i].record)
  }

  /** Each entry's writer had read the record just before it, and only the request
      that wrote `deleting` writes `deleted`. */
  ghost predicate Linked(history: seq<Entry>) {
    && (history != [] ==> history[0].read == None)
    && (forall i, j :: 0 <= i < j == i + 1 < |history| ==> history[j].read == Some(history[i].record))
    && (forall i, j :: 0 <= i < j == i + 1 < |history| && history[j].record.state == Deleted ==>
        history[j].writer == history[i].writer)
  }

  ghost predicate SoundHistory(records: Records, log: seq<Entry>, identity: Identity) {
    var h := History(log, identity);
    && Chain(RecordsOf(h)) && Linked(h)
    && Lookup(records, identity) == if h == [] then None else Some(h[|h| - 1].record)
  }

  predicate Recorded(log: seq<Entry>, record: TenantRecord) {
    var h := History(log, record.identity);
    1 <= record.revision <= |h| && h[record.revision - 1].record == record
  }

  ghost predicate ReadyUnder(log: seq<Entry>, identity: Identity, routingRevision: int) {
    var h := History(log, identity);
    exists i :: 0 <= i < |h| && h[i].record.state == Ready && h[i].record.routingRevision == routingRevision
  }

  predicate Pending(log: seq<Entry>, current: TenantRecord, next: TenantRecord) {
    Recorded(log, current) && Extends(current, next) && current.identity == next.identity
  }

  ghost predicate ProcessFits(log: seq<Entry>, process: Process, p: nat) {
    match process
    case Creating(desired) => IsFirst(desired)
    case Activating(current, next) =>
      Pending(log, current, next) && current.state == Provisioning && next.state == Ready
    case Noting(current, next) => Pending(log, current, next) && next.state == Provisioning
    case Finishing(current, next) => Pending(log, current, next) && next.state == Ready
    case Controlling(action, current, next) => Pending(log, current, next) && next.state != Deleted
    case Writing(action, current, next) => Pending(log, current, next) && next.state != Deleted
    case Retiring(current, next) => Pending(log, current, next) && next.state == Deleted && WrittenBy(log, current, p)
    case Closing(current, next) => Pending(log, current, next) && next.state == Deleted && WrittenBy(log, current, p)
    case Forwarding(record, routingRevision) => ReadyUnder(log, record.identity, routingRevision)
    case Executing(bound, identity, routingRevision) => ReadyUnder(log, identity, routingRevision)
    case _ => true
  }

  predicate WrittenBy(log: seq<Entry>, record: TenantRecord, p: nat) {
    Recorded(log, record) && History(log, record.identity)[record.revision - 1].writer == p
  }

  ghost predicate Sound(w: World) {
    && (forall identity :: SoundHistory(w.records, w.log, identity))
    && (forall p :: 0 <= p < |w.processes| ==> ProcessFits(w.log, w.processes[p], p))
    && (forall e :: 0 <= e < |w.executions| ==>
        ReadyUnder(w.log, w.executions[e].identity, w.executions[e].routingRevision))
  }

  // Writes keep every history sound

  lemma HistoryAppend(log: seq<Entry>, entry: Entry, identity: Identity)
    ensures History(log + [entry], identity)
            == History(log, identity) + if entry.record.identity == identity then [entry] else []
  {
    assert (log + [entry])[..|log|] == log;
  }

  lemma RecordedStays(log: seq<Entry>, entry: Entry, record: TenantRecord)
    requires Recorded(log, record)
    ensures Recorded(log + [entry], record)
    ensures History(log + [entry], record.identity)[record.revision - 1]
            == History(log, record.identity)[record.revision - 1]
  {
    HistoryAppend(log, entry, record.identity);
  }

  lemma ReadyStays(log: seq<Entry>, entry: Entry, identity: Identity, routingRevision: int)
    requires ReadyUnder(log, identity, routingRevision)
    ensures ReadyUnder(log + [entry], identity, routingRevision)
  {
    HistoryAppend(log, entry, identity);
    var h := History(log, identity);
    var i :| 0 <= i < |h| && h[i].record.state == Ready && h[i].record.routingRevision == routingRevision;
    assert History(log + [entry], identity)[i] == h[i];
  }

  lemma FitStays(log: seq<Entry>, entry: Entry, process: Process, p: nat)
    requires ProcessFits(log, process, p)
    ensures ProcessFits(log + [entry], process, p)
  {
    match process
    case Activating(current, _) => RecordedStays(log, entry, current);
    case Noting(current, _) => RecordedStays(log, entry, current);
    case Finishing(current, _) => RecordedStays(log, entry, current);
    case Controlling(_, current, _) => RecordedStays(log, entry, current);
    case Writing(_, current, _) => RecordedStays(log, entry, current);
    case Retiring(current, _) => RecordedStays(log, entry, current);
    case Closing(current, _) => RecordedStays(log, entry, current);
    case Forwarding(record, routingRevision) => ReadyStays(log, entry, record.identity, routingRevision);
    case Executing(_, identity, routingRevision) => ReadyStays(log, entry, identity, routingRevision);
    case _ =>
  }

  /** The registry takes a record only over the very record its writer had read. */
  lemma TakenOverReadRecord(records: Records, log: seq<Entry>, read: TenantRecord)
    requires SoundHistory(records, log, read.identity) && Recorded(log, read)
    requires Lookup(records, read.identity).Some? && Lookup(records, read.identity).value.revision == read.revision
    ensures read.revision == |History(log, read.identity)| && Lookup(records, read.identity) == Some(read)
  {
    var h := History(log, read.identity);
    RevisionIsPlace(RecordsOf(h), |h| - 1);
  }

  ghost predicate MayWrite(log: seq<Entry>, entry: Entry) {
    match entry.read
    case None => IsFirst(entry.record)
    case Some(read) =>
      Pending(log, read, entry.record) && (entry.record.state == Deleted ==> WrittenBy(log, read, entry.writer))
  }

  lemma OwnHistoryStaysSound(records: Records, log: seq<Entry>, entry: Entry)
    requires SoundHistory(records, log, entry.record.identity) && MayWrite(log, entry)
    requires Matches(records, entry.record, ExpectedRevision(entry.read))
    ensures SoundHistory(Stored(records, entry.record), log + [entry], entry.record.identity)
    ensures Recorded(log + [entry], entry.record) && WrittenBy(log + [entry], entry.record, entry.writer)
  {
    var identity := entry.record.identity;
    var h := History(log, identity);
    HistoryAppend(log, entry, identity);
    StoredLookup(records, entry.record, identity);
    if entry.read.Some? {
      TakenOverReadRecord(records, log, entry.read.value);
      assert h[|h| - 1].record == entry.read.value;
    }
    var longer := h + [entry];
    ExtendedChain(h, entry);
    RevisionIsPlace(RecordsOf(longer), |h|);
  }

  lemma ExtendedChain(h: seq<Entry>, entry: Entry)
    requires Chain(RecordsOf(h)) && Linked(h)
    requires h == [] ==> entry.read == None && IsFirst(entry.record)
    requires h != [] ==> entry.read == Some(h[|h| - 1].record) && Extends(h[|h| - 1].record, entry.record)
    requires h != [] && entry.record.state == Deleted ==> entry.writer == h[|h| - 1].writer
    ensures Chain(RecordsOf(h + [entry])) && Linked(h + [entry])
  {
    var before, after := RecordsOf(h), RecordsOf(h + [entry]);
    forall i | 0 < i < |after| ensures Extends(after[i - 1], after[i]) {
      if i < |before| { assert Extends(before[i - 1], before[i]); }
    }
  }

  lemma HistoriesStaySound(records: Records, log: seq<Entry>, entry: Entry, identity: Identity)
    requires SoundHistory(records, log, entry.record.identity) && SoundHistory(records, log, identity)
    requires MayWrite(log, entry) && Matches(records, entry.record, ExpectedRevision(entry.read))
    ensures SoundHistory(Stored(records, entry.record), log + [entry], identity)
  {
    if identity == entry.record.identity {
      OwnHistoryStaysSound(records, log, entry);
    } else {
      HistoryAppend(log, entry, identity);
      StoredLookup(records, entry.record, identity);
    }
  }

  lemma CompareAndSetKeeps(w: World, p: nat, record: TenantRecord, read: Option<TenantRecord>, c: Choice)
    requires Sound(w) && MayWrite(w.log, Entry(record, read, p))
    ensures Sound(CompareAndSet(w, p, record, read, c))
    ensures Takes(w, record, read, c) ==> WrittenBy(CompareAndSet(w, p, record, read, c).log, record, p)
  {
    if Takes(w, record, read, c) {
      var entry := Entry(record, read, p);
      var after := CompareAndSet(w, p, record, read, c);
      assert SoundHistory(w.records, w.log, record.identity);
      OwnHistoryStaysSound(w.records, w.log, entry);
      forall identity ensures SoundHistory(after.records, after.log, identity) {
        assert SoundHistory(w.records, w.log, identity);
        HistoriesStaySound(w.records, w.log, entry, identity);
      }
      forall q | 0 <= q < |w.processes| ensures ProcessFits(after.log, after.processes[q], q) {
        FitStays(w.log, entry, w.processes[q], q);
      }
      forall e | 0 <= e < |w.executions|
        ensures ReadyUnder(after.log, after.executions[e].identity, after.executions[e].routingRevision)
      {
        ReadyStays(w.log, entry, w.executions[e].identity, w.executions[e].routingRevision);
      }
    }
  }

  lemma BecomeKeeps(w: World, p: nat, process: Process)
    requires Sound(w) && p < |w.processes| && ProcessFits(w.log, process, p)
    ensures Sound(Become(w, p, process))
  {
    var after := Become(w, p, process);
    forall q | 0 <= q < |after.processes| ensures ProcessFits(after.log, after.processes[q], q) {
      if q != p { assert ProcessFits(w.log, w.processes[q], q); }
    }
  }

  lemma ControlKeeps(w: World, record: TenantRecord, c: Choice)
    requires Sound(w)
    ensures Sound(CallControl(w, record, c)) && CallControl(w, record, c).log == w.log
    ensures CallControl(w, record, c).processes == w.processes
  {
  }

  /** What the registry answers is on record. */
  lemma AnswerRecorded(w: World, identity: Identity)
    requires Sound(w) && Lookup(w.records, identity).Some?
    ensures Lookup(w.records, identity).value.identity == identity
    ensures Recorded(w.log, Lookup(w.records, identity).value)
  {
    assert SoundHistory(w.records, w.log, identity);
    var h := History(w.log, identity);
    RevisionIsPlace(RecordsOf(h), |h| - 1);
  }

  lemma ProvisionedFits(log: seq<Entry>, current: TenantRecord, operationId: string, now: Instant, p: nat)
    requires Recorded(log, current)
    ensures ProcessFits(log, Provisioned(current, operationId, now), p)
  {
  }

  lemma ChangedFits(log: seq<Entry>, action: Action, current: TenantRecord, operationId: string, now: Instant, p: nat)
    requires Recorded(log, current)
    ensures ProcessFits(log, Changed(action, current, operationId, now), p)
  {
  }

  lemma WrittenFits(log: seq<Entry>, action: Action, next: TenantRecord, now: Instant, p: nat)
    requires WrittenBy(log, next, p)
    ensures ProcessFits(log, Written(action, next, now), p)
  {
  }

  // One step of one request

  lemma ReadStepKeeps(w: World, p: nat, c: Choice)
    requires Sound(w) && p < |w.processes|
    requires var process := w.processes[p];
      process.Provision? || process.Rereading? || process.Change? || process.DataRequest?
    ensures Sound(Step(w, p, c))
  {
    match w.processes[p]
    case Provision(identity, operationId, _) =>
      if Lookup(w.records, identity).Some? {
        AnswerRecorded(w, identity);
        ProvisionedFits(w.log, Lookup(w.records, identity).value, operationId, c.now, p);
      }
      BecomeKeeps(w, p, Resume(w, p, c));
    case Rereading(identity, operationId) =>
      if Lookup(w.records, identity).Some? {
        AnswerRecorded(w, identity);
        ProvisionedFits(w.log, Lookup(w.records, identity).value, operationId, c.now, p);
      }
      BecomeKeeps(w, p, Resume(w, p, c));
    case Change(action, identity, operationId) =>
      if Lookup(w.records, identity).Some? {
        AnswerRecorded(w, identity);
        ChangedFits(w.log, action, Lookup(w.records, identity).value, operationId, c.now, p);
      }
      BecomeKeeps(w, p, Resume(w, p, c));
    case DataRequest(identity, routingRevision) =>
      if Lookup(w.records, identity).Some? {
        AnswerRecorded(w, identity);
        AnswerReady(w, identity);
      }
      BecomeKeeps(w, p, Resume(w, p, c));
  }

  lemma AnswerReady(w: World, identity: Identity)
    requires Sound(w) && Lookup(w.records, identity).Some?
    ensures var record := Lookup(w.records, identity).value;
      record.identity == identity && (record.state == Ready ==> ReadyUnder(w.log, identity, record.routingRevision))
  {
    AnswerRecorded(w, identity);
    var h, record := History(w.log, identity), Lookup(w.records, identity).value;
    assert h[record.revision - 1].record == record;
  }

  lemma ControlStepKeeps(w: World, p: nat, c: Choice)
    requires Sound(w) && p < |w.processes|
    requires w.processes[p].Activating? || w.processes[p].Controlling? || w.processes[p].Retiring?
    ensures Sound(Step(w, p, c))
  {
    var next := w.processes[p].next;
    assert ProcessFits(w.log, w.processes[p], p);
    ControlKeeps(w, next, c);
    BecomeKeeps(CallControl(w, next, c), p, Resume(w, p, c));
  }

  lemma ExecuteKeeps(w: World, p: nat, c: Choice)
    requires Sound(w) && p < |w.processes| && w.processes[p].Executing?
    ensures Sound(Effect(w, p, c))
  {
    assert ProcessFits(w.log, w.processes[p], p);
  }

  lemma CallStepKeeps(w: World, p: nat, c: Choice)
    requires Sound(w) && p < |w.processes|
    requires w.processes[p].Forwarding? || w.processes[p].Executing? || w.processes[p].Finished?
    ensures Sound(Step(w, p, c))
  {
    assert ProcessFits(w.log, w.processes[p], p);
    if w.processes[p].Executing? { ExecuteKeeps(w, p, c); }
    BecomeKeeps(Effect(w, p, c), p, Resume(w, p, c));
  }

  lemma WriteStepKeeps(w: World, p: nat, c: Choice)
    requires Sound(w) && p < |w.processes|
    requires var process := w.processes[p];
      process.Creating? || process.Noting? || process.Finishing? || process.Writing? || process.Closing?
    ensures Sound(Step(w, p, c))
  {
    assert ProcessFits(w.log, w.processes[p], p);
    match w.processes[p]
    case Creating(desired) =>
      CompareAndSetKeeps(w, p, desired, None, c);
      var after := CompareAndSet(w, p, desired, None, c);
      if Takes(w, desired, None, c) { ProvisionedFits(after.log, desired, desired.operationId, c.now, p); }
      BecomeKeeps(after, p, Resume(w, p, c));
    case Noting(current, next) =>
      CompareAndSetKeeps(w, p, next, Some(current), c);
      BecomeKeeps(CompareAndSet(w, p, next, Some(current), c), p, Finished);
    case Finishing(current, next) =>
      CompareAndSetKeeps(w, p, next, Some(current), c);
      BecomeKeeps(CompareAndSet(w, p, next, Some(current), c), p, Finished);
    case Writing(action, current, next) =>
      CompareAndSetKeeps(w, p, next, Some(current), c);
      var after := CompareAndSet(w, p, next, Some(current), c);
      if Takes(w, next, Some(current), c) { WrittenFits(after.log, action, next, c.now, p); }
      BecomeKeeps(after, p, Resume(w, p, c));
    case Closing(current, next) =>
      CompareAndSetKeeps(w, p, next, Some(current), c);
      BecomeKeeps(CompareAndSet(w, p, next, Some(current), c), p, Finished);
  }

  lemma StepKeeps(w: World, p: nat, c: Choice)
    requires Sound(w) && p < |w.processes|
    ensures Sound(Step(w, p, c))
  {
    var process := w.processes[p];
    if process.Provision? || process.Rereading? || process.Change? || process.DataRequest? {
      ReadStepKeeps(w, p, c);
    } else if process.Creating? || process.Noting? || process.Finishing? || process.Writing? || process.Closing? {
      WriteStepKeeps(w, p, c);
    } else if process.Activating? || process.Controlling? || process.Retiring? {
      ControlStepKeeps(w, p, c);
    } else {
      CallStepKeeps(w, p, c);
    }
  }

  lemma {:induction false} RunKeepsSound(w: World, turns: seq<Turn>)
    requires Sound(w)
    ensures Sound(Run(w, turns))
  {
    if turns != [] {
      var n := |turns| - 1;
      RunKeepsSound(w, turns[..n]);
      if turns[n].process < |Run(w, turns[..n]).processes| {
        StepKeeps(Run(w, turns[..n]), turns[n].process, turns[n].choice);
      }
    }
  }

  // What holds over every run

  lemma InitialSound(w: World)
    requires Initial(w)
    ensures Sound(w)
  {
    forall identity ensures SoundHistory(w.records, w.log, identity) {
      assert History(w.log, identity) == [];
    }
  }

  /** Counted 1, 2, 3 by revision, each record extends the very record its writer had
      read, and `deleted` comes last. */
  ghost predicate RegistryChain(h: seq<Entry>) {
    && (forall i :: 0 <= i < |h| ==> h[i].record.revision == i + 1)
    && (h != [] ==> IsFirst(h[0].record) && h[0].read == None)
    && (forall i, j :: 0 <= i < j == i + 1 < |h| ==>
        h[j].read == Some(h[i].record) && Extends(h[i].record, h[j].record))
    && (forall i :: 0 <= i < |h| && h[i].record.state == Deleted ==> i == |h| - 1)
  }

  lemma SoundIsChain(records: Records, log: seq<Entry>, identity: Identity)
    requires SoundHistory(records, log, identity)
    ensures RegistryChain(History(log, identity))
  {
    var h := History(log, identity);
    var chain := RecordsOf(h);
    forall i | 0 <= i < |h| ensures h[i].record.revision == i + 1 && (h[i].record.state == Deleted ==> i == |h| - 1) {
      RevisionIsPlace(chain, i);
      if h[i].record.state == Deleted { DeletedIsFinal(chain, i); }
    }
    forall i | 0 < i < |h| ensures Extends(h[i - 1].record, h[i].record) {
      assert Extends(chain[i - 1], chain[i]);
    }
  }

  /** In every interleaving the registry history of an identity is a chain, and the
      registry answers with its last record. */
  lemma HistoryIsChain(w: World, turns: seq<Turn>, identity: Identity)
    requires Initial(w)
    ensures var h := History(Run(w, turns).log, identity);
      RegistryChain(h) && Lookup(Run(w, turns).records, identity) == if h == [] then None else Some(h[|h| - 1].record)
  {
    InitialSound(w);
    RunKeepsSound(w, turns);
    var end := Run(w, turns);
    assert SoundHistory(end.records, end.log, identity);
    SoundIsChain(end.records, end.log, identity);
  }

  ghost predicate OneReady(h: seq<Entry>, routingRevision: int) {
    exists i :: 0 <= i < |h| && ReadyAt(h, i, routingRevision)
      && forall j :: 0 <= j < |h| && ReadyAt(h, j, routingRevision) ==> j == i
  }

  lemma ReadyIsOne(records: Records, log: seq<Entry>, identity: Identity, routingRevision: int)
    requires SoundHistory(records, log, identity) && ReadyUnder(log, identity, routingRevision)
    ensures OneReady(History(log, identity), routingRevision)
  {
    var h := History(log, identity);
    var i :| 0 <= i < |h| && h[i].record.state == Ready && h[i].record.routingRevision == routingRevision;
    assert ReadyAt(h, i, routingRevision);
    forall j | 0 <= j < |h| && ReadyAt(h, j, routingRevision) ensures j == i {
      RoutesAreUnique(RecordsOf(h), i, j);
    }
  }

  /** Each executed data operation carries the routing revision of one `ready` record
      of its identity's history, and of no other. */
  lemma ExecutedUnderOneReady(w: World, turns: seq<Turn>, e: nat)
    requires Initial(w) && e < |Run(w, turns).executions|
    ensures var end := Run(w, turns);
      OneReady(History(end.log, end.executions[e].identity), end.executions[e].routingRevision)
  {
    InitialSound(w);
    RunKeepsSound(w, turns);
    var end := Run(w, turns);
    var identity, routingRevision := end.executions[e].identity, end.executions[e].routingRevision;
    assert ReadyUnder(end.log, identity, routingRevision);
    assert SoundHistory(end.records, end.log, identity);
    ReadyIsOne(end.records, end.log, identity, routingRevision);
  }

  predicate ReadyAt(history: seq<Entry>, i: nat, routingRevision: int)
    requires i < |history|
  {
    history[i].record.state == Ready && history[i].record.routingRevision == routingRevision
  }

  lemma EffectExtendsLog(w: World, p: nat, c: Choice)
    requires p < |w.processes|
    ensures Effect(w, p, c).processes == w.processes
    ensures var log := Effect(w, p, c).log;
      log == w.log || (|log| == |w.log| + 1 && log[..|w.log|] == w.log && log[|w.log|].writer == p)
  {
  }

  lemma StepWritesAfterLast(w: World, p: nat, c: Choice, identity: Identity)
    requires p < |w.processes|
    ensures var before, after := History(w.log, identity), History(Step(w, p, c).log, identity);
      after == before || (|after| == |before| + 1 && before == after[..|before|] && after[|before|].writer == p)
  {
    EffectExtendsLog(w, p, c);
    var log := Effect(w, p, c).log;
    if log != w.log {
      assert log == w.log + [log[|w.log|]];
      HistoryAppend(w.log, log[|w.log|], identity);
    }
  }

  /** What the registry took is never taken back. */
  lemma {:induction false} HistoryOnlyGrows(w: World, turns: seq<Turn>, identity: Identity)
    ensures History(w.log, identity) <= History(Run(w, turns).log, identity)
  {
    if turns != [] {
      var n := |turns| - 1;
      HistoryOnlyGrows(w, turns[..n], identity);
      if turns[n].process < |Run(w, turns[..n]).processes| {
        StepWritesAfterLast(Run(w, turns[..n]), turns[n].process, turns[n].choice, identity);
      }
    }
  }

  lemma NothingFollowsDeleted(before: seq<Entry>, after: seq<Entry>)
    requires before != [] && before[|before| - 1].record.state == Deleted
    requires before <= after && RegistryChain(after)
    ensures before == after
  {
    assert after[|before| - 1] == before[|before| - 1];
  }

  /** So a deleted instance stays deleted. */
  lemma DeletedStays(w: World, turns: seq<Turn>, identity: Identity)
    requires Sound(w) && Lookup(w.records, identity).Some? && Lookup(w.records, identity).value.state == Deleted
    ensures Lookup(Run(w, turns).records, identity) == Lookup(w.records, identity)
  {
    RunKeepsSound(w, turns);
    HistoryOnlyGrows(w, turns, identity);
    var end := Run(w, turns);
    assert SoundHistory(w.records, w.log, identity) && SoundHistory(end.records, end.log, identity);
    SoundIsChain(end.records, end.log, identity);
    NothingFollowsDeleted(History(w.log, identity), History(end.log, identity));
  }
}
