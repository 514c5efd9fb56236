/** Life cycle of a tenant instance: which state changes are allowed, and the record
    each of them writes. */
module Lifecycle {
  import opened Facts
  import opened InstanceIdentity

  datatype State = Provisioning | Ready | Suspended | Deleting | Deleted

  datatype Failure = Failure(operationId: string, message: string, recordedAt: Instant, retryable: bool)

  datatype TenantRecord = TenantRecord(
    identity: Identity,
    instanceKey: InstanceKey,
    state: State,
    revision: int,
    routingRevision: int,
    operationId: string,
    runtimeRelease: string,
    storageSchemaVersion: int,
    configSnapshot: Option<string>,
    lastFailure: Option<Failure>,
    createdAt: Instant,
    updatedAt: Instant)

  datatype Transition = Allowed(record: TenantRecord) | Invalid(from: State, to: State)

  function AllowedFrom(from: State): seq<State> {
    match from
    case Provisioning => [Ready, Deleting]
    case Ready => [Suspended, Deleting]
    case Suspended => [Ready, Deleting]
    case Deleting => [Deleted]
    case Deleted => []
  }

  predicate CanTransition(from: State, to: State) {
    to in AllowedFrom(from)
  }

  /** A deletion can be started from every state before it and then only be finished;
      an instance becomes ready first and then changes between ready and suspended. */
  lemma TransitionsAre(a: State, b: State)
    ensures b == Deleting ==> (CanTransition(a, b) <==> a != Deleting && a != Deleted)
    ensures b == Deleted ==> (CanTransition(a, b) <==> a == Deleting)
    ensures b == Ready ==> (CanTransition(a, b) <==> a == Provisioning || a == Suspended)
    ensures b == Suspended ==> (CanTransition(a, b) <==> a == Ready)
    ensures b == Provisioning ==> !CanTransition(a, b)
  {
  }

  function TransitionRecord(record: TenantRecord, to: State, operationId: string, now: Instant): Transition {
    if !CanTransition(record.state, to) then Invalid(record.state, to)
    else
      var routeChanged := to.Ready? || to.Suspended? || to.Deleting?;
      Allowed(record.(
        state := to,
        revision := record.revision + 1,
        routingRevision := if routeChanged then record.routingRevision + 1 else record.routingRevision,
        operationId := operationId,
        updatedAt := now,
        lastFailure := None))
  }

  /** A transition that is not allowed says so, with both states. */
  lemma RefusedTransition(record: TenantRecord, to: State, operationId: string, now: Instant)
    ensures TransitionRecord(record, to, operationId, now).Invalid? <==> !CanTransition(record.state, to)
    ensures !CanTransition(record.state, to) ==>
      var refused := TransitionRecord(record, to, operationId, now); refused.from == record.state && refused.to == to
  {
  }

  /** The note provisioning leaves when the instance could not be activated. */
  function NoteFailure(record: TenantRecord, failure: Failure, now: Instant): TenantRecord {
    record.(revision := record.revision + 1, updatedAt := now, lastFailure := Some(failure))
  }

  predicate IsFirst(record: TenantRecord) {
    && record.state.Provisioning? && record.revision == 1 && record.routingRevision == 0 && record.lastFailure.None?
    && record.instanceKey == ProviderInstanceKey(record.identity)
  }

  predicate IsNote(before: TenantRecord, after: TenantRecord) {
    before.state.Provisioning? && after.lastFailure.Some?
        && after == NoteFailure(before, after.lastFailure.value, after.updatedAt)
  }

  /** One registry record follows from another: an allowed transition, or a note
      that provisioning failed. */
  predicate Extends(before: TenantRecord, after: TenantRecord) {
    TransitionRecord(before, after.state, after.operationId, after.updatedAt) == Allowed(after) || IsNote(before, after)
  }

  /** Records `chain[i]` each extend the one before, starting from a first one. */
  ghost predicate Chain(chain: seq<TenantRecord>) {
    && (chain != [] ==> IsFirst(chain[0]))
    && forall i, j :: 0 <= i < j == i + 1 < |chain| ==> Extends(chain[i], chain[j])
  }

  function Stage(state: State): nat {
    match state
    case Provisioning => 0
    case Ready => 1
    case Suspended => 1
    case Deleting => 2
    case Deleted => 3
  }

  lemma {:induction false} ChainMovesOn(chain: seq<TenantRecord>, i: nat, j: nat)
    requires Chain(chain) && i <= j < |chain|
    ensures chain[i].identity == chain[j].identity && chain[i].instanceKey == chain[j].instanceKey
    ensures chain[i].runtimeRelease == chain[j].runtimeRelease && chain[i].createdAt == chain[j].createdAt
    ensures chain[i].storageSchemaVersion == chain[j].storageSchemaVersion
    ensures chain[i].configSnapshot == chain[j].configSnapshot
    ensures chain[j].revision == chain[i].revision + (j - i)
    ensures chain[i].routingRevision <= chain[j].routingRevision
    ensures i < j && (chain[j].state.Ready? || chain[j].state.Suspended? || chain[j].state.Deleting?) ==>
      chain[i].routingRevision < chain[j].routingRevision
    ensures Stage(chain[i].state) <= Stage(chain[j].state)
    decreases j
  {
    if i < j {
      ChainMovesOn(chain, i, j - 1);
      assert Extends(chain[j - 1], chain[j]);
    }
  }

  /** A record's revision is its place in the chain. */
  lemma RevisionIsPlace(chain: seq<TenantRecord>, i: nat)
    requires Chain(chain) && i < |chain|
    ensures chain[i].revision == i + 1
  {
    ChainMovesOn(chain, 0, i);
  }

  /** A routing revision names at most one record that is ready. */
  lemma RoutesAreUnique(chain: seq<TenantRecord>, i: nat, j: nat)
    requires Chain(chain) && i < |chain| && j < |chain|
    requires chain[i].state.Ready? && chain[j].state.Ready? && chain[i].routingRevision == chain[j].routingRevision
    ensures i == j
  {
    if i < j { ChainMovesOn(chain, i, j); }
    if j < i { ChainMovesOn(chain, j, i); }
  }

  lemma NothingExtendsDeleted(before: TenantRecord, after: TenantRecord)
    requires before.state.Deleted?
    ensures !Extends(before, after)
  {
  }

  /** Deleted comes last, and only straight after deleting. */
  lemma DeletedIsFinal(chain: seq<TenantRecord>, i: nat)
    requires Chain(chain) && i < |chain| && chain[i].state.Deleted?
    ensures i == |chain| - 1 && i > 0 && chain[i - 1].state.Deleting?
  {
    if i + 1 < |chain| {
      NothingExtendsDeleted(chain[i], chain[i + 1]);
    }
    if i > 0 {
      assert Extends(chain[i - 1], chain[i]);
    }
  }
}
