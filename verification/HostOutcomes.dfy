/** How admin and data requests end: completed, repeated, failed on the way, or refused. */
module HostOutcomes {
  import opened Facts
  import opened InstanceIdentity
  import opened Lifecycle
  import opened TenantRegistry
  import opened HostProtocol
  import opened HostDeletion
  import opened HostExecution
  import T = TenantDatabase

  /** The request is over and has changed nothing. */
  ghost predicate EndsQuietly(w: World, p: nat, c: Choice)
    requires p < |w.processes|
  {
    Step(w, p, c) == Become(w, p, Finished)
  }

  // Provisioning

  /** Provisioning that meets the instance ready, or another operation's record, changes
      nothing; so does one whose read fails. */
  lemma ProvisioningStops(w: World, p: nat, c: Choice)
    requires p < |w.processes| && w.processes[p].Provision?
    requires var found := Lookup(w.records, w.processes[p].identity);
      !c.reported || (found.Some?
                      && (found.value.state != Provisioning || found.value.operationId != w.processes[p].operationId))
    ensures EndsQuietly(w, p, c)
  {
  }

  lemma ResumptionReads(w: World, p: nat, identity: Identity)
    requires Reached(w) && p < |w.processes| && w.processes[p].Provision? && w.processes[p].identity == identity
    requires Lookup(w.records, identity).Some? && Lookup(w.records, identity).value.state == Provisioning
    requires Lookup(w.records, identity).value.operationId == w.processes[p].operationId
    ensures var current := Lookup(w.records, identity).value;
      current.identity == identity
      && Step(w, p, SMOOTH) == Become(w, p, Activating(current, ActivatedRecord(current)))
  {
    AnswerRecorded(w, identity);
  }

  function ActivatedRecord(current: TenantRecord): TenantRecord {
    current.(state := Ready, revision := current.revision + 1, routingRevision := current.routingRevision + 1,
             updatedAt := 0, lastFailure := None)
  }

  lemma ActivationCompletes(w: World, p: nat, identity: Identity)
    requires Reached(w) && p < |w.processes|
    requires w.processes[p].Activating? && w.processes[p].current.identity == identity
    requires w.processes[p].next == ActivatedRecord(w.processes[p].current)
    requires Lookup(w.records, identity) == Some(w.processes[p].current)
    ensures var end := Step(Step(w, p, SMOOTH), p, SMOOTH);
      Serving(end, identity) && Lookup(end.records, identity) == Some(ActivatedRecord(w.processes[p].current))
  {
    StepKeepsReached(w, p, SMOOTH);
    StepLeavesOthers(w, p, SMOOTH);
    ActivatingGoesOn(w, p);
    FinishingIsTaken(Step(w, p, SMOOTH), p, identity);
  }

  /** Provisioning that meets its own operation's record, say after a failure, takes the
      instance on from there. */
  lemma ProvisioningResumes(w: World, p: nat, identity: Identity)
    requires Reached(w) && p < |w.processes| && w.processes[p].Provision? && w.processes[p].identity == identity
    requires Lookup(w.records, identity).Some? && Lookup(w.records, identity).value.state == Provisioning
    requires Lookup(w.records, identity).value.operationId == w.processes[p].operationId
    ensures var end := Run(w, [Turn(p, SMOOTH), Turn(p, SMOOTH), Turn(p, SMOOTH)]);
      && Serving(end, identity)
      && Lookup(end.records, identity) == Some(ActivatedRecord(Lookup(w.records, identity).value))
  {
    ResumptionReads(w, p, identity);
    StepKeepsReached(w, p, SMOOTH);
    ActivationCompletes(Step(w, p, SMOOTH), p, identity);
    ThreeTurns(w, p, SMOOTH, SMOOTH);
  }

  /** The creation that loses its reply, or the race, reads again and goes on if the
      record is its operation's. */
  lemma CreationReadsAgain(w: World, p: nat, c: Choice)
    requires p < |w.processes| && w.processes[p].Creating?
    requires !Takes(w, w.processes[p].desired, None, c) || !c.reported
    ensures Step(w, p, c).processes[p] == Rereading(w.processes[p].desired.identity, w.processes[p].desired.operationId)
  {
  }

  lemma RereadingDecides(w: World, p: nat, c: Choice)
    requires p < |w.processes| && w.processes[p].Rereading?
    ensures var found := Lookup(w.records, w.processes[p].identity);
      if c.reported && found.Some? && found.value.state == Provisioning
         && found.value.operationId == w.processes[p].operationId
      then Step(w, p, c).processes[p].Activating? && Step(w, p, c).processes[p].current == found.value
      else EndsQuietly(w, p, c)
  {
  }

  /** The record with its failure noted. */
  function NotedRecord(current: TenantRecord, operationId: string, c: Choice): TenantRecord {
    current.(revision := current.revision + 1, updatedAt := c.now,
             lastFailure := Some(Failure(operationId, c.message, c.now, true)))
  }

  lemma ActivationFails(w: World, p: nat, c: Choice)
    requires Reached(w) && p < |w.processes| && w.processes[p].Activating? && !(c.arrives && c.reported)
    ensures var current, next := w.processes[p].current, w.processes[p].next;
      && Step(w, p, c).processes[p] == Noting(current, NotedRecord(current, next.operationId, c))
      && Step(w, p, c).records == w.records
  {
    ControlIsAccepted(w, p, c);
  }

  lemma NotingIsTaken(w: World, p: nat, identity: Identity)
    requires Reached(w) && p < |w.processes| && w.processes[p].Noting? && w.processes[p].current.identity == identity
    requires Lookup(w.records, identity) == Some(w.processes[p].current)
    ensures Step(w, p, SMOOTH).processes[p] == Finished
    ensures Lookup(Step(w, p, SMOOTH).records, identity) == Some(w.processes[p].next)
  {
    assert ProcessFits(w.log, w.processes[p], p);
    StoredLookup(w.records, w.processes[p].next, identity);
  }

  /** A failed activation is noted on the record, for the operation to be tried again. */
  lemma FailedActivationIsNoted(w: World, p: nat, c: Choice, identity: Identity)
    requires Reached(w) && p < |w.processes| && w.processes[p].Activating? && !(c.arrives && c.reported)
    requires w.processes[p].current.identity == identity && Lookup(w.records, identity) == Some(w.processes[p].current)
    ensures var end := Step(Step(w, p, c), p, SMOOTH);
      p < |end.processes| && end.processes[p] == Finished
      && Lookup(end.records, identity)
         == Some(NotedRecord(w.processes[p].current, w.processes[p].next.operationId, c))
  {
    StepLeavesOthers(w, p, c);
    StepKeepsReached(w, p, c);
    ActivationFails(w, p, c);
    StepLeavesOthers(Step(w, p, c), p, SMOOTH);
    NotingIsTaken(Step(w, p, c), p, identity);
  }

  // Changes

  predicate Settled(action: Action, state: State) {
    (action == ToSuspend && state == Suspended) || (action == ToResume && state == Ready)
        || (action == ToDelete && state == Deleted)
  }

  predicate Possible(action: Action, state: State) {
    (action == ToSuspend && state == Ready) || (action == ToResume && (state == Suspended || state == Provisioning))
    || (action == ToDelete && state != Deleting && state != Deleted)
  }

  /** A change that is settled already, that the state does not allow, that finds no
      record, or whose read fails, changes nothing. */
  lemma ChangeStops(w: World, p: nat, c: Choice)
    requires p < |w.processes| && w.processes[p].Change?
    requires var found := Lookup(w.records, w.processes[p].identity);
      !c.reported || found.None? || Settled(w.processes[p].action, found.value.state)
      || !Possible(w.processes[p].action, found.value.state)
    ensures EndsQuietly(w, p, c)
  {
  }

  /** A change whose control call fails writes nothing to the registry. */
  lemma FailedControlWritesNothing(w: World, p: nat, c: Choice)
    requires p < |w.processes| && (w.processes[p].Controlling? || w.processes[p].Retiring?)
             && !(c.arrives && c.reported)
    ensures Step(w, p, c).processes[p] == Finished
    ensures Step(w, p, c).records == w.records && Step(w, p, c).log == w.log
  {
  }

  /** A write that the registry refuses, or whose reply is lost, ends the change. */
  lemma FailedWriteEnds(w: World, p: nat, c: Choice)
    requires p < |w.processes| && w.processes[p].Writing?
    requires !Takes(w, w.processes[p].next, Some(w.processes[p].current), c) || !c.reported
    ensures Step(w, p, c).processes[p] == Finished
  {
  }

  lemma RetiringBinds(w: World, p: nat)
    requires Reached(w) && p < |w.processes| && w.processes[p].Retiring?
    ensures Step(w, p, SMOOTH).processes[p] == Closing(w.processes[p].current, w.processes[p].next)
    ensures Step(w, p, SMOOTH).records == w.records && Bound(Step(w, p, SMOOTH), w.processes[p].next)
  {
    ControlIsAccepted(w, p, SMOOTH);
    CalledIsPlaced(w, p);
  }

  lemma WritingGoesOn(w: World, p: nat, identity: Identity)
    requires Reached(w) && p < |w.processes| && w.processes[p].Writing? && w.processes[p].action == ToDelete
    requires w.processes[p].next.state == Deleting && w.processes[p].current.identity == identity
    requires Lookup(w.records, identity) == Some(w.processes[p].current)
    ensures var next := w.processes[p].next; var end := Step(w, p, SMOOTH);
      && Lookup(end.records, identity) == Some(next) && next.identity == identity
      && end.processes[p] == Retiring(next, DeletedRecord(next))
  {
    assert ProcessFits(w.log, w.processes[p], p);
    StoredLookup(w.records, w.processes[p].next, identity);
  }

  lemma ClosingIsTaken(w: World, p: nat, identity: Identity)
    requires Reached(w) && p < |w.processes| && w.processes[p].Closing? && w.processes[p].current.identity == identity
    requires Lookup(w.records, identity) == Some(w.processes[p].current)
    ensures Lookup(Step(w, p, SMOOTH).records, identity) == Some(w.processes[p].next)
    ensures Step(w, p, SMOOTH).tenants == w.tenants
  {
    assert ProcessFits(w.log, w.processes[p], p);
    StoredLookup(w.records, w.processes[p].next, identity);
  }

  function DeletedRecord(fenced: TenantRecord): TenantRecord {
    fenced.(state := Deleted, revision := fenced.revision + 1, updatedAt := 0, lastFailure := None)
  }

  lemma RetirementCompletes(w: World, p: nat, identity: Identity)
    requires Reached(w) && p < |w.processes| && w.processes[p].Retiring? && w.processes[p].current.identity == identity
    requires Lookup(w.records, identity) == Some(w.processes[p].current)
    ensures var end := Step(Step(w, p, SMOOTH), p, SMOOTH);
      Lookup(end.records, identity) == Some(w.processes[p].next) && Bound(end, w.processes[p].next)
  {
    StepLeavesOthers(w, p, SMOOTH);
    StepKeepsReached(w, p, SMOOTH);
    RetiringBinds(w, p);
    ClosingIsTaken(Step(w, p, SMOOTH), p, identity);
  }

  lemma DeletionAfterReply(w: World, p: nat, identity: Identity)
    requires Reached(w) && p < |w.processes| && w.processes[p].Writing? && w.processes[p].action == ToDelete
    requires w.processes[p].next.state == Deleting && w.processes[p].current.identity == identity
    requires Lookup(w.records, identity) == Some(w.processes[p].current)
    ensures var deleted := DeletedRecord(w.processes[p].next);
      var end := Run(w, [Turn(p, SMOOTH), Turn(p, SMOOTH), Turn(p, SMOOTH)]);
      Lookup(end.records, identity) == Some(deleted) && Bound(end, deleted)
  {
    StepLeavesOthers(w, p, SMOOTH);
    StepKeepsReached(w, p, SMOOTH);
    WritingGoesOn(w, p, identity);
    RetirementCompletes(Step(w, p, SMOOTH), p, identity);
    ThreeTurns(w, p, SMOOTH, SMOOTH);
  }

  /** A deletion that loses no message fences the instance under a new route and leaves
      both the record and the object deleted. */
  lemma SmoothDeletion(w: World, p: nat, identity: Identity)
    requires Reached(w) && p < |w.processes| && w.processes[p].Change? && w.processes[p].action == ToDelete
    requires w.processes[p].identity == identity
    requires Lookup(w.records, identity).Some? && Lookup(w.records, identity).value.state == Ready
    ensures var deleted := DeletedRecord(FencedRecord(Lookup(w.records, identity).value, w.processes[p].operationId));
      var end := Run(Run(w, [Turn(p, SMOOTH), Turn(p, SMOOTH)]), [Turn(p, SMOOTH), Turn(p, SMOOTH), Turn(p, SMOOTH)]);
      Lookup(end.records, identity) == Some(deleted) && Bound(end, deleted)
  {
    StepLeavesOthers(w, p, SMOOTH);
    RunTwo(w, p, SMOOTH, p, SMOOTH);
    DeletionBeforeReply(w, p, identity);
    DeletionAfterReply(Run(w, [Turn(p, SMOOTH), Turn(p, SMOOTH)]), p, identity);
  }

  // Data requests

  /** A request that the registry does not send to a ready instance, or sends with a
      route that is not the instance's, ends there. */
  lemma RequestStops(w: World, p: nat, c: Choice)
    requires p < |w.processes| && w.processes[p].DataRequest?
    requires var found := Lookup(w.records, w.processes[p].identity);
      !c.reported || found.None? || found.value.state != Ready
          || found.value.routingRevision != w.processes[p].routingRevision
    ensures EndsQuietly(w, p, c)
  {
  }

  /** An object that is not bound or not ready lets no request in. */
  lemma ObjectRefuses(w: World, p: nat, c: Choice)
    requires p < |w.processes| && w.processes[p].Forwarding?
    requires var key := w.processes[p].record.instanceKey;
      !c.arrives || key !in w.tenants || w.tenants[key].state != Ready
    ensures EndsQuietly(w, p, c)
  {
  }
}
