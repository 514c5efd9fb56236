/** Deletions that stop half way: which ones can still be finished, and a run in
    which one cannot. */
module HostDeletion {
  import opened Facts
  import opened InstanceIdentity
  import opened Lifecycle
  import opened TenantRegistry
  import opened HostProtocol
  import T = TenantDatabase

  /** The last record of the identity is `deleting`, and the request that wrote it
      is over. */
  ghost predicate Abandoned(w: World, identity: Identity) {
    var h := History(w.log, identity);
    && h != [] && h[|h| - 1].record.state == Deleting
    && h[|h| - 1].writer < |w.processes| && w.processes[h[|h| - 1].writer] == Finished
  }

  lemma FinishedStays(w: World, p: nat, c: Choice, q: nat)
    requires p < |w.processes| && q < |w.processes| && w.processes[q] == Finished
    ensures q < |Step(w, p, c).processes| && Step(w, p, c).processes[q] == Finished
    ensures p == q ==> Step(w, p, c).log == w.log
  {
    EffectExtendsLog(w, p, c);
  }

  /** Only the request that wrote `deleting` can write after it. */
  lemma NextAfterDeleting(w: World, h: seq<Entry>, n: nat, identity: Identity)
    requires SoundHistory(w.records, w.log, identity) && h == History(w.log, identity)
    requires 0 < n < |h| && h[n - 1].record.state == Deleting
    ensures h[n].writer == h[n - 1].writer
  {
    assert Extends(RecordsOf(h)[n - 1], RecordsOf(h)[n]);
  }

  lemma NothingAfterAbandoned(w: World, p: nat, c: Choice, identity: Identity)
    requires Sound(w) && Abandoned(w, identity) && p < |w.processes|
    requires p != History(w.log, identity)[|History(w.log, identity)| - 1].writer
    ensures History(Step(w, p, c).log, identity) == History(w.log, identity)
  {
    var before, after := History(w.log, identity), History(Step(w, p, c).log, identity);
    StepKeeps(w, p, c);
    StepWritesAfterLast(w, p, c, identity);
    assert SoundHistory(Step(w, p, c).records, Step(w, p, c).log, identity);
    if |after| > |before| {
      NextAfterDeleting(Step(w, p, c), after, |before|, identity);
    }
  }

  lemma AbandonedStep(w: World, p: nat, c: Choice, identity: Identity)
    requires Sound(w) && Abandoned(w, identity) && p < |w.processes|
    ensures History(Step(w, p, c).log, identity) == History(w.log, identity) && Abandoned(Step(w, p, c), identity)
  {
    var before := History(w.log, identity);
    var writer := before[|before| - 1].writer;
    FinishedStays(w, p, c, writer);
    if p != writer {
      NothingAfterAbandoned(w, p, c, identity);
    }
  }

  /** Nothing any request does can finish a deletion whose own request ended, or
      bring the instance back: its record stays `deleting` in every later run. */
  lemma {:induction false} AbandonedDeletionIsStuck(w: World, turns: seq<Turn>, identity: Identity)
    requires Sound(w) && Abandoned(w, identity)
    ensures History(Run(w, turns).log, identity) == History(w.log, identity)
    ensures Lookup(Run(w, turns).records, identity) == Lookup(w.records, identity)
    ensures Abandoned(Run(w, turns), identity)
  {
    RunKeepsSound(w, turns);
    if turns != [] {
      var n := |turns| - 1;
      var before := Run(w, turns[..n]);
      RunKeepsSound(w, turns[..n]);
      AbandonedDeletionIsStuck(w, turns[..n], identity);
      if turns[n].process < |before.processes| {
        AbandonedStep(before, turns[n].process, turns[n].choice, identity);
      }
    }
    assert SoundHistory(w.records, w.log, identity);
    assert SoundHistory(Run(w, turns).records, Run(w, turns).log, identity);
  }

  // Every tenant object is bound to the identity it is named after

  ghost predicate Placed(w: World) {
    forall key | key in w.tenants :: ProviderInstanceKey(w.tenants[key].identity) == key
  }

  lemma RecordedIsPlaced(w: World, record: TenantRecord)
    requires Sound(w) && Recorded(w.log, record)
    ensures record.instanceKey == ProviderInstanceKey(record.identity)
  {
    assert SoundHistory(w.records, w.log, record.identity);
    ChainMovesOn(RecordsOf(History(w.log, record.identity)), 0, record.revision - 1);
  }

  lemma ExtendingKeepsKey(before: TenantRecord, after: TenantRecord)
    requires Extends(before, after)
    ensures after.instanceKey == before.instanceKey && after.identity == before.identity
  {
  }

  lemma CalledIsPlaced(w: World, p: nat)
    requires Sound(w) && p < |w.processes|
    requires w.processes[p].Activating? || w.processes[p].Controlling? || w.processes[p].Retiring?
    ensures w.processes[p].next.instanceKey == ProviderInstanceKey(w.processes[p].next.identity)
  {
    assert ProcessFits(w.log, w.processes[p], p);
    RecordedIsPlaced(w, w.processes[p].current);
    ExtendingKeepsKey(w.processes[p].current, w.processes[p].next);
  }

  lemma CallKeepsPlaced(w: World, record: TenantRecord, c: Choice)
    requires Placed(w) && record.instanceKey == ProviderInstanceKey(record.identity)
    ensures Placed(CallControl(w, record, c))
  {
  }

  lemma OthersKeepTenants(w: World, p: nat, c: Choice)
    requires p < |w.processes|
    requires !(w.processes[p].Activating? || w.processes[p].Controlling? || w.processes[p].Retiring?)
    ensures Effect(w, p, c).tenants == w.tenants
  {
  }

  lemma EffectKeepsPlaced(w: World, p: nat, c: Choice)
    requires Sound(w) && Placed(w) && p < |w.processes|
    ensures Placed(Effect(w, p, c))
  {
    if w.processes[p].Activating? || w.processes[p].Controlling? || w.processes[p].Retiring? {
      CalledIsPlaced(w, p);
      CallKeepsPlaced(w, w.processes[p].next, c);
    } else {
      OthersKeepTenants(w, p, c);
    }
  }

  lemma StepKeepsPlaced(w: World, p: nat, c: Choice)
    requires Sound(w) && Placed(w) && p < |w.processes|
    ensures Placed(Step(w, p, c))
  {
    EffectKeepsPlaced(w, p, c);
    assert Step(w, p, c).tenants == Effect(w, p, c).tenants;
  }

  /** So a tenant object refuses no control call of the host. */
  lemma ControlIsAccepted(w: World, p: nat, c: Choice)
    requires Sound(w) && Placed(w) && p < |w.processes|
    requires w.processes[p].Activating? || w.processes[p].Controlling? || w.processes[p].Retiring?
    ensures Binds(w, w.processes[p].next, c) <==> c.arrives
  {
    var next := w.processes[p].next;
    CalledIsPlaced(w, p);
    if next.instanceKey in w.tenants {
      ProviderKeyInjective(w.tenants[next.instanceKey].identity, next.identity);
    }
  }

  // Who can finish a deletion

  /** The request is over, or on its way from `deleting` to `deleted`. */
  ghost predicate Holds(process: Process, record: TenantRecord) {
    process == Finished || ((process.Retiring? || process.Closing?) && process.current == record)
  }

  ghost predicate Held(w: World, identity: Identity) {
    var h := History(w.log, identity);
    h != [] && h[|h| - 1].record.state == Deleting ==>
      h[|h| - 1].writer < |w.processes| && Holds(w.processes[h[|h| - 1].writer], h[|h| - 1].record)
  }

  lemma SetWrites(w: World, p: nat, record: TenantRecord, read: Option<TenantRecord>, c: Choice, entry: Entry)
    requires CompareAndSet(w, p, record, read, c).log == w.log + [entry]
    ensures entry == Entry(record, read, p) && Takes(w, record, read, c)
  {
    assert (w.log + [entry])[|w.log|] == entry;
  }

  /** The writer of a new `deleting` record goes on to retire the instance, or is over. */
  lemma WriterGoesOn(w: World, p: nat, c: Choice, entry: Entry)
    requires Sound(w) && p < |w.processes| && Effect(w, p, c).log == w.log + [entry] && entry.record.state == Deleting
    ensures entry.writer == p && Holds(Resume(w, p, c), entry.record)
  {
    assert ProcessFits(w.log, w.processes[p], p);
    match w.processes[p]
    case Creating(desired) => SetWrites(w, p, desired, None, c, entry);
    case Noting(current, next) => SetWrites(w, p, next, Some(current), c, entry);
    case Finishing(current, next) => SetWrites(w, p, next, Some(current), c, entry);
    case Writing(_, current, next) => SetWrites(w, p, next, Some(current), c, entry);
    case Closing(current, next) => SetWrites(w, p, next, Some(current), c, entry);
    case _ =>
  }

  lemma WriterHolds(w: World, p: nat, c: Choice, identity: Identity)
    requires Sound(w) && p < |w.processes|
    requires History(Step(w, p, c).log, identity) != History(w.log, identity)
    ensures Held(Step(w, p, c), identity)
  {
    EffectExtendsLog(w, p, c);
    var entry := Effect(w, p, c).log[|w.log|];
    assert Effect(w, p, c).log == w.log + [entry];
    HistoryAppend(w.log, entry, identity);
    if entry.record.state == Deleting { WriterGoesOn(w, p, c, entry); }
  }

  lemma HolderGoesOn(w: World, p: nat, c: Choice, record: TenantRecord)
    requires p < |w.processes| && Holds(w.processes[p], record)
    ensures Holds(Resume(w, p, c), record)
  {
  }

  lemma StepKeepsHeld(w: World, p: nat, c: Choice, identity: Identity)
    requires Sound(w) && Held(w, identity) && p < |w.processes|
    ensures Held(Step(w, p, c), identity)
  {
    StepWritesAfterLast(w, p, c, identity);
    EffectExtendsLog(w, p, c);
    var h := History(w.log, identity);
    if History(Step(w, p, c).log, identity) != h {
      WriterHolds(w, p, c, identity);
    } else if h != [] && h[|h| - 1].record.state == Deleting && h[|h| - 1].writer == p {
      HolderGoesOn(w, p, c, h[|h| - 1].record);
    }
  }

  ghost predicate Reached(w: World) {
    Sound(w) && Placed(w) && forall identity :: Held(w, identity)
  }

  lemma StepKeepsReached(w: World, p: nat, c: Choice)
    requires Reached(w) && p < |w.processes|
    ensures Reached(Step(w, p, c))
  {
    StepKeeps(w, p, c);
    StepKeepsPlaced(w, p, c);
    forall identity ensures Held(Step(w, p, c), identity) {
      StepKeepsHeld(w, p, c, identity);
    }
  }

  lemma {:induction false} RunKeepsReached(w: World, turns: seq<Turn>)
    requires Reached(w)
    ensures Reached(Run(w, turns))
  {
    if turns != [] {
      var n := |turns| - 1;
      RunKeepsReached(w, turns[..n]);
      if turns[n].process < |Run(w, turns[..n]).processes| {
        StepKeepsReached(Run(w, turns[..n]), turns[n].process, turns[n].choice);
      }
    }
  }

  lemma InitialReached(w: World)
    requires Initial(w)
    ensures Reached(w)
  {
    InitialSound(w);
    forall identity ensures Held(w, identity) {
      assert History(w.log, identity) == [];
    }
  }

  // Finishing a deletion

  predicate IsDeleted(w: World, identity: Identity) {
    Lookup(w.records, identity).Some? && Lookup(w.records, identity).value.state == Deleted
  }

  ghost predicate CanFinish(w: World, identity: Identity) {
    exists turns :: IsDeleted(Run(w, turns), identity)
  }

  predicate LastIsDeleting(w: World, identity: Identity) {
    var h := History(w.log, identity);
    h != [] && h[|h| - 1].record.state == Deleting
  }

  function LastWriter(w: World, identity: Identity): nat
    requires LastIsDeleting(w, identity)
  {
    History(w.log, identity)[|History(w.log, identity)| - 1].writer
  }

  /** A step in which every message and every reply arrives. */
  const SMOOTH := Choice(0, true, true, "")

  lemma RunOne(w: World, p: nat, c: Choice)
    requires p < |w.processes|
    ensures Run(w, [Turn(p, c)]) == Step(w, p, c)
  {
    assert [Turn(p, c)][..0] == [];
  }

  lemma RunTwo(w: World, p: nat, c: Choice, q: nat, d: Choice)
    requires p < |w.processes| && q < |Step(w, p, c).processes|
    ensures Run(w, [Turn(p, c), Turn(q, d)]) == Step(Step(w, p, c), q, d)
  {
    assert [Turn(p, c), Turn(q, d)][..1] == [Turn(p, c)];
    RunOne(w, p, c);
  }

  lemma ClosingFinishes(w: World, p: nat, identity: Identity)
    requires Reached(w) && LastIsDeleting(w, identity) && p == LastWriter(w, identity) && p < |w.processes|
             && w.processes[p].Closing?
    ensures IsDeleted(Step(w, p, SMOOTH), identity)
  {
    assert Held(w, identity) && SoundHistory(w.records, w.log, identity) && ProcessFits(w.log, w.processes[p], p);
    StoredLookup(w.records, w.processes[p].next, identity);
  }

  lemma RetiringCloses(w: World, p: nat, identity: Identity)
    requires Reached(w) && LastIsDeleting(w, identity) && p == LastWriter(w, identity) && p < |w.processes|
             && w.processes[p].Retiring?
    ensures var next := Step(w, p, SMOOTH);
      LastIsDeleting(next, identity) && p == LastWriter(next, identity) && p < |next.processes|
          && next.processes[p].Closing?
  {
    ControlIsAccepted(w, p, SMOOTH);
  }

  lemma HolderFinishes(w: World, identity: Identity)
    requires Reached(w) && LastIsDeleting(w, identity) && !Abandoned(w, identity)
    ensures CanFinish(w, identity)
  {
    var p := LastWriter(w, identity);
    assert Held(w, identity);
    if w.processes[p].Retiring? {
      RetiringCloses(w, p, identity);
      StepKeepsReached(w, p, SMOOTH);
      ClosingFinishes(Step(w, p, SMOOTH), p, identity);
      RunTwo(w, p, SMOOTH, p, SMOOTH);
      assert IsDeleted(Run(w, [Turn(p, SMOOTH), Turn(p, SMOOTH)]), identity);
    } else {
      ClosingFinishes(w, p, identity);
      RunOne(w, p, SMOOTH);
      assert IsDeleted(Run(w, [Turn(p, SMOOTH)]), identity);
    }
  }

  lemma AbandonedCannotFinish(w: World, identity: Identity)
    requires Reached(w) && Abandoned(w, identity)
    ensures !CanFinish(w, identity)
  {
    assert SoundHistory(w.records, w.log, identity);
    forall turns ensures !IsDeleted(Run(w, turns), identity) {
      AbandonedDeletionIsStuck(w, turns, identity);
    }
  }

  /** In every run, a deletion that has got to `deleting` can still get to `deleted`
      just when the request that wrote `deleting` is not over. */
  lemma DeletionFinishesIff(w: World, turns: seq<Turn>, identity: Identity)
    requires Initial(w) && LastIsDeleting(Run(w, turns), identity)
    ensures var now := Run(w, turns); var writer := LastWriter(now, identity);
      writer < |now.processes| && (CanFinish(now, identity) <==> now.processes[writer] != Finished)
  {
    InitialReached(w);
    RunKeepsReached(w, turns);
    var now := Run(w, turns);
    assert Held(now, identity);
    if now.processes[LastWriter(now, identity)] == Finished {
      AbandonedCannotFinish(now, identity);
    } else {
      HolderFinishes(now, identity);
    }
  }

  // A run that ends in such a deletion

  /** A step whose message arrives and whose reply does not. */
  const LOST := Choice(0, true, false, "")

  lemma {:induction false} RunAppend(w: World, a: seq<Turn>, b: seq<Turn>)
    ensures Run(w, a + b) == Run(Run(w, a), b)
  {
    if b == [] {
      assert a + b == a;
    } else {
      var n := |b| - 1;
      RunAppend(w, a, b[..n]);
      assert (a + b)[..|a + b| - 1] == a + b[..n];
    }
  }

  lemma ProvisionReads(w: World, p: nat)
    requires Initial(w) && p < |w.processes| && w.processes[p].Provision?
    ensures var next := Step(w, p, SMOOTH);
      next.processes[p] == Creating(DesiredRecord(w.processes[p], 0)) && next == w.(processes := next.processes)
  {
  }

  lemma CreatingIsTaken(w: World, p: nat, desired: TenantRecord)
    requires p < |w.processes| && w.processes[p] == Creating(desired) && desired.state == Provisioning
    requires Lookup(w.records, desired.identity).None?
    ensures var next := Step(w, p, SMOOTH);
      && Lookup(next.records, desired.identity) == Some(desired)
      && next.processes[p].Activating? && next.processes[p].current == desired
      && next.processes[p].next
         == desired.(state := Ready, revision := desired.revision + 1, routingRevision := desired.routingRevision + 1,
                     updatedAt := 0, lastFailure := None)
  {
    StoredLookup(w.records, desired, desired.identity);
  }

  /** The object named after the record's identity has the record's route and state. */
  ghost predicate Bound(w: World, record: TenantRecord) {
    var key := ProviderInstanceKey(record.identity);
    key in w.tenants && w.tenants[key] == T.Binding(record.identity, record.routingRevision, record.state)
  }

  lemma ActivatingGoesOn(w: World, p: nat)
    requires Sound(w) && Placed(w) && p < |w.processes| && w.processes[p].Activating?
    ensures Step(w, p, SMOOTH).processes[p] == Finishing(w.processes[p].current, w.processes[p].next)
    ensures Step(w, p, SMOOTH).records == w.records
    ensures Bound(Step(w, p, SMOOTH), w.processes[p].next)
  {
    ControlIsAccepted(w, p, SMOOTH);
    CalledIsPlaced(w, p);
  }

  lemma FinishingIsTaken(w: World, p: nat, identity: Identity)
    requires Sound(w) && p < |w.processes| && w.processes[p].Finishing?
    requires Lookup(w.records, identity) == Some(w.processes[p].current) && w.processes[p].current.identity == identity
    ensures Lookup(Step(w, p, SMOOTH).records, identity) == Some(w.processes[p].next)
    ensures Step(w, p, SMOOTH).tenants == w.tenants
  {
    assert ProcessFits(w.log, w.processes[p], p);
    StoredLookup(w.records, w.processes[p].next, identity);
  }

  lemma StepLeavesOthers(w: World, p: nat, c: Choice)
    requires p < |w.processes|
    ensures |Step(w, p, c).processes| == |w.processes|
    ensures forall q :: 0 <= q < |w.processes| && q != p ==> Step(w, p, c).processes[q] == w.processes[q]
  {
    EffectExtendsLog(w, p, c);
  }

  lemma FourTurns(w: World, p: nat, c: Choice)
    requires p < |w.processes|
    ensures Run(w, [Turn(p, c), Turn(p, c), Turn(p, c), Turn(p, c)])
            == Step(Step(Step(Step(w, p, c), p, c), p, c), p, c)
  {
    StepLeavesOthers(w, p, c);
    StepLeavesOthers(Step(w, p, c), p, c);
    StepLeavesOthers(Step(Step(w, p, c), p, c), p, c);
    RunTwo(w, p, c, p, c);
    RunTwo(Step(Step(w, p, c), p, c), p, c, p, c);
    RunAppend(w, [Turn(p, c), Turn(p, c)], [Turn(p, c), Turn(p, c)]);
    assert [Turn(p, c), Turn(p, c)] + [Turn(p, c), Turn(p, c)] == [Turn(p, c), Turn(p, c), Turn(p, c), Turn(p, c)];
  }

  /** The record that provisioning ends with. */
  function ReadyRecord(identity: Identity, operationId: string, release: string): TenantRecord {
    TenantRecord(identity, ProviderInstanceKey(identity), Ready, 2, 1, operationId, release, 1, None, None, 0, 0)
  }

  /** Provisioning that loses no message makes the instance ready, on its first route. */
  lemma SmoothProvisioning(w: World, p: nat, identity: Identity)
    requires Initial(w) && p < |w.processes| && w.processes[p].Provision? && w.processes[p].identity == identity
    ensures var end := Run(w, [Turn(p, SMOOTH), Turn(p, SMOOTH), Turn(p, SMOOTH), Turn(p, SMOOTH)]);
      && Lookup(end.records, identity)
         == Some(ReadyRecord(identity, w.processes[p].operationId, w.processes[p].release))
      && Bound(end, Lookup(end.records, identity).value)
      && |end.processes| == |w.processes| && forall q :: 0 <= q < |w.processes| && q != p ==>
        end.processes[q] == w.processes[q]
  {
    var a := Step(w, p, SMOOTH);
    var b := Step(a, p, SMOOTH);
    var c := Step(b, p, SMOOTH);
    StepLeavesOthers(w, p, SMOOTH);
    StepLeavesOthers(a, p, SMOOTH);
    StepLeavesOthers(b, p, SMOOTH);
    StepLeavesOthers(c, p, SMOOTH);
    InitialReached(w);
    StepKeepsReached(w, p, SMOOTH);
    StepKeepsReached(a, p, SMOOTH);
    StepKeepsReached(b, p, SMOOTH);
    ProvisionReads(w, p);
    CreatingIsTaken(a, p, DesiredRecord(w.processes[p], 0));
    ActivatingGoesOn(b, p);
    FinishingIsTaken(c, p, identity);
    FourTurns(w, p, SMOOTH);
  }

  /** The record that a delete request writes first. */
  function FencedRecord(current: TenantRecord, operationId: string): TenantRecord {
    current.(state := Deleting, revision := current.revision + 1, routingRevision := current.routingRevision + 1,
             operationId := operationId, updatedAt := 0, lastFailure := None)
  }

  lemma DeleteReads(w: World, p: nat, identity: Identity)
    requires Sound(w) && p < |w.processes| && w.processes[p].Change? && w.processes[p].action == ToDelete
    requires w.processes[p].identity == identity
    requires Lookup(w.records, identity).Some? && Lookup(w.records, identity).value.state == Ready
    ensures var next := Step(w, p, SMOOTH); var process := next.processes[p];
      && process.Controlling? && process.action == ToDelete && Some(process.current) == Lookup(w.records, identity)
      && process.current.identity == identity && next.records == w.records
      && process.next == FencedRecord(process.current, w.processes[p].operationId)
  {
    AnswerRecorded(w, identity);
  }

  lemma ControllingGoesOn(w: World, p: nat)
    requires Sound(w) && Placed(w) && p < |w.processes| && w.processes[p].Controlling?
    ensures Step(w, p, SMOOTH).processes[p]
            == Writing(w.processes[p].action, w.processes[p].current, w.processes[p].next)
    ensures Step(w, p, SMOOTH).records == w.records
  {
    ControlIsAccepted(w, p, SMOOTH);
  }

  lemma LostReplyAbandons(w: World, p: nat, identity: Identity)
    requires Sound(w) && p < |w.processes| && w.processes[p].Writing? && w.processes[p].next.state == Deleting
    requires Lookup(w.records, identity) == Some(w.processes[p].current) && w.processes[p].current.identity == identity
    ensures Abandoned(Step(w, p, LOST), identity)
  {
    assert ProcessFits(w.log, w.processes[p], p);
    HistoryAppend(w.log, Entry(w.processes[p].next, Some(w.processes[p].current), p), identity);
  }

  lemma ThreeTurns(w: World, p: nat, c: Choice, d: Choice)
    requires p < |w.processes|
    ensures Run(w, [Turn(p, c), Turn(p, c), Turn(p, d)]) == Step(Step(Step(w, p, c), p, c), p, d)
  {
    StepLeavesOthers(w, p, c);
    StepLeavesOthers(Step(w, p, c), p, c);
    RunTwo(w, p, c, p, c);
    RunOne(Step(Step(w, p, c), p, c), p, d);
    RunAppend(w, [Turn(p, c), Turn(p, c)], [Turn(p, d)]);
    assert [Turn(p, c), Turn(p, c)] + [Turn(p, d)] == [Turn(p, c), Turn(p, c), Turn(p, d)];
  }

  lemma DeletionBeforeReply(w: World, p: nat, identity: Identity)
    requires Reached(w) && p < |w.processes| && w.processes[p].Change? && w.processes[p].action == ToDelete
    requires w.processes[p].identity == identity
    requires Lookup(w.records, identity).Some? && Lookup(w.records, identity).value.state == Ready
    ensures var asked := Step(Step(w, p, SMOOTH), p, SMOOTH);
      && Reached(asked) && p < |asked.processes| && asked.processes[p].Writing?
      && asked.processes[p].action == ToDelete
      && asked.processes[p].next == FencedRecord(asked.processes[p].current, w.processes[p].operationId)
      && Lookup(asked.records, identity) == Some(asked.processes[p].current) == Lookup(w.records, identity)
      && asked.processes[p].current.identity == identity
  {
    StepLeavesOthers(w, p, SMOOTH);
    StepLeavesOthers(Step(w, p, SMOOTH), p, SMOOTH);
    StepKeepsReached(w, p, SMOOTH);
    StepKeepsReached(Step(w, p, SMOOTH), p, SMOOTH);
    DeleteReads(w, p, identity);
    ControllingGoesOn(Step(w, p, SMOOTH), p);
  }

  /** A deletion of a ready instance is abandoned when the registry's reply to
      `deleting` is lost. */
  lemma DeletionWithLostReply(w: World, p: nat, identity: Identity)
    requires Reached(w) && p < |w.processes| && w.processes[p].Change? && w.processes[p].action == ToDelete
    requires w.processes[p].identity == identity
    requires Lookup(w.records, identity).Some? && Lookup(w.records, identity).value.state == Ready
    ensures Abandoned(Run(w, [Turn(p, SMOOTH), Turn(p, SMOOTH), Turn(p, LOST)]), identity)
  {
    DeletionBeforeReply(w, p, identity);
    LostReplyAbandons(Step(Step(w, p, SMOOTH), p, SMOOTH), p, identity);
    ThreeTurns(w, p, SMOOTH, LOST);
  }

  /** Provision an instance, then delete it and lose that one reply: a run in which
      the deletion can never be finished. */
  lemma SomeDeletionIsStuck(w: World, identity: Identity, operation: string, release: string) returns (turns: seq<Turn>)
    requires Initial(w) && |w.processes| >= 2
    requires w.processes[0] == Provision(identity, operation, release)
    requires w.processes[1] == Change(ToDelete, identity, operation)
    ensures LastIsDeleting(Run(w, turns), identity) && !CanFinish(Run(w, turns), identity)
  {
    var first := [Turn(0, SMOOTH), Turn(0, SMOOTH), Turn(0, SMOOTH), Turn(0, SMOOTH)];
    var second := [Turn(1, SMOOTH), Turn(1, SMOOTH), Turn(1, LOST)];
    turns := first + second;
    InitialReached(w);
    RunKeepsReached(w, first);
    RunKeepsReached(w, turns);
    SmoothProvisioning(w, 0, identity);
    DeletionWithLostReply(Run(w, first), 1, identity);
    RunAppend(w, first, second);
    AbandonedCannotFinish(Run(w, turns), identity);
  }
}
