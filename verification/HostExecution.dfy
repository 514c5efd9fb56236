/** Data requests: what they ran under, and what a changed route does to one that is
    still on its way. */
module HostExecution {
  import opened Facts
  import opened InstanceIdentity
  import opened Lifecycle
  import opened TenantRegistry
  import opened HostProtocol
  import opened HostDeletion
  import T = TenantDatabase

  /** A tenant object had this binding, and was ready, at some point of the run. */
  ghost predicate WasBound(w: World, turns: seq<Turn>, bound: T.Binding) {
    bound.state == Ready && exists n :: 0 <= n <= |turns| && BoundAfter(w, turns, n, bound)
  }

  ghost predicate BoundAfter(w: World, turns: seq<Turn>, n: nat, bound: T.Binding)
    requires n <= |turns|
  {
    var tenants := Run(w, turns[..n]).tenants;
    ProviderInstanceKey(bound.identity) in tenants && tenants[ProviderInstanceKey(bound.identity)] == bound
  }

  lemma ExecutingDecides(w: World, p: nat, c: Choice, bound: T.Binding, identity: Identity, routingRevision: int)
    requires p < |w.processes| && w.processes[p] == Executing(bound, identity, routingRevision)
    ensures Effect(w, p, c).executions == w.executions
              + if bound.identity == identity && bound.routingRevision == routingRevision
                then [Execution(identity, routingRevision, bound)] else []
  {
    SameKeyIffSameIdentity(bound.identity, identity);
  }

  lemma OthersExecuteNothing(w: World, p: nat, c: Choice)
    requires p < |w.processes| && !w.processes[p].Executing?
    ensures Effect(w, p, c).executions == w.executions
  {
  }

  /** The object checks the route again: a request executes exactly when the binding
      it was admitted under has its own identity and its own routing revision. */
  lemma ExecutesOnOwnRoute(w: World, p: nat, c: Choice)
    requires p < |w.processes|
    ensures w.processes[p].Executing? ==>
      var process := w.processes[p];
      Step(w, p, c).executions == w.executions
        + if process.bound.identity == process.identity && process.bound.routingRevision == process.routingRevision
          then [Execution(process.identity, process.routingRevision, process.bound)] else []
    ensures !w.processes[p].Executing? ==> Step(w, p, c).executions == w.executions
  {
    assert Step(w, p, c).executions == Effect(w, p, c).executions;
    var process := w.processes[p];
    if process.Executing? {
      ExecutingDecides(w, p, c, process.bound, process.identity, process.routingRevision);
    } else {
      OthersExecuteNothing(w, p, c);
    }
  }

  ghost predicate RequestsBound(w: World, turns: seq<Turn>, processes: seq<Process>) {
    forall p :: 0 <= p < |processes| && processes[p].Executing? ==> WasBound(w, turns, processes[p].bound)
  }

  ghost predicate AllOnOwnRoute(w: World, turns: seq<Turn>, executions: seq<Execution>) {
    forall e :: 0 <= e < |executions| ==> RanOnOwnRoute(w, turns, executions[e])
  }

  ghost predicate Admitted(w: World, turns: seq<Turn>) {
    RequestsBound(w, turns, Run(w, turns).processes) && AllOnOwnRoute(w, turns, Run(w, turns).executions)
  }

  /** The execution ran under a binding of its own identity and routing revision, which
      the tenant object had, ready, at some point of the run. */
  ghost predicate RanOnOwnRoute(w: World, turns: seq<Turn>, e: Execution) {
    && e.bound.identity == e.identity && e.bound.routingRevision == e.routingRevision
    && WasBound(w, turns, e.bound)
  }

  lemma BoundStays(w: World, turns: seq<Turn>, turn: Turn, bound: T.Binding)
    requires WasBound(w, turns, bound)
    ensures WasBound(w, turns + [turn], bound)
  {
    var n :| 0 <= n <= |turns| && BoundAfter(w, turns, n, bound);
    assert (turns + [turn])[..n] == turns[..n];
    assert BoundAfter(w, turns + [turn], n, bound);
  }

  /** A request enters an object under the binding that the object has. */
  lemma EntersUnderBinding(w: World, p: nat, c: Choice)
    requires Placed(w) && p < |w.processes| && Resume(w, p, c).Executing?
    ensures var bound := Resume(w, p, c).bound;
      && bound.state == Ready && ProviderInstanceKey(bound.identity) in w.tenants
      && w.tenants[ProviderInstanceKey(bound.identity)] == bound
  {
    assert w.processes[p].Forwarding?;
    var key := w.processes[p].record.instanceKey;
    assert key in w.tenants && Resume(w, p, c).bound == w.tenants[key];
  }

  lemma AdmittedStays(w: World, turns: seq<Turn>, turn: Turn, processes: seq<Process>, executions: seq<Execution>)
    requires RequestsBound(w, turns, processes) && AllOnOwnRoute(w, turns, executions)
    ensures RequestsBound(w, turns + [turn], processes) && AllOnOwnRoute(w, turns + [turn], executions)
  {
    forall p | 0 <= p < |processes| && processes[p].Executing?
      ensures WasBound(w, turns + [turn], processes[p].bound)
    {
      BoundStays(w, turns, turn, processes[p].bound);
    }
    forall e | 0 <= e < |executions| ensures RanOnOwnRoute(w, turns + [turn], executions[e]) {
      assert RanOnOwnRoute(w, turns, executions[e]);
      BoundStays(w, turns, turn, executions[e].bound);
    }
  }

  lemma RunNext(w: World, turns: seq<Turn>, turn: Turn)
    ensures var before := Run(w, turns);
      Run(w, turns + [turn])
      == if turn.process < |before.processes| then Step(before, turn.process, turn.choice) else before
  {
    assert (turns + [turn])[..|turns|] == turns;
  }

  lemma EnteredWasBound(w: World, turns: seq<Turn>, turn: Turn)
    requires Placed(Run(w, turns)) && turn.process < |Run(w, turns).processes|
    requires Resume(Run(w, turns), turn.process, turn.choice).Executing?
    ensures WasBound(w, turns + [turn], Resume(Run(w, turns), turn.process, turn.choice).bound)
  {
    var bound := Resume(Run(w, turns), turn.process, turn.choice).bound;
    EntersUnderBinding(Run(w, turns), turn.process, turn.choice);
    assert (turns + [turn])[..|turns|] == turns;
    assert BoundAfter(w, turns + [turn], |turns|, bound);
  }

  lemma StepProcesses(w: World, p: nat, c: Choice)
    requires p < |w.processes|
    ensures Step(w, p, c).processes == w.processes[p := Resume(w, p, c)]
  {
    EffectExtendsLog(w, p, c);
  }

  lemma OneMoreBound(w: World, turns: seq<Turn>, processes: seq<Process>, p: nat, process: Process)
    requires RequestsBound(w, turns, processes) && p < |processes|
    requires process.Executing? ==> WasBound(w, turns, process.bound)
    ensures RequestsBound(w, turns, processes[p := process])
  {
  }

  lemma NextRequestsBound(w: World, turns: seq<Turn>, turn: Turn)
    requires Admitted(w, turns) && Placed(Run(w, turns)) && turn.process < |Run(w, turns).processes|
    ensures RequestsBound(w, turns + [turn], Step(Run(w, turns), turn.process, turn.choice).processes)
  {
    var before, p, c := Run(w, turns), turn.process, turn.choice;
    AdmittedStays(w, turns, turn, before.processes, before.executions);
    StepProcesses(before, p, c);
    if Resume(before, p, c).Executing? { EnteredWasBound(w, turns, turn); }
    OneMoreBound(w, turns + [turn], before.processes, p, Resume(before, p, c));
  }

  lemma NextOnOwnRoute(w: World, turns: seq<Turn>, turn: Turn)
    requires Admitted(w, turns) && turn.process < |Run(w, turns).processes|
    ensures AllOnOwnRoute(w, turns + [turn], Step(Run(w, turns), turn.process, turn.choice).executions)
  {
    var before := Run(w, turns);
    AdmittedStays(w, turns, turn, before.processes, before.executions);
    ExecutesOnOwnRoute(before, turn.process, turn.choice);
  }

  lemma {:induction false} RunsAdmitted(w: World, turns: seq<Turn>)
    requires Initial(w)
    ensures Admitted(w, turns)
  {
    if turns != [] {
      var n := |turns| - 1;
      RunsAdmitted(w, turns[..n]);
      InitialReached(w);
      RunKeepsReached(w, turns[..n]);
      assert turns == turns[..n] + [turns[n]];
      RunNext(w, turns[..n], turns[n]);
      if turns[n].process < |Run(w, turns[..n]).processes| {
        NextRequestsBound(w, turns[..n], turns[n]);
        NextOnOwnRoute(w, turns[..n], turns[n]);
      } else {
        AdmittedStays(w, turns[..n], turns[n], Run(w, turns).processes, Run(w, turns).executions);
      }
    }
  }

  /** In every run, each data operation ran under a binding of its own identity and its
      own routing revision that its tenant object had, ready, on the way. */
  lemma ExecutedOnOwnRoute(w: World, turns: seq<Turn>, e: nat)
    requires Initial(w) && e < |Run(w, turns).executions|
    ensures RanOnOwnRoute(w, turns, Run(w, turns).executions[e])
  {
    RunsAdmitted(w, turns);
  }

  // A request that meets no lost message

  /** The registry answers with a ready record, and the instance's object has its binding. */
  ghost predicate Serving(w: World, identity: Identity) {
    var record := Lookup(w.records, identity);
    record.Some? && record.value.identity == identity && record.value.state == Ready && Bound(w, record.value)
  }

  lemma RequestReads(w: World, p: nat, identity: Identity)
    requires Reached(w) && Serving(w, identity) && p < |w.processes|
    requires w.processes[p] == DataRequest(identity, Lookup(w.records, identity).value.routingRevision)
    ensures var record := Lookup(w.records, identity).value;
      Step(w, p, SMOOTH) == Become(w, p, Forwarding(record, record.routingRevision))
      && record.instanceKey == ProviderInstanceKey(identity) && record.identity == identity
  {
    AnswerRecorded(w, identity);
    RecordedIsPlaced(w, Lookup(w.records, identity).value);
  }

  /** A forwarded request enters a ready object under the binding it has by then. */
  lemma RequestEnters(w: World, p: nat, record: TenantRecord, routingRevision: int, bound: T.Binding)
    requires p < |w.processes| && w.processes[p] == Forwarding(record, routingRevision)
    requires record.instanceKey in w.tenants && w.tenants[record.instanceKey] == bound && bound.state == Ready
    ensures Step(w, p, SMOOTH) == Become(w, p, Executing(bound, record.identity, routingRevision))
  {
  }

  /** A request for the current route of a serving instance executes. */
  lemma SmoothRequestExecutes(w: World, p: nat, identity: Identity)
    requires Reached(w) && Serving(w, identity) && p < |w.processes|
    requires w.processes[p] == DataRequest(identity, Lookup(w.records, identity).value.routingRevision)
    ensures var routingRevision := Lookup(w.records, identity).value.routingRevision;
      Run(w, [Turn(p, SMOOTH), Turn(p, SMOOTH), Turn(p, SMOOTH)]).executions
      == w.executions + [Execution(identity, routingRevision, T.Binding(identity, routingRevision, Ready))]
  {
    var record := Lookup(w.records, identity).value;
    var bound := T.Binding(identity, record.routingRevision, Ready);
    RequestReads(w, p, identity);
    RequestEnters(Step(w, p, SMOOTH), p, record, record.routingRevision, bound);
    ThreeTurns(w, p, SMOOTH, SMOOTH);
    ExecutesOnOwnRoute(Step(Step(w, p, SMOOTH), p, SMOOTH), p, SMOOTH);
  }

  predicate Turns(action: Action, state: State, target: State) {
    (action == ToSuspend && state == Ready && target == Suspended)
        || (action == ToResume && state == Suspended && target == Ready)
  }

  /** What a suspend or resume request writes. */
  predicate Rerouted(before: TenantRecord, after: TenantRecord, target: State, operationId: string) {
    && after.state == target && after.identity == before.identity && after.operationId == operationId
    && after.revision == before.revision + 1 && after.routingRevision == before.routingRevision + 1
  }

  lemma ChangeReads(w: World, p: nat, identity: Identity, target: State)
    requires Reached(w) && p < |w.processes| && w.processes[p].Change? && w.processes[p].identity == identity
    requires Lookup(w.records, identity).Some?
    requires Turns(w.processes[p].action, Lookup(w.records, identity).value.state, target)
    ensures var current := Lookup(w.records, identity).value; var process := Resume(w, p, SMOOTH);
      && Step(w, p, SMOOTH) == Become(w, p, process)
      && process.Controlling? && process.action != ToDelete && process.current == current
          && current.identity == identity
      && Rerouted(current, process.next, target, w.processes[p].operationId)
  {
    AnswerRecorded(w, identity);
  }

  lemma ChangeIsWritten(w: World, p: nat, identity: Identity)
    requires Reached(w) && p < |w.processes| && w.processes[p].Controlling? && w.processes[p].action != ToDelete
    requires Lookup(w.records, identity) == Some(w.processes[p].current) && w.processes[p].current.identity == identity
    ensures var next := w.processes[p].next; var end := Step(Step(w, p, SMOOTH), p, SMOOTH);
      && Lookup(end.records, identity) == Some(next) && next.identity == identity
      && Bound(end, next)
  {
    assert ProcessFits(w.log, w.processes[p], p);
    ControlIsAccepted(w, p, SMOOTH);
    CalledIsPlaced(w, p);
    StoredLookup(w.records, w.processes[p].next, identity);
  }

  /** Suspending a ready instance, or resuming a suspended one, gives it a new route and
      binds its object to that. */
  lemma SmoothChange(w: World, p: nat, identity: Identity, target: State)
    requires Reached(w) && p < |w.processes| && w.processes[p].Change? && w.processes[p].identity == identity
    requires Lookup(w.records, identity).Some?
    requires Turns(w.processes[p].action, Lookup(w.records, identity).value.state, target)
    ensures var end := Run(w, [Turn(p, SMOOTH), Turn(p, SMOOTH), Turn(p, SMOOTH)]);
      && Reached(end) && Lookup(end.records, identity).Some?
      && Rerouted(Lookup(w.records, identity).value, Lookup(end.records, identity).value, target,
                  w.processes[p].operationId)
      && (target == Ready ==> Serving(end, identity))
      && |end.processes| == |w.processes| && forall q :: 0 <= q < |w.processes| && q != p ==>
        end.processes[q] == w.processes[q]
  {
    var a := Step(w, p, SMOOTH);
    var b := Step(a, p, SMOOTH);
    StepKeepsReached(w, p, SMOOTH);
    StepLeavesOthers(w, p, SMOOTH);
    StepLeavesOthers(a, p, SMOOTH);
    StepLeavesOthers(b, p, SMOOTH);
    RunKeepsReached(w, [Turn(p, SMOOTH), Turn(p, SMOOTH), Turn(p, SMOOTH)]);
    ChangeReads(w, p, identity, target);
    ChangeIsWritten(a, p, identity);
    ThreeTurns(w, p, SMOOTH, SMOOTH);
  }

  /** A request that passed the registry, and then was overtaken by a suspend and a
      resume, executes nothing, although the instance is ready again by then. */
  lemma OvertakenRequestIsRefused(w: World, p: nat, q: nat, r: nat, identity: Identity)
    requires Reached(w) && Serving(w, identity)
    requires p < |w.processes| && q < |w.processes| && r < |w.processes| && p != q && p != r && q != r
    requires w.processes[p] == DataRequest(identity, Lookup(w.records, identity).value.routingRevision)
    requires w.processes[q].Change? && w.processes[q].action == ToSuspend && w.processes[q].identity == identity
    requires w.processes[r].Change? && w.processes[r].action == ToResume && w.processes[r].identity == identity
    ensures var passed := Step(w, p, SMOOTH);
      var moved := Run(Run(passed, [Turn(q, SMOOTH), Turn(q, SMOOTH), Turn(q, SMOOTH)]),
                       [Turn(r, SMOOTH), Turn(r, SMOOTH), Turn(r, SMOOTH)]);
      var end := Run(moved, [Turn(p, SMOOTH), Turn(p, SMOOTH)]);
      Serving(moved, identity) && end.executions == moved.executions
  {
    var record := Lookup(w.records, identity).value;
    var passed := Step(w, p, SMOOTH);
    RequestReads(w, p, identity);
    StepKeepsReached(w, p, SMOOTH);
    SmoothChange(passed, q, identity, Suspended);
    var fenced := Run(passed, [Turn(q, SMOOTH), Turn(q, SMOOTH), Turn(q, SMOOTH)]);
    SmoothChange(fenced, r, identity, Ready);
    var moved := Run(fenced, [Turn(r, SMOOTH), Turn(r, SMOOTH), Turn(r, SMOOTH)]);
    var now := Lookup(moved.records, identity).value;
    RequestEnters(moved, p, record, record.routingRevision, T.Binding(identity, now.routingRevision, Ready));
    StepLeavesOthers(moved, p, SMOOTH);
    RunTwo(moved, p, SMOOTH, p, SMOOTH);
    ExecutesOnOwnRoute(Step(moved, p, SMOOTH), p, SMOOTH);
  }
}
