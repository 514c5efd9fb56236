/** One tenant's database object: the instance it is bound to, the requests inside
    it, and draining them before its runtime is closed. */
module TenantDatabase {
  import opened Facts
  import opened InstanceIdentity
  import opened Lifecycle

  datatype Binding = Binding(identity: Identity, routingRevision: int, state: State)

  /** `waiters` are the requests to resume when nothing is in flight any more;
      `runtime` is the scope of the open runtime. */
  datatype Instance = Instance(binding: Option<Binding>, inFlight: int, waiters: set<nat>, runtime: Option<Identity>)

  // What each stretch of the object does

  predicate Accepts(current: Option<Binding>, next: Binding) {
    current.Some? ==> SameInstanceIdentity(current.value.identity, next.identity)
  }

  predicate Admits(instance: Instance) {
    instance.binding.Some? && instance.binding.value.state == Ready
  }

  /** An accepted binding keeps the identity that was stored first. */
  function Rebound(instance: Instance, next: Binding): Instance {
    instance.(binding := Some(if instance.binding.None? then next
                              else instance.binding.value.(routingRevision := next.routingRevision,
                                                           state := next.state)))
  }

  function Opened(instance: Instance, identity: Identity): Instance {
    if instance.runtime.Some? then instance else instance.(runtime := Some(identity))
  }

  function Entered(instance: Instance): Instance {
    instance.(inFlight := instance.inFlight + 1)
  }

  function Left(instance: Instance): Instance {
    var inFlight := instance.inFlight - 1;
    instance.(inFlight := inFlight, waiters := if inFlight == 0 then {} else instance.waiters)
  }

  class TenantDatabase {
    var binding: Option<Binding>
    var inFlight: int
    var drainWaiters: set<nat>
    var runtime: Option<Identity>

    function View(): Instance
      reads this
    {
      Instance(binding, inFlight, drainWaiters, runtime)
    }

    constructor ()
      ensures View() == Instance(None, 0, {}, None)
    {
      binding, inFlight, drainWaiters, runtime := None, 0, {}, None;
    }

    method Bind(next: Binding) returns (ok: bool)
      modifies this
      ensures ok == Accepts(old(binding), next)
      ensures View() == if ok then Rebound(old(View()), next) else old(View())
      ensures ok ==> binding == Some(next)
      ensures inFlight == old(inFlight) && drainWaiters == old(drainWaiters) && runtime == old(runtime)
    {
      if binding.Some?
          && CanonicalInstanceIdentity(binding.value.identity) != CanonicalInstanceIdentity(next.identity) {
        return false;
      }
      if binding.None? {
        binding := Some(next);
      } else {
        SameKeyIffSameIdentity(binding.value.identity, next.identity);
        binding := Some(Binding(binding.value.identity, next.routingRevision, next.state));
      }
      return true;
    }

    method GetRuntime(identity: Identity) returns (scope: Identity)
      modifies this
      ensures View() == Opened(old(View()), identity) && runtime == Some(scope)
      ensures scope == if old(runtime).Some? then old(runtime).value else identity
    {
      if runtime.Some? {
        return runtime.value;
      }
      runtime := Some(identity);
      return identity;
    }

    /** Whether the caller may go on at once; if not, it is resumed by name. */
    method WaitForDrain(caller: nat) returns (drained: bool)
      modifies this
      ensures drained == (old(inFlight) == 0)
      ensures View() == if drained then old(View()) else old(View()).(waiters := old(drainWaiters) + {caller})
    {
      if inFlight == 0 {
        return true;
      }
      drainWaiters := drainWaiters + {caller};
      return false;
    }

    method CloseRuntime() returns (disposed: Option<Identity>)
      modifies this
      ensures View() == old(View()).(runtime := None) && disposed == old(runtime)
    {
      disposed := runtime;
      runtime := None;
    }

    method AdmitRequest() returns (bound: Option<Binding>)
      modifies this
      ensures bound.Some? <==> old(Admits(View()))
      ensures bound.Some? ==> bound == old(binding)
      ensures View() == if bound.Some? then Entered(old(View())) else old(View())
    {
      if binding.None? || binding.value.state != Ready {
        return None;
      }
      inFlight := inFlight + 1;
      return binding;
    }

    method FinishRequest() returns (resumed: set<nat>)
      modifies this
      ensures View() == Left(old(View()))
      ensures resumed == old(drainWaiters) - drainWaiters
    {
      resumed := {};
      inFlight := inFlight - 1;
      if inFlight == 0 {
        var left := drainWaiters;
        while left != {}
          invariant resumed + left == drainWaiters && left <= drainWaiters
          decreases |left|
        {
          var waiter :| waiter in left;
          resumed := resumed + {waiter};
          left := left - {waiter};
        }
        drainWaiters := {};
      }
    }
  }

  // Any number of requests inside one object

  datatype Request =
    | Control(activate: bool, next: Binding)
    | Waiting
    | Drained
    | Data
    | Admitted(bound: Binding)
    | Running(bound: Binding)
    | Over

  datatype Host = Host(instance: Instance, requests: seq<Request>)

  /** The requests resumed by the last one to leave go on from their wait. */
  function Resumed(requests: seq<Request>, waiters: set<nat>): (r: seq<Request>)
    ensures |r| == |requests|
    ensures forall i :: 0 <= i < |r| ==> r[i] == if i in waiters && requests[i].Waiting? then Drained else requests[i]
  {
    seq(|requests|,
        i requires 0 <= i < |requests| => if i in waiters && requests[i].Waiting? then Drained else requests[i])
  }

  function Leave(h: Host, p: nat): Host
    requires p < |h.requests|
  {
    var after := Left(h.instance);
    Host(after, Resumed(h.requests[p := Over], h.instance.waiters - after.waiters))
  }

  /** Request p runs up to its next wait; `fails` is whether reading it failed. */
  function Step(h: Host, p: nat, fails: bool): Host
    requires p < |h.requests|
  {
    match h.requests[p]
    case Control(activate, next) =>
      if !Accepts(h.instance.binding, next) then Host(h.instance, h.requests[p := Over])
      else
        var bound := Rebound(h.instance, next);
        if activate then Host(Opened(bound, next.identity), h.requests[p := Over])
        else if bound.inFlight == 0 then Host(bound, h.requests[p := Drained])
        else Host(bound.(waiters := bound.waiters + {p}), h.requests[p := Waiting])
    case Drained => Host(h.instance.(runtime := None), h.requests[p := Over])
    case Data =>
      if Admits(h.instance) then Host(Entered(h.instance), h.requests[p := Admitted(h.instance.binding.value)])
      else Host(h.instance, h.requests[p := Over])
    case Admitted(bound) =>
      if fails then Leave(h, p) else Host(Opened(h.instance, bound.identity), h.requests[p := Running(bound)])
    case Running(_) => Leave(h, p)
    case Waiting => h
    case Over => h
  }

  datatype Turn = Turn(request: nat, fails: bool)

  function Run(h: Host, turns: seq<Turn>): Host {
    if turns == [] then h
    else
      var before := Run(h, turns[..|turns| - 1]);
      var turn := turns[|turns| - 1];
      if turn.request < |before.requests| then Step(before, turn.request, turn.fails) else before
  }

  // What is in flight

  predicate Busy(request: Request) {
    request.Admitted? || request.Running?
  }

  function BusySet(requests: seq<Request>): set<nat> {
    set i: nat | i < |requests| && Busy(requests[i])
  }

  function WaitingSet(requests: seq<Request>): set<nat> {
    set i: nat | i < |requests| && requests[i].Waiting?
  }

  predicate ScopeFits(instance: Instance, identity: Identity) {
    instance.binding.Some? && instance.binding.value.identity == identity
  }

  /** The counter counts the admitted requests that have not finished, a request
      waits exactly when it is listed and then something is in flight, and every
      runtime and every admitted request belongs to the one bound identity. */
  ghost predicate Sound(h: Host) {
    && h.instance.inFlight == |BusySet(h.requests)|
    && h.instance.waiters == WaitingSet(h.requests)
    && (h.instance.waiters != {} ==> h.instance.inFlight > 0)
    && (h.instance.runtime.Some? ==> ScopeFits(h.instance, h.instance.runtime.value))
    && AdmittedFit(h.instance, h.requests)
  }

  ghost predicate AdmittedFit(instance: Instance, requests: seq<Request>) {
    forall i :: 0 <= i < |requests| && requests[i].Admitted? ==> ScopeFits(instance, requests[i].bound.identity)
  }

  predicate Unstarted(request: Request) {
    request.Control? || request.Data?
  }

  ghost predicate Initial(h: Host) {
    h.instance == Instance(None, 0, {}, None) && forall i :: 0 <= i < |h.requests| ==> Unstarted(h.requests[i])
  }

  lemma InitialSound(h: Host)
    requires Initial(h)
    ensures Sound(h)
  {
    assert BusySet(h.requests) == {};
    assert WaitingSet(h.requests) == {};
  }

  lemma BusyAfter(requests: seq<Request>, p: nat, request: Request)
    requires p < |requests|
    ensures BusySet(requests[p := request])
            == if Busy(request) then BusySet(requests) + {p} else BusySet(requests) - {p}
    ensures WaitingSet(requests[p := request])
            == if request.Waiting? then WaitingSet(requests) + {p} else WaitingSet(requests) - {p}
  {
  }

  lemma BusyAfterResumed(requests: seq<Request>, waiters: set<nat>)
    ensures BusySet(Resumed(requests, waiters)) == BusySet(requests)
    ensures WaitingSet(Resumed(requests, waiters)) == WaitingSet(requests) - waiters
  {
  }

  lemma LeaveCounts(h: Host, p: nat)
    requires p < |h.requests| && Busy(h.requests[p]) && h.instance.inFlight == |BusySet(h.requests)|
    requires h.instance.waiters == WaitingSet(h.requests)
    ensures BusySet(Leave(h, p).requests) == BusySet(h.requests) - {p}
    ensures Leave(h, p).instance.inFlight == |BusySet(h.requests) - {p}|
    ensures WaitingSet(Leave(h, p).requests) == Leave(h, p).instance.waiters
  {
    var after := Left(h.instance);
    BusyAfter(h.requests, p, Over);
    BusyAfterResumed(h.requests[p := Over], h.instance.waiters - after.waiters);
    assert p in BusySet(h.requests) && p !in WaitingSet(h.requests);
    assert |BusySet(h.requests) - {p}| == |BusySet(h.requests)| - 1;
  }

  lemma LeaveAdmittedFit(h: Host, p: nat)
    requires p < |h.requests| && AdmittedFit(h.instance, h.requests)
    ensures AdmittedFit(Leave(h, p).instance, Leave(h, p).requests)
  {
    var after := Leave(h, p);
    forall i | 0 <= i < |after.requests| && after.requests[i].Admitted?
      ensures ScopeFits(after.instance, after.requests[i].bound.identity)
    {
      assert after.requests[i] == h.requests[i];
    }
  }

  lemma LeaveKeeps(h: Host, p: nat)
    requires Sound(h) && p < |h.requests| && Busy(h.requests[p])
    ensures Sound(Leave(h, p))
    ensures BusySet(Leave(h, p).requests) == BusySet(h.requests) - {p}
  {
    LeaveCounts(h, p);
    LeaveAdmittedFit(h, p);
  }

  /** A step of a request that is neither in flight nor waiting. */
  lemma IdleStepKeeps(h: Host, p: nat, instance: Instance, request: Request)
    requires Sound(h) && p < |h.requests| && !Busy(h.requests[p]) && !h.requests[p].Waiting?
    requires instance.inFlight == h.instance.inFlight + (if Busy(request) then 1 else 0)
    requires instance.waiters == h.instance.waiters + (if request.Waiting? then {p} else {})
    requires request.Waiting? ==> instance.inFlight > 0
    requires instance.runtime.Some? ==> ScopeFits(instance, instance.runtime.value)
    requires request.Admitted? ==> ScopeFits(instance, request.bound.identity)
    requires KeepsScope(h.instance, instance)
    ensures Sound(Host(instance, h.requests[p := request]))
  {
    IdleCounts(h.requests, p, request);
    var after := h.requests[p := request];
    forall i | 0 <= i < |after| && after[i].Admitted? ensures ScopeFits(instance, after[i].bound.identity) {
      if i != p { assert ScopeFits(h.instance, h.requests[i].bound.identity); }
    }
  }

  lemma IdleCounts(requests: seq<Request>, p: nat, request: Request)
    requires p < |requests| && !Busy(requests[p]) && !requests[p].Waiting?
    ensures |BusySet(requests[p := request])| == |BusySet(requests)| + if Busy(request) then 1 else 0
    ensures WaitingSet(requests[p := request]) == WaitingSet(requests) + if request.Waiting? then {p} else {}
  {
    BusyAfter(requests, p, request);
    assert p !in BusySet(requests) && p !in WaitingSet(requests);
    assert WaitingSet(requests) - {p} == WaitingSet(requests);
    assert BusySet(requests) - {p} == BusySet(requests);
  }

  ghost predicate KeepsScope(before: Instance, after: Instance) {
    before.binding.Some? ==> after.binding.Some? && after.binding.value.identity == before.binding.value.identity
  }

  lemma ReboundFits(instance: Instance, next: Binding)
    requires Accepts(instance.binding, next)
    ensures ScopeFits(Rebound(instance, next), next.identity)
    ensures KeepsScope(instance, Rebound(instance, next))
  {
    if instance.binding.Some? { SameKeyIffSameIdentity(instance.binding.value.identity, next.identity); }
  }

  lemma ControlKeeps(h: Host, p: nat, fails: bool)
    requires Sound(h) && p < |h.requests| && h.requests[p].Control?
    ensures Sound(Step(h, p, fails))
  {
    var next := h.requests[p].next;
    if Accepts(h.instance.binding, next) { ReboundFits(h.instance, next); }
    IdleStepKeeps(h, p, Step(h, p, fails).instance, Step(h, p, fails).requests[p]);
  }

  lemma DataKeeps(h: Host, p: nat, fails: bool)
    requires Sound(h) && p < |h.requests| && (h.requests[p].Data? || h.requests[p].Drained?)
    ensures Sound(Step(h, p, fails))
  {
    IdleStepKeeps(h, p, Step(h, p, fails).instance, Step(h, p, fails).requests[p]);
  }

  lemma ReadKeeps(h: Host, p: nat)
    requires Sound(h) && p < |h.requests| && h.requests[p].Admitted?
    ensures Sound(Step(h, p, false))
  {
    BusyAfter(h.requests, p, Running(h.requests[p].bound));
    assert p in BusySet(h.requests) && p !in WaitingSet(h.requests);
    assert WaitingSet(h.requests) - {p} == WaitingSet(h.requests);
    assert BusySet(h.requests) + {p} == BusySet(h.requests);
  }

  lemma StepKeeps(h: Host, p: nat, fails: bool)
    requires Sound(h) && p < |h.requests|
    ensures Sound(Step(h, p, fails))
  {
    match h.requests[p]
    case Control(_, _) => ControlKeeps(h, p, fails);
    case Data => DataKeeps(h, p, fails);
    case Drained => DataKeeps(h, p, fails);
    case Admitted(_) => if fails { LeaveKeeps(h, p); } else { ReadKeeps(h, p); }
    case Running(_) => LeaveKeeps(h, p);
    case Waiting =>
    case Over =>
  }

  /** In every interleaving. */
  lemma {:induction false} RunKeepsSound(h: Host, turns: seq<Turn>)
    requires Sound(h)
    ensures Sound(Run(h, turns))
  {
    if turns != [] {
      var n := |turns| - 1;
      RunKeepsSound(h, turns[..n]);
      if turns[n].request < |Run(h, turns[..n]).requests| {
        StepKeeps(Run(h, turns[..n]), turns[n].request, turns[n].fails);
      }
    }
  }

  // What each kind of request does

  /** A control request is refused exactly when the object is bound to another
      identity; else the object is bound as the request says, and an activation
      leaves a runtime of that identity open. */
  lemma ControlRebinds(h: Host, p: nat, fails: bool)
    requires Sound(h) && p < |h.requests| && h.requests[p].Control?
    ensures var next := h.requests[p].next;
      var after := Step(h, p, fails);
      if h.instance.binding.Some? && h.instance.binding.value.identity != next.identity then
        after.instance == h.instance && after.requests[p].Over?
      else
        && after.instance.binding == Some(next)
        && after.instance.inFlight == h.instance.inFlight
        && after.instance.runtime
           == (if h.requests[p].activate then Some(next.identity) else h.instance.runtime)
        && (h.requests[p].activate ==> after.requests[p].Over?)
  {
    var next := h.requests[p].next;
    if h.instance.binding.Some? { SameKeyIffSameIdentity(h.instance.binding.value.identity, next.identity); }
  }

  /** A data request left alone in a ready object runs under its binding, with a
      runtime of that identity, and leaves everything else as it was. */
  lemma DataRequestRuns(h: Host, p: nat)
    requires Sound(h) && p < |h.requests| && h.requests[p].Data?
    requires h.instance.binding.Some? && h.instance.binding.value.state == Ready
    ensures var bound := h.instance.binding.value;
      var running := Step(Step(h, p, false), p, false);
      && running.requests[p] == Running(bound)
      && running.instance.inFlight == h.instance.inFlight + 1
      && running.instance.runtime == Some(bound.identity)
      && Step(running, p, false)
         == Host(h.instance.(runtime := Some(bound.identity)), h.requests[p := Over])
  {
    IdleCounts(h.requests, p, Over);
    var running := Step(Step(h, p, false), p, false);
    assert running.requests[p := Over] == h.requests[p := Over];
    NoneResumed(h, h.requests[p := Over]);
  }

  /** One whose body cannot be read leaves the object as it was, and so does one
      that the object turns away. */
  lemma DataRequestStops(h: Host, p: nat)
    requires Sound(h) && p < |h.requests| && h.requests[p].Data?
    ensures if h.instance.binding.Some? && h.instance.binding.value.state == Ready
      then Step(Step(h, p, false), p, true) == Host(h.instance, h.requests[p := Over])
      else Step(h, p, false) == Host(h.instance, h.requests[p := Over])
  {
    if Admits(h.instance) {
      var admitted := Step(h, p, false);
      assert admitted.requests[p := Over] == h.requests[p := Over];
      NoneResumed(h, h.requests[p := Over]);
    }
  }

  lemma NoneResumed(h: Host, requests: seq<Request>)
    requires Sound(h)
    ensures var after := Left(Entered(h.instance));
      && after == h.instance
      && Resumed(requests, h.instance.waiters - after.waiters) == requests
  {
  }

  // Draining behind a fence

  /** The request is about to make the object admit requests, or open a runtime. */
  predicate Reopens(request: Request) {
    request.Control? && (request.activate || request.next.state == Ready)
  }

  ghost predicate Undisturbed(h: Host, turns: seq<Turn>)
    decreases |turns|
  {
    turns != [] ==>
      var n := |turns| - 1;
      var before := Run(h, turns[..n]);
      && Undisturbed(h, turns[..n])
      && (turns[n].request < |before.requests| ==> !Reopens(before.requests[turns[n].request]))
  }

  /** What a fence keeps while nothing reopens the object: it admits nothing, what
      was in flight is all that still can be, and once the fencing request is past
      its wait nothing is, and once it is over no runtime is open. */
  ghost predicate Fenced(h: Host, f: nat, earlier: set<nat>) {
    && f < |h.requests| && (h.requests[f].Waiting? || h.requests[f].Drained? || h.requests[f].Over?)
    && !Admits(h.instance)
    && BusySet(h.requests) <= earlier
    && (h.requests[f].Drained? || h.requests[f].Over? ==> BusySet(h.requests) == {})
    && (h.requests[f].Over? ==> h.instance.runtime.None?)
  }

  lemma LeaveStaysFenced(h: Host, p: nat, f: nat, earlier: set<nat>)
    requires Sound(h) && p < |h.requests| && Busy(h.requests[p]) && Fenced(h, f, earlier)
    ensures Fenced(Leave(h, p), f, earlier)
  {
    LeaveKeeps(h, p);
    assert p in BusySet(h.requests);
    var after := Leave(h, p);
    assert after.requests[f].Drained? ==> after.instance.inFlight == 0;
  }

  lemma OthersStayFenced(h: Host, p: nat, request: Request, instance: Instance, f: nat, earlier: set<nat>)
    requires p < |h.requests| && p != f && Fenced(h, f, earlier)
    requires Busy(request) ==> Busy(h.requests[p])
    requires !Admits(instance) && (h.requests[f].Over? ==> instance.runtime.None?)
    ensures Fenced(Host(instance, h.requests[p := request]), f, earlier)
  {
    BusyAfter(h.requests, p, request);
    if Busy(request) { assert p in BusySet(h.requests); }
  }

  lemma StepStaysFenced(h: Host, p: nat, fails: bool, f: nat, earlier: set<nat>)
    requires Sound(h) && p < |h.requests| && Fenced(h, f, earlier) && !Reopens(h.requests[p])
    ensures Fenced(Step(h, p, fails), f, earlier)
  {
    var request := h.requests[p];
    if Busy(request) && (fails || request.Running?) {
      LeaveStaysFenced(h, p, f, earlier);
    } else if p != f && !request.Waiting? && !request.Over? {
      var after := Step(h, p, fails);
      assert request.Admitted? ==> p in BusySet(h.requests);
      OthersStayFenced(h, p, after.requests[p], after.instance, f, earlier);
    } else if request.Drained? {
      BusyAfter(h.requests, p, Over);
    }
  }

  lemma {:induction false} RunStaysFenced(h: Host, turns: seq<Turn>, f: nat, earlier: set<nat>)
    requires Sound(h) && Fenced(h, f, earlier) && Undisturbed(h, turns)
    ensures Fenced(Run(h, turns), f, earlier)
  {
    if turns != [] {
      var n := |turns| - 1;
      RunStaysFenced(h, turns[..n], f, earlier);
      RunKeepsSound(h, turns[..n]);
      if turns[n].request < |Run(h, turns[..n]).requests| {
        StepStaysFenced(Run(h, turns[..n]), turns[n].request, turns[n].fails, f, earlier);
      }
    }
  }

  /** A fence drains: after any run up to its bind and any run after it in which
      nothing reopens the object, no request has been admitted since the bind; when
      the fencing request is about to close the runtime every earlier one has
      finished; and once it has closed it, no runtime is open again. */
  lemma FenceDrains(start: Host, before: seq<Turn>, f: nat, turns: seq<Turn>)
    requires Initial(start) && f < |Run(start, before).requests|
    requires var request := Run(start, before).requests[f];
      request.Control? && !Reopens(request) && Accepts(Run(start, before).instance.binding, request.next)
    requires Undisturbed(Step(Run(start, before), f, false), turns)
    ensures var end := Run(Step(Run(start, before), f, false), turns);
      && f < |end.requests| && (end.requests[f].Waiting? || end.requests[f].Drained? || end.requests[f].Over?)
      && BusySet(end.requests) <= BusySet(Run(start, before).requests)
      && (end.requests[f].Waiting? ==> end.instance.inFlight > 0)
      && (end.requests[f].Drained? || end.requests[f].Over? ==>
          end.instance.inFlight == 0 && BusySet(end.requests) == {})
      && (end.requests[f].Over? ==> end.instance.runtime.None?)
  {
    var h := Run(start, before);
    InitialSound(start);
    RunKeepsSound(start, before);
    var fenced := Step(h, f, false);
    StepKeeps(h, f, false);
    BusyAfter(h.requests, f, fenced.requests[f]);
    assert f !in BusySet(h.requests);
    RunStaysFenced(fenced, turns, f, BusySet(h.requests));
    RunKeepsSound(fenced, turns);
    var end := Run(fenced, turns);
    assert end.requests[f].Waiting? ==> f in WaitingSet(end.requests);
  }
}
