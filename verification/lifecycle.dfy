/**
 Any number of proxied requests sharing one limit store, one waiting room and one set of counters.
 Each step is one critical section or one atomic update; any request may take the next one, and the
 parts of a reload may fall between any two.
 */
module Lifecycle {
  import opened Config
  import opened Limiter
  import opened Queue
  import F = Failover

  datatype Target = Target(provider: string, limits: Limits, hasTimeout: bool)

  /** What a request needs of the configuration it loaded when it arrived. It keeps it to the end. */
  datatype Plan = Plan(maxRequests: int, client: string, clientLimits: Limits,
                       alias: string, modelLimits: Limits, targets: seq<Target>, retries: nat)

  /** The three admissions, in the order a request passes them. */
  datatype Gate = IngressGate | ModelGate | ProviderGate(target: nat, attempt: nat)

  function ScopesAt(p: Plan, g: Gate): seq<Scope> {
    match g
    case IngressGate => [Scope(Ingress, Limits(0.0, 0, p.maxRequests)), Scope(Client(p.client), p.clientLimits)]
    case ModelGate => [Scope(Model(p.alias), p.modelLimits)]
    case ProviderGate(t, _) => if t < |p.targets| then [Scope(Provider(p.targets[t].provider), p.targets[t].limits)] else []
  }

  datatype Phase =
    | Started                                         // counted as a request, not yet as active
    | Trying(gate: Gate)                              // before the first try at the gate
    | TurnedAway(gate: Gate)                          // the first try was refused; before entering the room
    | Polling(gate: Gate, cap: int)                   // in the room, entered while it held `cap`
    | Leaving(gate: Gate, cap: int, granted: bool)    // done polling, not yet out of the room
    | Reading                                         // reading the body and resolving the model
    | Preparing                                       // shaping the payload
    | Calling(target: nat, attempt: nat)
    | Replied(target: nat, attempt: nat, reply: F.Reply)
    | Dropping(target: nat, attempt: nat, verdict: F.Verdict)
    | Pausing(target: nat, attempt: nat)
    | Streaming(target: nat, attempt: nat)
    | Closing                                         // running the deferred releases
    | Retiring                                        // no longer active; before counting a failure
    | Done

  datatype Fate = Pending | RefusedIngress | BadRequest | RefusedModel | Unprepared | Exhausted | Forwarded

  /** A request with the reservations it holds, oldest first, and the usage records it has written. */
  datatype Req = Req(plan: Plan, phase: Phase, held: seq<seq<Scope>>, fate: Fate, records: nat)

  datatype Metrics = Metrics(requests: int, completed: int, failed: int, active: int,
                             upstreamRequests: int, upstreamErrors: int)

  datatype System = System(store: Store, room: Room, reqs: seq<Req>, metrics: Metrics)

  function Initial(max: int): System {
    System(EMPTY, Room(0, max), [], Metrics(0, 0, 0, 0, 0, 0))
  }

  datatype Step =
    | Arrive(plan: Plan)
    | Activate(i: nat)
    | FirstTry(i: nat, now: real)
    | EnterRoom(i: nat)
    | Poll(i: nat, now: real)
    | GiveUp(i: nat)
    | LeaveRoom(i: nat)
    | ReadBody(i: nat, ok: bool)
    | Prepare(i: nat, ok: bool)
    | EncodingFails(i: nat)
    | Reply(i: nat, reply: F.Reply)
    | Settle(i: nat, contextDead: bool)
    | Drop(i: nat)
    | PauseEnds(i: nat, completed: bool)
    | StreamEnds(i: nat)
    | Unwind(i: nat)
    | Retire(i: nat)
    | Finish(i: nat)
    | SetRoom(max: int)
    | ClearBuckets

  // ---------------------------------------------------------------------------------------------
  // What happens to the request that moves
  // ---------------------------------------------------------------------------------------------

  function GrantedPhase(g: Gate): Phase {
    match g
    case IngressGate => Reading
    case ModelGate => Preparing
    case ProviderGate(t, a) => Calling(t, a)
  }

  function Hold(r: Req, g: Gate, phase: Phase): Req {
    r.(held := r.held + [ScopesAt(r.plan, g)], phase := phase)
  }

  function Close(r: Req, fate: Fate, records: nat): Req {
    r.(phase := Closing, fate := fate, records := r.records + records)
  }

  function ToTarget(r: Req, t: nat): Req {
    if t < |r.plan.targets| then r.(phase := Trying(ProviderGate(t, 0))) else Close(r, Exhausted, 1)
  }

  /** An admission that is refused for good. A refusing provider only loses the request to the next target. */
  function Deny(r: Req, g: Gate): Req {
    match g
    case IngressGate => Close(r, RefusedIngress, 0)
    case ModelGate => Close(r, RefusedModel, 1)
    case ProviderGate(t, _) => ToTarget(r, t + 1)
  }

  function AfterReply(r: Req, t: nat, a: nat, reply: F.Reply, contextDead: bool): Req {
    var hasTimeout := t < |r.plan.targets| && r.plan.targets[t].hasTimeout;
    var verdict := F.Decide(reply, hasTimeout, contextDead, t, a, |r.plan.targets|, r.plan.retries);
    if verdict == F.Forward then r.(phase := Streaming(t, a), fate := Forwarded) else r.(phase := Dropping(t, a, verdict))
  }

  function AfterDrop(r: Req, t: nat, a: nat, verdict: F.Verdict): Req {
    match verdict
    case RetrySame => r.(phase := Pausing(t, a))
    case NextTarget => ToTarget(r, t + 1)
    case _ => Close(r, Exhausted, 1)
  }

  // ---------------------------------------------------------------------------------------------
  // The transition system. A step whose request is not in the right phase changes nothing.
  // ---------------------------------------------------------------------------------------------

  predicate Enabled(s: System, step: Step) {
    match step
    case Arrive(_) => true
    case SetRoom(_) => true
    case ClearBuckets => true
    case _ =>
      step.i < |s.reqs| &&
      var r := s.reqs[step.i];
      match step
      case Activate(_) => r.phase.Started?
      case FirstTry(_, _) => r.phase.Trying?
      case EnterRoom(_) => r.phase.TurnedAway?
      case Poll(_, _) => r.phase.Polling?
      case GiveUp(_) => r.phase.Polling?
      case LeaveRoom(_) => r.phase.Leaving?
      case ReadBody(_, _) => r.phase.Reading?
      case Prepare(_, _) => r.phase.Preparing?
      case EncodingFails(_) => r.phase.Trying? && r.phase.gate.ProviderGate? && r.phase.gate.attempt == 0
      case Reply(_, _) => r.phase.Calling?
      case Settle(_, _) => r.phase.Replied?
      case Drop(_) => r.phase.Dropping? && r.held != []
      case PauseEnds(_, _) => r.phase.Pausing?
      case StreamEnds(_) => r.phase.Streaming?
      case Unwind(_) => r.phase.Closing? && r.held != []
      case Retire(_) => r.phase.Closing? && r.held == []
      case Finish(_) => r.phase.Retiring?
  }

  function Last(r: Req): seq<Scope>
    requires r.held != []
  {
    r.held[|r.held| - 1]
  }

  function Dropped(r: Req): Req
    requires r.held != []
  {
    r.(held := r.held[..|r.held| - 1])
  }

  /** The moving request after its step. */
  function Moved(s: System, step: Step): Req
    requires Enabled(s, step) && !step.Arrive? && !step.SetRoom? && !step.ClearBuckets?
  {
    var r := s.reqs[step.i];
    match step
    case Activate(_) => r.(phase := Trying(IngressGate))
    case FirstTry(_, now) =>
      var g := r.phase.gate;
      if Granted(s.store, ScopesAt(r.plan, g), now) then Hold(r, g, GrantedPhase(g)) else r.(phase := TurnedAway(g))
    case EnterRoom(_) =>
      if CanEnter(s.room) then r.(phase := Polling(r.phase.gate, s.room.max)) else Deny(r, r.phase.gate)
    case Poll(_, now) =>
      var g := r.phase.gate;
      if Granted(s.store, ScopesAt(r.plan, g), now) then Hold(r, g, Leaving(g, r.phase.cap, true)) else r
    case GiveUp(_) => r.(phase := Leaving(r.phase.gate, r.phase.cap, false))
    case LeaveRoom(_) => if r.phase.granted then r.(phase := GrantedPhase(r.phase.gate)) else Deny(r, r.phase.gate)
    case ReadBody(_, ok) => if ok then r.(phase := Trying(ModelGate)) else Close(r, BadRequest, 0)
    case Prepare(_, ok) => if ok then ToTarget(r, 0) else Close(r, Unprepared, 0)
    case EncodingFails(_) => Close(r, Unprepared, 0)
    case Reply(_, reply) => r.(phase := Replied(r.phase.target, r.phase.attempt, reply))
    case Settle(_, dead) => AfterReply(r, r.phase.target, r.phase.attempt, r.phase.reply, dead)
    case Drop(_) => AfterDrop(Dropped(r), r.phase.target, r.phase.attempt, r.phase.verdict)
    case PauseEnds(_, completed) =>
      if completed then r.(phase := Trying(ProviderGate(r.phase.target, r.phase.attempt + 1))) else Close(r, Exhausted, 1)
    case StreamEnds(_) => r.(phase := Closing, records := r.records + 1)
    case Unwind(_) => Dropped(r)
    case Retire(_) => r.(phase := Retiring)
    case Finish(_) => r.(phase := Done)
  }

  function StoreAfter(s: System, step: Step): Store
    requires Enabled(s, step)
  {
    match step
    case FirstTry(i, now) => Admitted(s.store, ScopesAt(s.reqs[i].plan, s.reqs[i].phase.gate), now)
    case Poll(i, now) => Admitted(s.store, ScopesAt(s.reqs[i].plan, s.reqs[i].phase.gate), now)
    case Drop(i) => Released(s.store, Last(s.reqs[i]))
    case Unwind(i) => Released(s.store, Last(s.reqs[i]))
    case ClearBuckets => Cleared(s.store)
    case _ => s.store
  }

  function RoomAfter(s: System, step: Step): Room
    requires Enabled(s, step)
  {
    match step
    case EnterRoom(_) => Entered(s.room)
    case LeaveRoom(_) => Left(s.room)
    case SetRoom(max) => s.room.(max := max)
    case _ => s.room
  }

  function MetricsAfter(s: System, step: Step): Metrics
    requires Enabled(s, step)
  {
    var m := s.metrics;
    match step
    case Arrive(_) => m.(requests := m.requests + 1)
    case Activate(_) => m.(active := m.active + 1)
    case Reply(_, _) => m.(upstreamRequests := m.upstreamRequests + 1)
    case Settle(i, _) =>
      if s.reqs[i].phase.reply.TransportError? then m.(upstreamErrors := m.upstreamErrors + 1)
      else if Moved(s, step).fate.Forwarded? then m.(completed := m.completed + 1)
      else m
    case Retire(_) => m.(active := m.active - 1)
    case Finish(i) => if s.reqs[i].fate.Forwarded? then m else m.(failed := m.failed + 1)
    case _ => m
  }

  function ReqsAfter(s: System, step: Step): seq<Req>
    requires Enabled(s, step)
  {
    match step
    case Arrive(plan) => s.reqs + [Req(plan, Started, [], Pending, 0)]
    case SetRoom(_) => s.reqs
    case ClearBuckets => s.reqs
    case _ => s.reqs[step.i := Moved(s, step)]
  }

  function Next(s: System, step: Step): System {
    if Enabled(s, step) then
      System(StoreAfter(s, step), RoomAfter(s, step), ReqsAfter(s, step), MetricsAfter(s, step))
    else s
  }

  /** Every sequence of steps is a run. */
  function Run(s: System, steps: seq<Step>): System {
    if steps == [] then s else Next(Run(s, steps[..|steps| - 1]), steps[|steps| - 1])
  }
}
