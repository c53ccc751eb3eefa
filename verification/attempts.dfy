/** Inside the shared gateway, each request walks its targets exactly as the failover loop does. */
module Attempts {
  import opened Limiter
  import opened Lifecycle
  import opened Queue
  import opened Laws = LifecycleLaws
  import F = Failover
  import FL = FailoverLaws

  // ---------------------------------------------------------------------------------------------
  // No request leaves its plan
  // ---------------------------------------------------------------------------------------------

  predicate Planned(p: Plan, t: nat, a: nat) {
    t < |p.targets| && a <= p.retries
  }

  predicate GatePlanned(p: Plan, g: Gate) {
    g.ProviderGate? ==> Planned(p, g.target, g.attempt)
  }

  /** Wherever a request stands, it is at one of its own targets and has a repeat left before it pauses for one. */
  predicate WithinPlan(r: Req) {
    match r.phase
    case Trying(g) => GatePlanned(r.plan, g)
    case TurnedAway(g) => GatePlanned(r.plan, g)
    case Polling(g, _) => GatePlanned(r.plan, g)
    case Leaving(g, _, _) => GatePlanned(r.plan, g)
    case Calling(t, a) => Planned(r.plan, t, a)
    case Replied(t, a, _) => Planned(r.plan, t, a)
    case Dropping(t, a, verdict) => Planned(r.plan, t, a) && !verdict.Forward? && (verdict.RetrySame? ==> a < r.plan.retries)
    case Pausing(t, a) => Planned(r.plan, t, a) && a < r.plan.retries
    case _ => true
  }

  lemma MovedWithinPlan(s: System, step: Step)
    requires Moves(step) && Enabled(s, step) && WithinPlan(s.reqs[step.i])
    ensures WithinPlan(Moved(s, step))
  {
    hide ScopesAt, FirstRefusal, Granted;
  }

  lemma {:induction false} RunsStayWithinPlan(max: int, steps: seq<Step>, i: nat)
    requires i < |Run(Initial(max), steps).reqs|
    ensures WithinPlan(Run(Initial(max), steps).reqs[i])
  {
    if steps != [] {
      var before, step := Run(Initial(max), steps[..|steps| - 1]), steps[|steps| - 1];
      hide Moved, StoreAfter, MetricsAfter, RoomAfter, WithinPlan;
      if i < |before.reqs| {
        RunsStayWithinPlan(max, steps[..|steps| - 1], i);
        if Enabled(before, step) && Moves(step) {
          RunsStayWithinPlan(max, steps[..|steps| - 1], step.i);
          MovedWithinPlan(before, step);
        }
      } else {
        NewIsWithinPlan(step.plan);
      }
    }
  }

  lemma NewIsWithinPlan(p: Plan)
    ensures WithinPlan(Req(p, Started, [], Pending, 0))
  {
  }

  // ---------------------------------------------------------------------------------------------
  // What a run tells a request, and what the request does
  // ---------------------------------------------------------------------------------------------

  /** An answer of the environment to attempt `a` on target `t`. */
  datatype Answer =
    | Denied(t: nat, a: nat)
    | Allowed(t: nat, a: nat)
    | Answered(t: nat, a: nat, reply: F.Reply)
    | Observed(t: nat, a: nat, dead: bool)
    | Resumed(t: nat, a: nat, completed: bool)

  /** The step is one of request `i`. */
  predicate Acts(s: System, step: Step, i: nat) {
    Enabled(s, step) && Moves(step) && step.i == i
  }

  /** The answer that request `i` gets in a step, if any. */
  function Heard(s: System, step: Step, i: nat): seq<Answer> {
    if !Acts(s, step, i) then []
    else
      var phase := s.reqs[i].phase;
      match step
      case FirstTry(_, _) => if phase.gate.ProviderGate? && Grabs(s, step) then [Allowed(phase.gate.target, phase.gate.attempt)] else []
      case Poll(_, _) => if phase.gate.ProviderGate? && Grabs(s, step) then [Allowed(phase.gate.target, phase.gate.attempt)] else []
      case EnterRoom(_) => if phase.gate.ProviderGate? && !CanEnter(s.room) then [Denied(phase.gate.target, phase.gate.attempt)] else []
      case LeaveRoom(_) => if phase.gate.ProviderGate? && !phase.granted then [Denied(phase.gate.target, phase.gate.attempt)] else []
      case Reply(_, reply) => [Answered(phase.target, phase.attempt, reply)]
      case Settle(_, dead) => [Observed(phase.target, phase.attempt, dead)]
      case PauseEnds(_, completed) => [Resumed(phase.target, phase.attempt, completed)]
      case _ => []
  }

  /** What request `i` does in a step, as the failover loop would log it. A reservation is taken and given back with its event. */
  function Done(s: System, step: Step, i: nat): seq<F.Event> {
    if !Acts(s, step, i) then []
    else
      var phase := s.reqs[i].phase;
      match step
      case FirstTry(_, _) => if phase.gate.ProviderGate? && Grabs(s, step) then [F.Acquired(phase.gate.target, phase.gate.attempt)] else []
      case Poll(_, _) => if phase.gate.ProviderGate? && Grabs(s, step) then [F.Acquired(phase.gate.target, phase.gate.attempt)] else []
      case EnterRoom(_) => if phase.gate.ProviderGate? && !CanEnter(s.room) then [F.Refused(phase.gate.target)] else []
      case LeaveRoom(_) => if phase.gate.ProviderGate? && !phase.granted then [F.Refused(phase.gate.target)] else []
      case Reply(_, reply) => [F.Called(phase.target, phase.attempt, reply)]
      case Drop(_) =>
        [F.Freed(phase.target, phase.attempt)]
        + (if phase.verdict.RetrySame? then [F.Paused(phase.target, phase.attempt, F.Delay(phase.attempt))] else [])
      case _ => []
  }

  function AnswersOf(s: System, steps: seq<Step>, i: nat): seq<Answer> {
    if steps == [] then []
    else AnswersOf(s, steps[..|steps| - 1], i) + Heard(Run(s, steps[..|steps| - 1]), steps[|steps| - 1], i)
  }

  function TraceOf(s: System, steps: seq<Step>, i: nat): seq<F.Event> {
    if steps == [] then []
    else TraceOf(s, steps[..|steps| - 1], i) + Done(Run(s, steps[..|steps| - 1]), steps[|steps| - 1], i)
  }

  /** A step that is not one of request `i` leaves it as it was. */
  lemma StepElsewhere(s: System, step: Step, i: nat)
    requires i < |s.reqs| && !Acts(s, step, i)
    ensures i < |Next(s, step).reqs| && Next(s, step).reqs[i] == s.reqs[i]
    ensures Heard(s, step, i) == [] && Done(s, step, i) == []
  {
    hide Moved, StoreAfter, MetricsAfter, RoomAfter, Grabs, CanEnter, F.Delay;
  }

  lemma StepHere(s: System, step: Step, i: nat)
    requires Acts(s, step, i)
    ensures i < |s.reqs| == |Next(s, step).reqs| && Next(s, step).reqs[i] == Moved(s, step)
    ensures Moved(s, step).plan == s.reqs[i].plan
  {
    hide StoreAfter, MetricsAfter, RoomAfter, FirstRefusal, ScopesAt, F.Decide, CanEnter;
  }

  /** Before it arrives a request neither hears nor does anything. */
  lemma {:induction false} NotYet(s: System, steps: seq<Step>, i: nat)
    requires i >= |Run(s, steps).reqs|
    ensures AnswersOf(s, steps, i) == [] && TraceOf(s, steps, i) == []
  {
    if steps != [] {
      var init, step := steps[..|steps| - 1], steps[|steps| - 1];
      hide Moved, StoreAfter, MetricsAfter, RoomAfter, Heard, Done;
      assert |Run(s, steps).reqs| >= |Run(s, init).reqs|;
      NotYet(s, init, i);
      QuietBefore(Run(s, init), step, i);
    }
  }

  lemma QuietBefore(s: System, step: Step, i: nat)
    requires i >= |s.reqs|
    ensures Heard(s, step, i) == [] && Done(s, step, i) == []
  {
  }

  lemma Arrival(s: System, step: Step, i: nat)
    requires |s.reqs| <= i < |Next(s, step).reqs|
    ensures step.Arrive? && Next(s, step).reqs[i] == Req(step.plan, Started, [], Pending, 0)
    ensures Heard(s, step, i) == [] && Done(s, step, i) == []
  {
    hide Moved, StoreAfter, MetricsAfter, RoomAfter;
  }

  // ---------------------------------------------------------------------------------------------
  // The failover loop that met these answers
  // ---------------------------------------------------------------------------------------------

  function Told(turn: F.Turn, x: Answer, t: nat, a: nat): F.Turn {
    if x.t != t || x.a != a then turn
    else
      match x
      case Denied(_, _) => turn.(allowed := false)
      case Allowed(_, _) => turn.(allowed := true)
      case Answered(_, _, reply) => turn.(reply := reply)
      case Observed(_, _, dead) => turn.(contextDead := dead)
      case Resumed(_, _, completed) => turn.(pauseCompletes := completed)
  }

  function TurnIn(h: seq<Answer>, t: nat, a: nat): F.Turn {
    if h == [] then F.Turn(true, F.Response(0), false, true)
    else Told(TurnIn(h[..|h| - 1], t, a), h[|h| - 1], t, a)
  }

  /** The loop that the plan describes, in an environment that gives these answers. */
  function CaseOf(p: Plan, h: seq<Answer>): F.Case {
    F.Case(|p.targets|, p.retries, (t: nat) => t < |p.targets| && p.targets[t].hasTimeout, (t: nat, a: nat) => TurnIn(h, t, a))
  }

  predicate Matches(turn: F.Turn, x: Answer) {
    match x
    case Denied(_, _) => !turn.allowed
    case Allowed(_, _) => turn.allowed
    case Answered(_, _, reply) => turn.reply == reply
    case Observed(_, _, dead) => turn.contextDead == dead
    case Resumed(_, _, completed) => turn.pauseCompletes == completed
  }

  predicate Describes(c: F.Case, p: Plan) {
    c.targets == |p.targets| && c.retries == p.retries && forall t: nat :: t < |p.targets| ==> c.timeouts(t) == p.targets[t].hasTimeout
  }

  /** The environment of the loop gives every answer that was heard. */
  predicate Agrees(c: F.Case, h: seq<Answer>) {
    forall j :: 0 <= j < |h| ==> Matches(c.turn(h[j].t, h[j].a), h[j])
  }

  /** The questions of one attempt, in order. */
  function Kind(x: Answer): nat {
    match x
    case Denied(_, _) => 0
    case Allowed(_, _) => 0
    case Answered(_, _, _) => 1
    case Observed(_, _, _) => 2
    case Resumed(_, _, _) => 3
  }

  predicate SameQuestion(x: Answer, y: Answer) {
    x.t == y.t && x.a == y.a && Kind(x) == Kind(y)
  }

  predicate Precedes(x: Answer, y: Answer) {
    x.t < y.t || (x.t == y.t && (x.a < y.a || (x.a == y.a && Kind(x) < Kind(y))))
  }

  /** The questions came in the order of targets, attempts and kinds, so none was answered twice. */
  predicate InOrder(h: seq<Answer>) {
    forall i, j :: 0 <= i < j < |h| ==> Precedes(h[i], h[j])
  }

  lemma ToldKeeps(turn: F.Turn, x: Answer, y: Answer)
    requires Matches(turn, x) && !SameQuestion(x, y)
    ensures Matches(Told(turn, y, x.t, x.a), x)
  {
  }

  /** Answers to different questions fit into one environment. */
  lemma {:induction false} OrderAgrees(p: Plan, h: seq<Answer>)
    requires InOrder(h)
    ensures Agrees(CaseOf(p, h), h)
  {
    if h != [] {
      var n := |h| - 1;
      OrderAgrees(p, h[..n]);
      forall j | 0 <= j < |h| ensures Matches(TurnIn(h, h[j].t, h[j].a), h[j]) {
        if j < n {
          assert h[..n][j] == h[j];
          assert Matches(CaseOf(p, h[..n]).turn(h[j].t, h[j].a), h[j]);
          ToldKeeps(TurnIn(h[..n], h[j].t, h[j].a), h[j], h[n]);
        }
      }
    }
  }

  /** All answers so far belong to earlier attempts, or to the first `k` questions of this one. */
  predicate AllBefore(h: seq<Answer>, t: nat, a: nat, k: nat) {
    forall j :: 0 <= j < |h| ==> h[j].t < t || (h[j].t == t && (h[j].a < a || (h[j].a == a && Kind(h[j]) < k)))
  }

  predicate HeardAtGate(g: Gate, h: seq<Answer>, k: nat) {
    match g
    case ProviderGate(t, a) => AllBefore(h, t, a, k)
    case _ => h == []
  }

  /** What a request can have heard by its phase. */
  predicate HeardBy(r: Req, h: seq<Answer>) {
    match r.phase
    case Trying(g) => HeardAtGate(g, h, 0)
    case TurnedAway(g) => HeardAtGate(g, h, 0)
    case Polling(g, _) => HeardAtGate(g, h, 0)
    case Leaving(g, _, granted) => HeardAtGate(g, h, if granted then 1 else 0)
    case Calling(t, a) => AllBefore(h, t, a, 1)
    case Replied(t, a, _) => AllBefore(h, t, a, 2)
    case Dropping(t, a, _) => AllBefore(h, t, a, 3)
    case Pausing(t, a) => AllBefore(h, t, a, 3)
    case Started => h == []
    case Reading => h == []
    case Preparing => h == []
    case _ => true
  }

  lemma OneMore(h: seq<Answer>, x: Answer)
    requires InOrder(h) && AllBefore(h, x.t, x.a, Kind(x))
    ensures InOrder(h + [x]) && AllBefore(h + [x], x.t, x.a, Kind(x) + 1)
    ensures AllBefore(h + [x], x.t, x.a + 1, 0) && AllBefore(h + [x], x.t + 1, 0, 0)
  {
  }

  lemma LaterPlace(h: seq<Answer>, t: nat, a: nat, k: nat)
    requires AllBefore(h, t, a, k)
    ensures AllBefore(h, t, a + 1, 0) && AllBefore(h, t + 1, 0, 0)
  {
  }

  lemma ToTargetHears(r: Req, t: nat, h: seq<Answer>)
    requires AllBefore(h, t, 0, 0)
    ensures HeardBy(ToTarget(r, t), h)
  {
    hide AllBefore;
  }

  lemma DenyHears(r: Req, g: Gate, h: seq<Answer>)
    requires g.ProviderGate? ==> AllBefore(h, g.target + 1, 0, 0)
    ensures HeardBy(Deny(r, g), h)
  {
    hide AllBefore, ToTarget;
    if g.ProviderGate? {
      ToTargetHears(r, g.target + 1, h);
    }
  }

  lemma HeardNext(s: System, step: Step, i: nat, h: seq<Answer>)
    requires Acts(s, step, i) && HeardBy(s.reqs[i], h) && InOrder(h)
    ensures InOrder(h + Heard(s, step, i)) && HeardBy(Moved(s, step), h + Heard(s, step, i))
  {
    hide ScopesAt, FirstRefusal, F.Decide, InOrder, AllBefore, CanEnter, Kind, ToTarget, Deny;
    var r := s.reqs[i];
    assert h + [] == h;
    if step.FirstTry? || step.Poll? || step.EnterRoom? || step.LeaveRoom? || step.GiveUp? {
      HeardAtGates(s, step, i, h);
    } else if step.Drop? {
      LaterPlace(h, r.phase.target, r.phase.attempt, 3);
      ToTargetHears(Dropped(r), r.phase.target + 1, h);
    } else if step.Prepare? {
      NothingHeard();
      ToTargetHears(r, 0, h);
    } else {
      HeardInCalls(s, step, i, h);
    }
  }

  lemma HeardAtGates(s: System, step: Step, i: nat, h: seq<Answer>)
    requires step.FirstTry? || step.Poll? || step.EnterRoom? || step.LeaveRoom? || step.GiveUp?
    requires Acts(s, step, i) && HeardBy(s.reqs[i], h) && InOrder(h)
    ensures InOrder(h + Heard(s, step, i)) && HeardBy(Moved(s, step), h + Heard(s, step, i))
  {
    hide ScopesAt, FirstRefusal, InOrder, AllBefore, CanEnter, Kind, ToTarget, Deny;
    var r := s.reqs[i];
    var g := r.phase.gate;
    var x := Heard(s, step, i);
    KindsAre();
    if x == [] {
      assert h + x == h;
    } else {
      assert x == [x[0]];
      OneMore(h, x[0]);
    }
    if (step.EnterRoom? && !CanEnter(s.room)) || (step.LeaveRoom? && !r.phase.granted) {
      DenyHears(r, g, h + x);
    }
  }

  lemma HeardInCalls(s: System, step: Step, i: nat, h: seq<Answer>)
    requires step.Activate? || step.ReadBody? || step.EncodingFails? || step.Reply? || step.Settle? || step.PauseEnds?
             || step.StreamEnds? || step.Unwind? || step.Retire? || step.Finish?
    requires Acts(s, step, i) && HeardBy(s.reqs[i], h) && InOrder(h)
    ensures InOrder(h + Heard(s, step, i)) && HeardBy(Moved(s, step), h + Heard(s, step, i))
  {
    hide F.Decide, InOrder, AllBefore, Kind;
    var x := Heard(s, step, i);
    KindsAre();
    assert h + [] == h;
    if x != [] {
      assert x == [x[0]];
      OneMore(h, x[0]);
    }
  }

  lemma KindsAre()
    ensures forall x: Answer {:trigger Kind(x)} :: Kind(x) == (if x.Answered? then 1 else if x.Observed? then 2 else if x.Resumed? then 3 else 0)
  {
  }

  lemma NothingHeard()
    ensures forall t, a, k :: AllBefore([], t, a, k)
  {
  }

  lemma {:induction false} RunHears(max: int, steps: seq<Step>, i: nat)
    requires i < |Run(Initial(max), steps).reqs|
    ensures InOrder(AnswersOf(Initial(max), steps, i))
    ensures HeardBy(Run(Initial(max), steps).reqs[i], AnswersOf(Initial(max), steps, i))
  {
    if steps != [] {
      var init, step := steps[..|steps| - 1], steps[|steps| - 1];
      var before := Run(Initial(max), init);
      hide Heard, Done, Next, InOrder, HeardBy, Acts, Moved;
      if i >= |before.reqs| {
        NotYet(Initial(max), init, i);
        Arrival(before, step, i);
        NewHears(step.plan);
      } else {
        RunHears(max, init, i);
        if Acts(before, step, i) {
          StepHere(before, step, i);
          HeardNext(before, step, i, AnswersOf(Initial(max), init, i));
        } else {
          StepElsewhere(before, step, i);
          assert AnswersOf(Initial(max), init, i) + [] == AnswersOf(Initial(max), init, i);
        }
      }
    }
  }

  lemma NewHears(p: Plan)
    ensures InOrder([]) && HeardBy(Req(p, Started, [], Pending, 0), [])
  {
  }

  // ---------------------------------------------------------------------------------------------
  // The request walks that loop
  // ---------------------------------------------------------------------------------------------

  /** The loop is `n` events into attempt `a` of target `t`. */
  predicate Mid(c: F.Case, trace: seq<F.Event>, n: nat, t: nat, a: nat) {
    && t < c.targets && a <= c.retries
    && n <= |trace| && n <= |F.Attempt(c, t, a)|
    && trace[|trace| - n..] == F.Attempt(c, t, a)[..n]
    && F.Then(trace[..|trace| - n], F.Walk(c, t, a)) == F.Walk(c, 0, 0)
  }

  lemma MidMore(c: F.Case, trace: seq<F.Event>, n: nat, t: nat, a: nat, more: seq<F.Event>)
    requires Mid(c, trace, n, t, a) && n + |more| <= |F.Attempt(c, t, a)| && more == F.Attempt(c, t, a)[n..n + |more|]
    ensures Mid(c, trace + more, n + |more|, t, a)
  {
    hide F.Attempt, F.Walk;
    var all, attempt := trace + more, F.Attempt(c, t, a);
    assert all[..|all| - n - |more|] == trace[..|trace| - n];
    assert all[|all| - n - |more|..] == trace[|trace| - n..] + more;
    assert attempt[..n] + attempt[n..n + |more|] == attempt[..n + |more|];
  }

  /** The whole loop is behind, and ended without a response. */
  predicate Spent(c: F.Case, trace: seq<F.Event>) {
    F.Walked(trace, F.NoResponse) == F.Walk(c, 0, 0)
  }

  lemma MidDone(c: F.Case, trace: seq<F.Event>, t: nat, a: nat)
    requires Mid(c, trace, |F.Attempt(c, t, a)|, t, a)
    ensures var w := F.Onward(c, t, a);
            if w.Stop? then F.Walked(trace, w.end) == F.Walk(c, 0, 0)
            else if w.t < c.targets then Mid(c, trace, 0, w.t, w.a)
            else Spent(c, trace)
  {
    var base := trace[..|trace| - |F.Attempt(c, t, a)|];
    F.ThenThen(base, c, t, a);
    assert trace == base + F.Attempt(c, t, a);
    match F.Onward(c, t, a)
    case Stop(_) =>
    case On(t', a') =>
      if t' < c.targets {
        assert trace[..|trace| - 0] == trace;
      } else {
        assert F.Walk(c, t', a') == F.Walked([], F.NoResponse);
        assert trace + [] == trace;
      }
  }

  lemma MidPrefix(c: F.Case, trace: seq<F.Event>, n: nat, t: nat, a: nat)
    requires Mid(c, trace, n, t, a)
    ensures trace <= F.Walk(c, 0, 0).trace
  {
    var base, attempt := trace[..|trace| - n], F.Attempt(c, t, a);
    assert attempt <= F.Walk(c, t, a).trace;
    assert trace == base + attempt[..n];
  }

  /** What the loop makes of the reply to an admitted attempt. */
  function VerdictAt(c: F.Case, t: nat, a: nat): F.Verdict {
    F.Decide(c.turn(t, a).reply, c.timeouts(t), c.turn(t, a).contextDead, t, a, c.targets, c.retries)
  }

  predicate StandsAtGate(c: F.Case, trace: seq<F.Event>, g: Gate) {
    match g
    case ProviderGate(t, a) => Mid(c, trace, 0, t, a)
    case _ => trace == []
  }

  predicate StandsGranted(c: F.Case, trace: seq<F.Event>, g: Gate) {
    match g
    case ProviderGate(t, a) => Mid(c, trace, 1, t, a) && c.turn(t, a).allowed
    case _ => trace == []
  }

  /** The fate of a request is the end of the loop. */
  predicate Ends(c: F.Case, trace: seq<F.Event>, fate: Fate) {
    match fate
    case Forwarded => trace == F.Walk(c, 0, 0).trace && F.Walk(c, 0, 0).end.Forwarded?
    case Exhausted => Spent(c, trace)
    case Unprepared => trace <= F.Walk(c, 0, 0).trace
    case _ => trace == []
  }

  /** The trace of the request is that of the loop up to the place its phase says. */
  predicate Stands(r: Req, trace: seq<F.Event>, c: F.Case) {
    match r.phase
    case Started => trace == []
    case Reading => trace == []
    case Preparing => trace == []
    case Trying(g) => StandsAtGate(c, trace, g)
    case TurnedAway(g) => StandsAtGate(c, trace, g)
    case Polling(g, _) => StandsAtGate(c, trace, g)
    case Leaving(g, _, granted) => if granted then StandsGranted(c, trace, g) else StandsAtGate(c, trace, g)
    case Calling(t, a) => StandsGranted(c, trace, ProviderGate(t, a))
    case Replied(t, a, reply) => Mid(c, trace, 2, t, a) && c.turn(t, a).allowed && c.turn(t, a).reply == reply
    case Dropping(t, a, verdict) => Mid(c, trace, 2, t, a) && c.turn(t, a).allowed && verdict == VerdictAt(c, t, a) && !verdict.Forward?
    case Pausing(t, a) => Mid(c, trace, 4, t, a) && c.turn(t, a).allowed && VerdictAt(c, t, a).RetrySame?
    case Streaming(t, a) =>
      && r.fate.Forwarded? && trace == F.Walk(c, 0, 0).trace
      && F.Walk(c, 0, 0).end.Forwarded? && F.Walk(c, 0, 0).end.target == t && F.Walk(c, 0, 0).end.attempt == a
    case _ => Ends(c, trace, r.fate)
  }

  /** Where a request that goes on to target `t` stands, or one that has no target left. */
  lemma ToTargetStands(r: Req, t: nat, trace: seq<F.Event>, c: F.Case)
    requires Describes(c, r.plan)
    requires if t < c.targets then Mid(c, trace, 0, t, 0) else Spent(c, trace)
    ensures Stands(ToTarget(r, t), trace, c)
  {
  }

  lemma GrantStands(g: Gate, trace: seq<F.Event>, c: F.Case)
    requires StandsAtGate(c, trace, g) && (g.ProviderGate? ==> c.turn(g.target, g.attempt).allowed)
    ensures StandsGranted(c, if g.ProviderGate? then trace + [F.Acquired(g.target, g.attempt)] else trace, g)
  {
    if g.ProviderGate? {
      assert F.Attempt(c, g.target, g.attempt)[0..1] == [F.Acquired(g.target, g.attempt)];
      MidMore(c, trace, 0, g.target, g.attempt, [F.Acquired(g.target, g.attempt)]);
    }
  }

  lemma DeniedAttempt(c: F.Case, t: nat, a: nat)
    requires !c.turn(t, a).allowed
    ensures F.Attempt(c, t, a) == [F.Refused(t)]
    ensures t < c.targets && a <= c.retries ==> F.Onward(c, t, a) == F.On(t + 1, 0)
  {
  }

  lemma DenyStands(r: Req, g: Gate, trace: seq<F.Event>, c: F.Case)
    requires Describes(c, r.plan) && StandsAtGate(c, trace, g)
    requires g.ProviderGate? ==> !c.turn(g.target, g.attempt).allowed
    ensures Stands(Deny(r, g), if g.ProviderGate? then trace + [F.Refused(g.target)] else trace, c)
  {
    if g.ProviderGate? {
      var t, a := g.target, g.attempt;
      assert t < c.targets && a <= c.retries;
      DeniedAttempt(c, t, a);
      hide F.Attempt, F.Onward, F.Walk, Mid, ToTarget, Describes;
      assert F.Attempt(c, t, a)[0..1] == [F.Refused(t)];
      MidMore(c, trace, 0, t, a, [F.Refused(t)]);
      MidDone(c, trace + [F.Refused(t)], t, a);
      ToTargetStands(r, t + 1, trace + [F.Refused(t)], c);
    }
  }

  lemma ReplyStands(r: Req, t: nat, a: nat, reply: F.Reply, trace: seq<F.Event>, c: F.Case)
    requires StandsGranted(c, trace, ProviderGate(t, a)) && c.turn(t, a).reply == reply
    ensures Stands(r.(phase := Replied(t, a, reply)), trace + [F.Called(t, a, reply)], c)
  {
    assert F.Attempt(c, t, a)[1..2] == [F.Called(t, a, reply)];
    MidMore(c, trace, 1, t, a, [F.Called(t, a, reply)]);
  }

  lemma SettleStands(r: Req, t: nat, a: nat, reply: F.Reply, dead: bool, trace: seq<F.Event>, c: F.Case)
    requires Describes(c, r.plan) && Stands(r, trace, c) && r.phase == Replied(t, a, reply) && c.turn(t, a).contextDead == dead
    ensures Stands(AfterReply(r, t, a, reply, dead), trace, c)
  {
    if VerdictAt(c, t, a).Forward? {
      MidDone(c, trace, t, a);
    }
  }

  lemma DropStands(r: Req, t: nat, a: nat, verdict: F.Verdict, trace: seq<F.Event>, c: F.Case)
    requires Describes(c, r.plan) && Mid(c, trace, 2, t, a) && c.turn(t, a).allowed
    requires verdict == VerdictAt(c, t, a) && !verdict.Forward?
    ensures Stands(AfterDrop(r, t, a, verdict),
                   trace + ([F.Freed(t, a)] + if verdict.RetrySame? then [F.Paused(t, a, F.Delay(a))] else []), c)
  {
    var more := [F.Freed(t, a)] + if verdict.RetrySame? then [F.Paused(t, a, F.Delay(a))] else [];
    DropEvents(c, t, a, more);
    hide F.Attempt, F.Decide, F.Walk, F.Delay, Mid, VerdictAt;
    MidMore(c, trace, 2, t, a, more);
    if !verdict.RetrySame? {
      MidDone(c, trace + more, t, a);
      OnwardAfterDrop(c, t, a);
      if verdict.NextTarget? {
        ToTargetStands(r, t + 1, trace + more, c);
      }
    }
  }

  /** What is left of an admitted attempt after its call. */
  lemma DropEvents(c: F.Case, t: nat, a: nat, more: seq<F.Event>)
    requires c.turn(t, a).allowed && !VerdictAt(c, t, a).Forward?
    requires more == [F.Freed(t, a)] + if VerdictAt(c, t, a).RetrySame? then [F.Paused(t, a, F.Delay(a))] else []
    ensures |F.Attempt(c, t, a)| == 2 + |more| && F.Attempt(c, t, a)[2..2 + |more|] == more
  {
    hide F.Decide, F.Delay;
  }

  lemma OnwardAfterDrop(c: F.Case, t: nat, a: nat)
    requires t < c.targets && a <= c.retries && c.turn(t, a).allowed
    ensures VerdictAt(c, t, a).NextTarget? ==> F.Onward(c, t, a) == F.On(t + 1, 0)
    ensures VerdictAt(c, t, a).Abandon? ==> F.Onward(c, t, a) == F.Stop(F.NoResponse)
  {
  }

  lemma PauseStands(r: Req, t: nat, a: nat, completed: bool, trace: seq<F.Event>, c: F.Case)
    requires Stands(r, trace, c) && r.phase == Pausing(t, a) && c.turn(t, a).pauseCompletes == completed
    ensures Stands(if completed then r.(phase := Trying(ProviderGate(t, a + 1))) else Close(r, Exhausted, 1), trace, c)
  {
    MidDone(c, trace, t, a);
  }

  lemma PrepareStands(r: Req, c: F.Case)
    requires Describes(c, r.plan)
    ensures Stands(ToTarget(r, 0), [], c)
  {
    var nothing: seq<F.Event> := [];
    assert nothing + F.Walk(c, 0, 0).trace == F.Walk(c, 0, 0).trace;
    assert nothing[..0] == nothing;
    ToTargetStands(r, 0, nothing, c);
  }

  /** Every step of a request is the next thing its loop does. */
  lemma StandsNext(s: System, step: Step, i: nat, trace: seq<F.Event>, c: F.Case)
    requires Acts(s, step, i) && Stands(s.reqs[i], trace, c) && Describes(c, s.reqs[i].plan)
    requires Agrees(c, Heard(s, step, i))
    ensures Stands(Moved(s, step), trace + Done(s, step, i), c)
  {
    hide ScopesAt, FirstRefusal, CanEnter, ToTarget, AfterReply, AfterDrop, Deny, Mid, VerdictAt, StandsAtGate, StandsGranted, Describes, F.Walk, Spent, F.Delay;
    var r := s.reqs[i];
    var h := Heard(s, step, i);
    assert h != [] ==> Matches(c.turn(h[0].t, h[0].a), h[0]);
    assert trace + [] == trace;
    if step.FirstTry? || step.Poll? || step.EnterRoom? || step.LeaveRoom? || step.GiveUp? {
      GateStands(s, step, i, trace, c);
    } else if step.Reply? {
      ReplyStands(r, r.phase.target, r.phase.attempt, step.reply, trace, c);
    } else if step.Settle? {
      SettleStands(r, r.phase.target, r.phase.attempt, r.phase.reply, step.contextDead, trace, c);
    } else if step.Drop? {
      DropStands(Dropped(r), r.phase.target, r.phase.attempt, r.phase.verdict, trace, c);
    } else if step.PauseEnds? {
      PauseStands(r, r.phase.target, r.phase.attempt, step.completed, trace, c);
    } else {
      OtherStands(s, step, i, trace, c);
    }
  }

  lemma GateStands(s: System, step: Step, i: nat, trace: seq<F.Event>, c: F.Case)
    requires step.FirstTry? || step.Poll? || step.EnterRoom? || step.LeaveRoom? || step.GiveUp?
    requires Acts(s, step, i) && Stands(s.reqs[i], trace, c) && Describes(c, s.reqs[i].plan)
    requires Agrees(c, Heard(s, step, i))
    ensures Stands(Moved(s, step), trace + Done(s, step, i), c)
  {
    hide ScopesAt, FirstRefusal, CanEnter, ToTarget, Deny, Mid, StandsAtGate, Describes, F.Walk, Spent;
    var r := s.reqs[i];
    var g := r.phase.gate;
    var h := Heard(s, step, i);
    assert h != [] ==> Matches(c.turn(h[0].t, h[0].a), h[0]);
    assert trace + [] == trace;
    if Grabs(s, step) {
      GrantStands(g, trace, c);
    } else if (step.EnterRoom? && !CanEnter(s.room)) || (step.LeaveRoom? && !r.phase.granted) {
      DenyStands(r, g, trace, c);
    }
  }

  lemma OtherStands(s: System, step: Step, i: nat, trace: seq<F.Event>, c: F.Case)
    requires Acts(s, step, i) && Stands(s.reqs[i], trace, c) && Describes(c, s.reqs[i].plan)
    requires step.Activate? || step.ReadBody? || step.Prepare? || step.EncodingFails? || step.StreamEnds? || step.Unwind? || step.Retire? || step.Finish?
    ensures Stands(Moved(s, step), trace + Done(s, step, i), c)
  {
    hide ScopesAt, FirstRefusal, ToTarget, Mid, Describes, F.Walk;
    var r := s.reqs[i];
    assert trace + [] == trace;
    if step.Prepare? && step.ok {
      PrepareStands(r, c);
    } else if step.EncodingFails? {
      MidPrefix(c, trace, 0, r.phase.gate.target, r.phase.gate.attempt);
    }
  }

  /** In every run, every loop that would have heard the same stands where the request stands. */
  lemma {:induction false} RunStands(max: int, steps: seq<Step>, i: nat, c: F.Case)
    requires i < |Run(Initial(max), steps).reqs|
    requires Describes(c, Run(Initial(max), steps).reqs[i].plan) && Agrees(c, AnswersOf(Initial(max), steps, i))
    ensures Stands(Run(Initial(max), steps).reqs[i], TraceOf(Initial(max), steps, i), c)
  {
    if steps != [] {
      var init, step := steps[..|steps| - 1], steps[|steps| - 1];
      var before := Run(Initial(max), init);
      hide Heard, Done, Next, Stands, Acts, Moved, Describes, Matches;
      if i >= |before.reqs| {
        NotYet(Initial(max), init, i);
        Arrival(before, step, i);
        NewStands(step.plan, c);
      } else {
        var h, x := AnswersOf(Initial(max), init, i), Heard(before, step, i);
        AgreesParts(c, h, x);
        if Acts(before, step, i) {
          StepHere(before, step, i);
          RunStands(max, init, i, c);
          StandsNext(before, step, i, TraceOf(Initial(max), init, i), c);
        } else {
          StepElsewhere(before, step, i);
          RunStands(max, init, i, c);
          assert TraceOf(Initial(max), init, i) + [] == TraceOf(Initial(max), init, i);
        }
      }
    }
  }

  lemma AgreesParts(c: F.Case, h: seq<Answer>, x: seq<Answer>)
    requires Agrees(c, h + x)
    ensures Agrees(c, h) && Agrees(c, x)
  {
    assert forall j :: 0 <= j < |h| ==> (h + x)[j] == h[j];
    assert forall j :: 0 <= j < |x| ==> (h + x)[|h| + j] == x[j];
  }

  lemma NewStands(p: Plan, c: F.Case)
    ensures Stands(Req(p, Started, [], Pending, 0), [], c)
  {
  }

  /** The loop of request `i`: its plan, with the answers that this run gave it. */
  function LoopOf(max: int, steps: seq<Step>, i: nat): F.Case
    requires i < |Run(Initial(max), steps).reqs|
  {
    CaseOf(Run(Initial(max), steps).reqs[i].plan, AnswersOf(Initial(max), steps, i))
  }

  lemma StandsWithin(r: Req, trace: seq<F.Event>, c: F.Case)
    requires Stands(r, trace, c)
    ensures trace <= F.Walk(c, 0, 0).trace
  {
    hide F.Walk, F.Attempt, F.Decide, VerdictAt, Mid;
    match r.phase
    case Trying(ProviderGate(t, a)) => MidPrefix(c, trace, 0, t, a);
    case TurnedAway(ProviderGate(t, a)) => MidPrefix(c, trace, 0, t, a);
    case Polling(ProviderGate(t, a), _) => MidPrefix(c, trace, 0, t, a);
    case Leaving(ProviderGate(t, a), _, granted) => MidPrefix(c, trace, if granted then 1 else 0, t, a);
    case Calling(t, a) => MidPrefix(c, trace, 1, t, a);
    case Replied(t, a, _) => MidPrefix(c, trace, 2, t, a);
    case Dropping(t, a, _) => MidPrefix(c, trace, 2, t, a);
    case Pausing(t, a) => MidPrefix(c, trace, 4, t, a);
    case _ =>
  }

  /**
   Inside the shared gateway each request runs the failover loop. In every run, what request `i` has done at its
   providers (admissions, refusals, calls, releases, pauses) is the beginning of the trace of the loop for its plan
   and the answers the run gave it, and all of that trace once its fate says that the loop is behind it: a response
   was forwarded exactly if the loop forwards that one, and its targets are exhausted exactly if the loop ends
   without a response.
   */
  lemma RunsWalkTheLoop(max: int, steps: seq<Step>, i: nat)
    requires i < |Run(Initial(max), steps).reqs|
    ensures var r := Run(Initial(max), steps).reqs[i];
            var trace, c := TraceOf(Initial(max), steps, i), LoopOf(max, steps, i);
            var w := F.Walk(c, 0, 0);
            && Describes(c, r.plan) && Agrees(c, AnswersOf(Initial(max), steps, i))
            && trace <= w.trace && F.Calls(trace) <= F.Calls(w.trace)
            && (r.fate.Forwarded? ==> trace == w.trace && w.end.Forwarded?)
            && (r.phase.Streaming? ==> w.end.Forwarded? && w.end.target == r.phase.target && w.end.attempt == r.phase.attempt)
            && (r.fate.Exhausted? ==> trace == w.trace && w.end.NoResponse?)
  {
    hide Run, AnswersOf, TraceOf, F.Walk, F.Calls, Agrees, TurnIn, Stands, HeardBy, InOrder, Inv;
    var r := Run(Initial(max), steps).reqs[i];
    var h, trace, c := AnswersOf(Initial(max), steps, i), TraceOf(Initial(max), steps, i), LoopOf(max, steps, i);
    RunHears(max, steps, i);
    OrderAgrees(r.plan, h);
    assert Describes(c, r.plan);
    RunStands(max, steps, i, c);
    ReachedShape(max, steps, i);
    hide LoopOf, CaseOf, Shape, Describes;
    StandsWithin(r, trace, c);
    StandsEnds(r, trace, c);
    CallsWithin(trace, F.Walk(c, 0, 0).trace);
  }

  lemma ReachedShape(max: int, steps: seq<Step>, i: nat)
    requires i < |Run(Initial(max), steps).reqs|
    ensures Shape(Run(Initial(max), steps).reqs[i])
  {
    hide Shape, Conserved, Stairs, RoomKept, Accounted, Run;
    Invariant(max, steps);
  }

  lemma StandsEnds(r: Req, trace: seq<F.Event>, c: F.Case)
    requires Stands(r, trace, c) && Shape(r)
    ensures var w := F.Walk(c, 0, 0);
            && (r.fate.Forwarded? ==> trace == w.trace && w.end.Forwarded?)
            && (r.phase.Streaming? ==> w.end.Forwarded? && w.end.target == r.phase.target && w.end.attempt == r.phase.attempt)
            && (r.fate.Exhausted? ==> trace == w.trace && w.end.NoResponse?)
  {
    hide F.Walk, Mid, VerdictAt, ScopesAt, StandsAtGate, StandsGranted;
  }

  lemma CallsWithin(x: seq<F.Event>, y: seq<F.Event>)
    requires x <= y
    ensures F.Calls(x) <= F.Calls(y)
  {
    assert y == x + y[|x|..];
    F.CallsAppend(x, y[|x|..]);
  }

  /**
   So whatever holds of every loop holds of every request of every run: the trace law, the backoff law, the slot law,
   and that the reply forwarded is the final one, while a request that is out of targets has met no final reply.
   */
  lemma LoopLawsHoldInRuns(max: int, steps: seq<Step>, i: nat, u: nat)
    requires i < |Run(Initial(max), steps).reqs|
    ensures var p := Run(Initial(max), steps).reqs[i].plan;
            var trace, c := TraceOf(Initial(max), steps, i), LoopOf(max, steps, i);
            var calls := F.Calls(trace);
            && FL.Chain(c, calls) && (calls != [] ==> calls[0].attempt == 0)
            && |calls| <= |p.targets| * (p.retries + 1)
            && FL.PausedFor(trace, u) <= FL.PauseBound(p.retries)
            && !F.UseAll(F.Free, trace).Broken?
            && (Run(Initial(max), steps).reqs[i].fate.Forwarded? ==> calls != [] && FL.Final(c, calls[|calls| - 1]))
            && (Run(Initial(max), steps).reqs[i].fate.Exhausted? ==> forall j :: 0 <= j < |calls| ==> !FL.Final(c, calls[j]))
  {
    hide FL.Final;
    hide Run, TraceOf, LoopOf, AnswersOf, F.Walk, F.Calls, FL.PauseBound, FL.PausedFor, F.UseAll, FL.Chain, Agrees;
    RunsWalkTheLoop(max, steps, i);
    LawsOfBeginnings(LoopOf(max, steps, i), TraceOf(Initial(max), steps, i), u);
    SettledCalls(LoopOf(max, steps, i));
  }

  lemma SettledCalls(c: F.Case)
    ensures var w := F.Walk(c, 0, 0);
            var calls := F.Calls(w.trace);
            && (w.end.Forwarded? ==> calls != [] && FL.Final(c, calls[|calls| - 1]))
            && (w.end.NoResponse? ==> forall j :: 0 <= j < |calls| ==> !FL.Final(c, calls[j]))
  {
    hide F.Walk, F.Calls, FL.Final;
    FL.ForwardLaw(c, 0, 0);
  }

  lemma LawsOfBeginnings(c: F.Case, trace: seq<F.Event>, u: nat)
    requires trace <= F.Walk(c, 0, 0).trace && F.Calls(trace) <= F.Calls(F.Walk(c, 0, 0).trace)
    ensures var calls := F.Calls(trace);
            && FL.Chain(c, calls) && (calls != [] ==> calls[0].attempt == 0)
            && |calls| <= c.targets * (c.retries + 1)
            && FL.PausedFor(trace, u) <= FL.PauseBound(c.retries)
            && !F.UseAll(F.Free, trace).Broken?
  {
    hide F.Walk, F.Calls, FL.PauseBound, FL.PausedFor, F.UseAll;
    var w := F.Walk(c, 0, 0);
    FL.TraceLaw(c);
    FL.BackoffLaw(c, u);
    FL.SlotLaw(c, 0, 0);
    var rest := w.trace[|trace|..];
    assert w.trace == trace + rest;
    FL.PausedAppend(trace, rest, u);
    FL.UseAppend(F.Free, trace, rest);
    BrokenStays(rest);
  }

  // ---------------------------------------------------------------------------------------------
  // The status a run earns, and calls after the death of a context
  // ---------------------------------------------------------------------------------------------

  predicate HeardDenial(h: seq<Answer>) {
    exists j :: 0 <= j < |h| && h[j].Denied?
  }

  predicate HeardError(h: seq<Answer>) {
    exists j :: 0 <= j < |h| && h[j].Answered? && h[j].reply.TransportError?
  }

  lemma HeardAppend(h: seq<Answer>, x: seq<Answer>)
    ensures HeardDenial(h + x) == (HeardDenial(h) || HeardDenial(x))
    ensures HeardError(h + x) == (HeardError(h) || HeardError(x))
  {
    var all := h + x;
    assert forall j :: 0 <= j < |h| ==> all[j] == h[j];
    assert forall j :: 0 <= j < |x| ==> all[|h| + j] == x[j];
  }

  lemma StepFlags(s: System, step: Step, i: nat)
    ensures HeardDenial(Heard(s, step, i)) == F.AnyRefused(Done(s, step, i))
    ensures HeardError(Heard(s, step, i)) == F.AnyTransportError(Done(s, step, i))
  {
    hide Grabs, CanEnter, F.Delay;
    var h, d := Heard(s, step, i), Done(s, step, i);
    assert h != [] && h[0].Denied? ==> HeardDenial(h);
    assert h != [] && h[0].Answered? && h[0].reply.TransportError? ==> HeardError(h);
    assert d != [] && d[0].Refused? ==> F.AnyRefused(d);
    assert d != [] && d[0].Called? && d[0].reply.TransportError? ==> F.AnyTransportError(d);
  }

  /** What the trace of a request notes is what it heard. */
  lemma {:induction false} RunFlags(s: System, steps: seq<Step>, i: nat)
    ensures HeardDenial(AnswersOf(s, steps, i)) == F.AnyRefused(TraceOf(s, steps, i))
    ensures HeardError(AnswersOf(s, steps, i)) == F.AnyTransportError(TraceOf(s, steps, i))
  {
    if steps != [] {
      var init, step := steps[..|steps| - 1], steps[|steps| - 1];
      RunFlags(s, init, i);
      hide Heard, Done, HeardDenial, HeardError, F.AnyRefused, F.AnyTransportError, Run;
      StepFlags(Run(s, init), step, i);
      HeardAppend(AnswersOf(s, init, i), Heard(Run(s, init), step, i));
      F.AnyAppend(TraceOf(s, init, i), Done(Run(s, init), step, i));
    }
  }

  /**
   The status of a request that is out of targets follows from what the run told it: 504 exactly when its deadline has
   passed, otherwise 429 exactly when some provider admission was denied and no call ended in a transport error,
   otherwise 502.
   */
  lemma StatusInRuns(max: int, steps: seq<Step>, i: nat, deadlinePassed: bool)
    requires i < |Run(Initial(max), steps).reqs| && Run(Initial(max), steps).reqs[i].fate.Exhausted?
    ensures var h, w := AnswersOf(Initial(max), steps, i), F.Walk(LoopOf(max, steps, i), 0, 0);
            var status := F.FailureStatus(w.trace, deadlinePassed);
            && w.end.NoResponse?
            && (status == 504 <==> deadlinePassed)
            && (status == 429 <==> !deadlinePassed && HeardDenial(h) && !HeardError(h))
            && (status == 502 <==> !deadlinePassed && (!HeardDenial(h) || HeardError(h)))
  {
    hide Run, AnswersOf, TraceOf, LoopOf, F.Walk, Agrees, F.Calls, HeardDenial, HeardError, F.AnyRefused, F.AnyTransportError;
    RunsWalkTheLoop(max, steps, i);
    RunFlags(Initial(max), steps, i);
  }

  /** The environment of the run keeps a dead context dead and fails the calls made on it. */
  predicate StaysDead(h: seq<Answer>) {
    forall j, k :: 0 <= j < k < |h| && h[j].Observed? && h[j].dead ==>
      (h[k].Answered? ==> h[k].reply.TransportError?) && (h[k].Observed? ==> h[k].dead)
  }

  /** The context was seen dead in an attempt before this one. */
  predicate DeadBefore(h: seq<Answer>, t: nat, a: nat) {
    exists j :: 0 <= j < |h| && h[j].Observed? && h[j].dead && FL.Before(h[j].t, h[j].a, t, a)
  }

  function Doomed(turn: F.Turn): F.Turn {
    turn.(contextDead := true, reply := if turn.reply.TransportError? then turn.reply else F.TransportError(true))
  }

  /** The loop that met these answers, in an environment where death is final. */
  ghost function MortalCase(p: Plan, h: seq<Answer>): F.Case {
    CaseOf(p, h).(turn := (t: nat, a: nat) => if DeadBefore(h, t, a) then Doomed(TurnIn(h, t, a)) else TurnIn(h, t, a))
  }

  lemma {:induction false} DeadWasSeen(h: seq<Answer>, t: nat, a: nat) returns (j: nat)
    requires TurnIn(h, t, a).contextDead
    ensures j < |h| && h[j] == Observed(t, a, true)
  {
    var n := |h| - 1;
    if h[n] == Observed(t, a, true) {
      j := n;
    } else {
      j := DeadWasSeen(h[..n], t, a);
    }
  }

  lemma MortalIsMortal(p: Plan, h: seq<Answer>)
    ensures FL.Mortal(MortalCase(p, h))
  {
    var c := MortalCase(p, h);
    forall t: nat, a: nat, t': nat, a': nat | FL.Before(t, a, t', a') && c.turn(t, a).contextDead
      ensures c.turn(t', a').contextDead && c.turn(t', a').reply.TransportError?
    {
      if DeadBefore(h, t, a) {
        var j :| 0 <= j < |h| && h[j].Observed? && h[j].dead && FL.Before(h[j].t, h[j].a, t, a);
        assert FL.Before(h[j].t, h[j].a, t', a');
      } else {
        var j := DeadWasSeen(h, t, a);
        assert FL.Before(h[j].t, h[j].a, t', a');
      }
      assert DeadBefore(h, t', a');
    }
  }

  /** What is heard about an attempt after the death of the context is what Doomed says. */
  lemma HeardAfterDeath(h: seq<Answer>, k: nat)
    requires InOrder(h) && StaysDead(h) && k < |h| && DeadBefore(h, h[k].t, h[k].a)
    ensures (h[k].Answered? ==> h[k].reply.TransportError?) && (h[k].Observed? ==> h[k].dead)
  {
    var j :| 0 <= j < |h| && h[j].Observed? && h[j].dead && FL.Before(h[j].t, h[j].a, h[k].t, h[k].a);
    assert !Precedes(h[k], h[j]);
    assert j < k;
  }

  lemma DoomedMatches(turn: F.Turn, x: Answer)
    requires Matches(turn, x) && (x.Answered? ==> x.reply.TransportError?) && (x.Observed? ==> x.dead)
    ensures Matches(Doomed(turn), x)
  {
  }

  lemma MortalAgrees(p: Plan, h: seq<Answer>)
    requires InOrder(h) && StaysDead(h)
    ensures Agrees(MortalCase(p, h), h)
  {
    OrderAgrees(p, h);
    hide InOrder, StaysDead, DeadBefore, TurnIn, Matches, Doomed;
    var c := MortalCase(p, h);
    forall k | 0 <= k < |h| ensures Matches(c.turn(h[k].t, h[k].a), h[k]) {
      assert Matches(CaseOf(p, h).turn(h[k].t, h[k].a), h[k]);
      if DeadBefore(h, h[k].t, h[k].a) {
        HeardAfterDeath(h, k);
        DoomedMatches(TurnIn(h, h[k].t, h[k].a), h[k]);
      }
    }
  }

  /**
   In every run whose environment keeps a dead context dead, a request makes at most one more call after the one at
   which its context was seen dead, and if it makes that one it gets no response.
   */
  lemma OneCallAfterDeathInRuns(max: int, steps: seq<Step>, i: nat, n: nat)
    requires i < |Run(Initial(max), steps).reqs| && StaysDead(AnswersOf(Initial(max), steps, i))
    requires n < |F.Calls(TraceOf(Initial(max), steps, i))|
    requires var x := F.Calls(TraceOf(Initial(max), steps, i))[n];
             Observed(x.target, x.attempt, true) in AnswersOf(Initial(max), steps, i)
    ensures var calls := F.Calls(TraceOf(Initial(max), steps, i));
            && |calls| <= n + 2
            && (|calls| == n + 2 ==> !Run(Initial(max), steps).reqs[i].fate.Forwarded?)
  {
    hide Run, AnswersOf, TraceOf, F.Walk, F.Calls, StaysDead, InOrder, HeardBy, Stands, TurnIn, FL.Mortal, Shape;
    var r := Run(Initial(max), steps).reqs[i];
    var h, trace := AnswersOf(Initial(max), steps, i), TraceOf(Initial(max), steps, i);
    var c := MortalCase(r.plan, h);
    RunHears(max, steps, i);
    MortalIsMortal(r.plan, h);
    MortalAgrees(r.plan, h);
    assert Describes(c, r.plan);
    RunStands(max, steps, i, c);
    ReachedShape(max, steps, i);
    StandsWithin(r, trace, c);
    StandsEnds(r, trace, c);
    CallsWithin(trace, F.Walk(c, 0, 0).trace);
    var x := F.Calls(trace)[n];
    SeenDead(c, h, x.target, x.attempt);
    hide MortalCase, Agrees;
    FL.OneCallAfterDeath(c, n);
  }

  lemma SeenDead(c: F.Case, h: seq<Answer>, t: nat, a: nat)
    requires Agrees(c, h) && Observed(t, a, true) in h
    ensures c.turn(t, a).contextDead
  {
    var j :| 0 <= j < |h| && h[j] == Observed(t, a, true);
    assert Matches(c.turn(h[j].t, h[j].a), h[j]);
  }

  lemma {:induction false} BrokenStays(x: seq<F.Event>)
    ensures F.UseAll(F.Broken, x).Broken?
  {
    if x != [] {
      BrokenStays(x[..|x| - 1]);
    }
  }
}
