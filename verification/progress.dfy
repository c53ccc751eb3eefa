/** Every request needs a bounded number of steps, so the gateway can always finish everything it has begun. */
module Progress {
  import opened Limiter
  import opened Queue
  import opened Lifecycle
  import opened Laws = LifecycleLaws
  import T = LifecycleTheorems
  import A = Attempts
  import F = Failover

  // ---------------------------------------------------------------------------------------------
  // What a request has ahead of it
  // ---------------------------------------------------------------------------------------------

  function AttemptsFrom(p: Plan, t: nat): nat
    decreases |p.targets| - t
  {
    if t >= |p.targets| then 0 else p.retries + 1 + AttemptsFrom(p, t + 1)
  }

  lemma {:induction false} AttemptsAre(p: Plan, t: nat)
    requires t <= |p.targets|
    ensures AttemptsFrom(p, t) == (|p.targets| - t) * (p.retries + 1)
    decreases |p.targets| - t
  {
    if t < |p.targets| {
      AttemptsAre(p, t + 1);
      assert (|p.targets| - t - 1) * (p.retries + 1) + (p.retries + 1) == (|p.targets| - t) * (p.retries + 1);
    }
  }

  /** The steps ahead of a request before it tries a gate: at most eight for each attempt left, and the way out. */
  function WorkAt(p: Plan, g: Gate): int {
    match g
    case IngressGate => 16 + 8 * AttemptsFrom(p, 0)
    case ModelGate => 11 + 8 * AttemptsFrom(p, 0)
    case ProviderGate(t, a) => 6 + 8 * (AttemptsFrom(p, t) - a)
  }

  /** An upper bound on the steps ahead of a request, refused polls aside. */
  function Remaining(r: Req): int {
    match r.phase
    case Started => 1 + WorkAt(r.plan, IngressGate)
    case Trying(g) => WorkAt(r.plan, g)
    case TurnedAway(g) => WorkAt(r.plan, g) - 1
    case Polling(g, _) => WorkAt(r.plan, g) - 2
    case Leaving(g, _, _) => WorkAt(r.plan, g) - 3
    case Reading => 1 + WorkAt(r.plan, ModelGate)
    case Preparing => 7 + 8 * AttemptsFrom(r.plan, 0)
    case Calling(t, a) => WorkAt(r.plan, ProviderGate(t, a)) - 4
    case Replied(t, a, _) => WorkAt(r.plan, ProviderGate(t, a)) - 5
    case Dropping(t, a, _) => WorkAt(r.plan, ProviderGate(t, a)) - 6
    case Pausing(t, a) => WorkAt(r.plan, ProviderGate(t, a)) - 7
    case Streaming(_, _) => 3 + |r.held|
    case Closing => 2 + |r.held|
    case Retiring => 1
    case Done => 0
  }

  function Budget(p: Plan): int {
    17 + 8 * (|p.targets| * (p.retries + 1))
  }

  /** Of targets ahead, at least one whole row of attempts is left. */
  lemma RowLeft(p: Plan, t: nat)
    requires t < |p.targets|
    ensures AttemptsFrom(p, t) == p.retries + 1 + AttemptsFrom(p, t + 1)
  {
  }

  lemma FewHeld(r: Req)
    requires Shape(r) && !r.phase.Closing?
    ensures |r.held| <= 3
    ensures !r.phase.Streaming? && !r.phase.Retiring? && !r.phase.Done? && Waiting(r) ==> |r.held| <= 2
  {
    hide ScopesAt;
  }

  predicate Waiting(r: Req) {
    r.phase.Trying? || r.phase.TurnedAway? || r.phase.Polling? || (r.phase.Leaving? && !r.phase.granted) || r.phase.Pausing?
  }

  /** What is ahead of a request that is still on its way. */
  lemma RemainingIsEnough(r: Req)
    requires Shape(r) && A.WithinPlan(r)
    ensures Remaining(r) >= 0
    ensures Remaining(r) == 0 <==> r.phase.Done?
    ensures !r.phase.Closing? && !r.phase.Retiring? && !r.phase.Done? && !r.phase.Streaming? ==> Remaining(r) >= 7
  {
    hide ScopesAt, Shape;
    match r.phase
    case Trying(ProviderGate(t, a)) => RowLeft(r.plan, t);
    case TurnedAway(ProviderGate(t, a)) => RowLeft(r.plan, t);
    case Polling(ProviderGate(t, a), _) => RowLeft(r.plan, t);
    case Leaving(ProviderGate(t, a), _, _) => RowLeft(r.plan, t);
    case Calling(t, a) => RowLeft(r.plan, t);
    case Replied(t, a, _) => RowLeft(r.plan, t);
    case Dropping(t, a, _) => RowLeft(r.plan, t);
    case Pausing(t, a) => RowLeft(r.plan, t);
    case _ =>
  }

  // ---------------------------------------------------------------------------------------------
  // Every step that changes a request brings it closer to its end
  // ---------------------------------------------------------------------------------------------

  lemma ToTargetRemains(r: Req, t: nat)
    requires |r.held| <= 3
    ensures Remaining(ToTarget(r, t)) <= 6 + 8 * AttemptsFrom(r.plan, t)
  {
  }

  lemma DenyRemains(r: Req, g: Gate)
    requires |r.held| <= 3 && A.GatePlanned(r.plan, g)
    ensures Remaining(Deny(r, g)) < WorkAt(r.plan, g) - 3
  {
    match g
    case ProviderGate(t, a) =>
      RowLeft(r.plan, t);
      ToTargetRemains(r, t + 1);
    case _ =>
  }

  lemma GrantRemains(r: Req, g: Gate)
    ensures Remaining(r.(phase := GrantedPhase(g))) < WorkAt(r.plan, g) - 3
  {
  }

  lemma DropRemains(r: Req, t: nat, a: nat, verdict: F.Verdict)
    requires |r.held| <= 3 && A.Planned(r.plan, t, a)
    ensures Remaining(AfterDrop(r, t, a, verdict)) < WorkAt(r.plan, ProviderGate(t, a)) - 6
  {
    RowLeft(r.plan, t);
    ToTargetRemains(r, t + 1);
  }

  lemma StepsCount(s: System, step: Step)
    requires Enabled(s, step) && Moves(step)
    requires Shape(s.reqs[step.i]) && A.WithinPlan(s.reqs[step.i])
    requires Moved(s, step) != s.reqs[step.i]
    ensures Remaining(Moved(s, step)) < Remaining(s.reqs[step.i])
  {
    var r := s.reqs[step.i];
    if !r.phase.Closing? {
      FewHeld(r);
    }
    RemainingIsEnough(r);
    hide ScopesAt, FirstRefusal, CanEnter, F.Decide, ToTarget, Deny, AttemptsFrom, Shape, WorkAt, GrantedPhase, AfterDrop;
    if step.FirstTry? || step.Poll? || step.EnterRoom? || step.LeaveRoom? || step.GiveUp? {
      GateCounts(s, step);
    } else if step.Drop? {
      DropRemains(Dropped(r), r.phase.target, r.phase.attempt, r.phase.verdict);
    } else if step.Prepare? {
      ToTargetRemains(r, 0);
    } else {
      OtherCounts(s, step);
    }
  }

  lemma GateCounts(s: System, step: Step)
    requires step.FirstTry? || step.Poll? || step.EnterRoom? || step.LeaveRoom? || step.GiveUp?
    requires Enabled(s, step) && Moves(step) && |s.reqs[step.i].held| <= 3 && A.WithinPlan(s.reqs[step.i])
    requires Moved(s, step) != s.reqs[step.i]
    ensures Remaining(Moved(s, step)) < Remaining(s.reqs[step.i])
  {
    hide ScopesAt, FirstRefusal, CanEnter, ToTarget, Deny, AttemptsFrom, WorkAt, GrantedPhase;
    var r := s.reqs[step.i];
    var g := r.phase.gate;
    if (step.LeaveRoom? && r.phase.granted) || (step.FirstTry? && Granted(s.store, ScopesAt(r.plan, g), step.now)) {
      GrantRemains(if step.FirstTry? then Hold(r, g, r.phase) else r, g);
    } else if (step.LeaveRoom? && !r.phase.granted) || (step.EnterRoom? && !CanEnter(s.room)) {
      DenyRemains(r, g);
    }
  }

  lemma OtherCounts(s: System, step: Step)
    requires Enabled(s, step) && Moves(step) && A.WithinPlan(s.reqs[step.i])
    requires step.Activate? || step.ReadBody? || step.EncodingFails? || step.Reply? || step.Settle? || step.PauseEnds?
             || step.StreamEnds? || step.Unwind? || step.Retire? || step.Finish?
    requires !s.reqs[step.i].phase.Closing? ==> |s.reqs[step.i].held| <= 3
    ensures Remaining(Moved(s, step)) < Remaining(s.reqs[step.i])
  {
    hide ScopesAt, FirstRefusal, CanEnter, F.Decide, ToTarget, Deny, AfterDrop, AttemptsFrom;
    var r := s.reqs[step.i];
    match r.phase
    case Trying(ProviderGate(t, _)) => RowLeft(r.plan, t);
    case Replied(t, _, _) => RowLeft(r.plan, t);
    case Pausing(t, _) => RowLeft(r.plan, t);
    case _ =>
  }

  /** The steps of a run that change request `i`: all of its own but the refused polls. */
  function StepsOf(s: System, steps: seq<Step>, i: nat): nat {
    if steps == [] then 0
    else
      var before, step := Run(s, steps[..|steps| - 1]), steps[|steps| - 1];
      StepsOf(s, steps[..|steps| - 1], i) + (if A.Acts(before, step, i) && Moved(before, step) != before.reqs[i] then 1 else 0)
  }

  lemma {:induction false} NoStepsYet(s: System, steps: seq<Step>, i: nat)
    requires i >= |Run(s, steps).reqs|
    ensures StepsOf(s, steps, i) == 0
  {
    if steps != [] {
      hide Moved, StoreAfter, MetricsAfter, RoomAfter;
      assert |Run(s, steps).reqs| >= |Run(s, steps[..|steps| - 1]).reqs|;
      NoStepsYet(s, steps[..|steps| - 1], i);
    }
  }

  lemma BudgetCovers(p: Plan)
    ensures Remaining(Req(p, Started, [], Pending, 0)) == Budget(p)
  {
    AttemptsAre(p, 0);
  }

  /**
   A request takes at most 17 + 8 * targets * (retries + 1) steps in any run, not counting refused polls, whatever
   the other requests and reloads do; and it is done exactly when nothing of that is left.
   */
  lemma {:induction false} StepsAreBounded(max: int, steps: seq<Step>, i: nat)
    requires i < |Run(Initial(max), steps).reqs|
    ensures var r := Run(Initial(max), steps).reqs[i];
            && StepsOf(Initial(max), steps, i) + Remaining(r) <= Budget(r.plan)
            && Remaining(r) >= 0 && (Remaining(r) == 0 <==> r.phase.Done?)
  {
    A.ReachedShape(max, steps, i);
    A.RunsStayWithinPlan(max, steps, i);
    hide Shape, A.WithinPlan, Moved, Next, Remaining, Budget;
    RemainingIsEnough(Run(Initial(max), steps).reqs[i]);
    if steps != [] {
      var init, step := steps[..|steps| - 1], steps[|steps| - 1];
      var before := Run(Initial(max), init);
      if i >= |before.reqs| {
        NoStepsYet(Initial(max), init, i);
        A.Arrival(before, step, i);
        BudgetCovers(step.plan);
      } else {
        StepsAreBounded(max, init, i);
        if A.Acts(before, step, i) {
          A.StepHere(before, step, i);
          if Moved(before, step) != before.reqs[i] {
            A.ReachedShape(max, init, i);
            A.RunsStayWithinPlan(max, init, i);
            StepsCount(before, step);
          }
        } else {
          A.StepElsewhere(before, step, i);
        }
      }
    }
  }

  // ---------------------------------------------------------------------------------------------
  // Draining
  // ---------------------------------------------------------------------------------------------

  function RemainingOf(): Req -> int { (r: Req) => if Remaining(r) >= 0 then Remaining(r) else 0 }

  function TimeAfter(step: Step, t: real): real {
    if step.FirstTry? || step.Poll? then step.now else t
  }

  /** Steps of requests in which no waiter gives up and the clock does not run backwards. */
  predicate Patient(steps: seq<Step>, from: real) {
    steps == [] ||
    (Moves(steps[0]) && !steps[0].GiveUp? && from <= TimeAfter(steps[0], from) && Patient(steps[1..], TimeAfter(steps[0], from)))
  }

  lemma AdvanceCounts(max: int, steps: seq<Step>, step: Step, i: nat, from: real)
    requires T.Advances(Run(Initial(max), steps), step, i, from)
    ensures var s, s' := Run(Initial(max), steps), Run(Initial(max), steps + [step]);
            && 0 <= Sum(s'.reqs, RemainingOf()) < Sum(s.reqs, RemainingOf())
            && |s'.reqs| == |s.reqs| && (forall j :: 0 <= j < |s.reqs| ==> s'.reqs[j].plan == s.reqs[j].plan)
  {
    var s := Run(Initial(max), steps);
    A.ReachedShape(max, steps, i);
    A.RunsStayWithinPlan(max, steps, i);
    A.StepHere(s, step, i);
    assert (steps + [step])[..|steps|] == steps;
    assert Run(Initial(max), steps + [step]) == Next(s, step);
    assert Next(s, step).reqs == s.reqs[i := Moved(s, step)] by { hide Moved, StoreAfter, MetricsAfter, RoomAfter; }
    hide Run, Next, Shape, A.WithinPlan, Moved, Remaining, Sum;
    StepsCount(s, step);
    RemainingIsEnough(s.reqs[i]);
    SumReplace(s.reqs, i, Moved(s, step), RemainingOf());
    SumNatural(s.reqs[i := Moved(s, step)], RemainingOf());
  }

  /**
   The gateway can always finish everything it has begun: from every reachable state, at any time, there is a way on
   in which no new request arrives, no waiter gives up, the clock moves forward and every request ends.
   */
  lemma {:induction false} CanAlwaysDrain(max: int, steps: seq<Step>, from: real) returns (more: seq<Step>)
    requires forall j :: 0 <= j < |Run(Initial(max), steps).reqs| ==> T.SoundPlan(Run(Initial(max), steps).reqs[j].plan)
    ensures Patient(more, from) && T.Quiet(Run(Initial(max), steps + more))
    decreases Sum(Run(Initial(max), steps).reqs, RemainingOf())
  {
    hide Run, T.SoundPlan, T.Quiet, Sum, T.Advances;
    if T.Quiet(Run(Initial(max), steps)) {
      more := [];
      assert steps + [] == steps;
    } else {
      var j, step := SomeAdvance(max, steps, from);
      AdvanceCounts(max, steps, step, j, from);
      var rest := CanAlwaysDrain(max, steps + [step], TimeAfter(step, from));
      more := [step] + rest;
      assert more[1..] == rest;
      assert steps + more == steps + [step] + rest;
    }
  }

  lemma SomeAdvance(max: int, steps: seq<Step>, from: real) returns (j: nat, step: Step)
    requires forall j :: 0 <= j < |Run(Initial(max), steps).reqs| ==> T.SoundPlan(Run(Initial(max), steps).reqs[j].plan)
    requires !T.Quiet(Run(Initial(max), steps))
    ensures T.Advances(Run(Initial(max), steps), step, j, from)
    ensures Moves(step) && !step.GiveUp? && from <= TimeAfter(step, from)
  {
    var s := Run(Initial(max), steps);
    var i: nat :| i < |s.reqs| && !s.reqs[i].phase.Done?;
    assert T.Reached(max, steps) == s;
    hide Run, T.SoundPlan, Moved, Enabled;
    T.SomeoneCanAlwaysMove(max, steps, i, from);
    j, step :| T.Advances(s, step, j, from);
  }
}
