/** The promises of the admission protocol, over every run. */
module LifecycleTheorems {
  import opened Config
  import opened Limiter
  import opened RateLaws
  import opened Reservations
  import opened Queue
  import L = Lifecycle
  import opened Laws = LifecycleLaws
  import F = Failover

  /** The state after any steps of any requests and reloads, from an idle gateway. */
  function Reached(max: int, steps: seq<L.Step>): L.System {
    L.Run(L.Initial(max), steps)
  }

  // ---------------------------------------------------------------------------------------------
  // Conservation
  // ---------------------------------------------------------------------------------------------

  /**
   Whatever the interleaving, each counter is the number of slots held by live requests, and a key has
   an entry exactly while someone holds it.
   */
  lemma ReservationsAreConserved(max: int, steps: seq<L.Step>, k: Key)
    ensures var s := Reached(max, steps);
            && Active(s.store.concurrent, k) == Sum(s.reqs, HeldOn(k))
            && (k in s.store.concurrent <==> Sum(s.reqs, HeldOn(k)) > 0)
            && s.room.waiting == Sum(s.reqs, Waits())
  {
    Invariant(max, steps);
  }

  /** Every release in every run takes off exactly the slots it holds, and every leave exactly one waiter. */
  lemma ReleasesAreExact(max: int, steps: seq<L.Step>, step: L.Step, k: Key)
    requires L.Enabled(Reached(max, steps), step)
    ensures var s := Reached(max, steps);
            var s' := L.Next(s, step);
            && (step.Drop? || step.Unwind? ==>
                  Active(s'.store.concurrent, k) == Active(s.store.concurrent, k) - Slots(L.Last(s.reqs[step.i]), k))
            && (step.LeaveRoom? ==> s'.room.waiting == s.room.waiting - 1)
  {
    Invariant(max, steps);
    var s := Reached(max, steps);
    if step.Drop? || step.Unwind? {
      FreesExactly(s, step, k);
    }
    RoomKeptNext(s, step);
  }

  /**
   Limits hold across reloads. However many configurations the live requests carry, at most `m` slots of
   a key were granted under a limit of at most `m`, and at most `m` requests entered a room of at most `m`.
   */
  lemma LimitsHoldAcrossReloads(max: int, steps: seq<L.Step>, k: Key, m: nat)
    ensures Sum(Reached(max, steps).reqs, HeldUpTo(k, m)) <= m
    ensures Sum(Reached(max, steps).reqs, WaitsUpTo(m)) <= m
  {
    Invariant(max, steps);
  }

  /** So a key is never used beyond the largest limit that its present holders were granted under. */
  lemma NeverBeyondTheLargestLimit(max: int, steps: seq<L.Step>, k: Key, m: nat)
    requires forall i :: 0 <= i < |Reached(max, steps).reqs| ==>
               HeldSlotsUpTo(Reached(max, steps).reqs[i].held, k, m) == HeldSlots(Reached(max, steps).reqs[i].held, k)
    ensures Active(Reached(max, steps).store.concurrent, k) <= m
  {
    Invariant(max, steps);
    var s := Reached(max, steps);
    SumMonotone(s.reqs, HeldOn(k), HeldUpTo(k, m));
  }

  /** No request is in flight. */
  predicate Quiet(s: L.System) {
    forall i :: 0 <= i < |s.reqs| ==> s.reqs[i].phase.Done?
  }

  lemma {:induction false} QuietSums(reqs: seq<L.Req>, k: Key)
    requires forall i :: 0 <= i < |reqs| ==> reqs[i].phase.Done? && Shape(reqs[i])
    ensures Sum(reqs, HeldOn(k)) == 0 && Sum(reqs, Waits()) == 0 && Sum(reqs, IsActive()) == 0
    ensures Sum(reqs, IsCompleted()) + Sum(reqs, HasFailed()) == |reqs|
  {
    if reqs != [] {
      QuietSums(reqs[..|reqs| - 1], k);
    }
  }

  /**
   When the last request is gone nothing is left behind: no reservation, no waiter, nothing active, and
   every request was counted once, as completed or as failed.
   */
  lemma NothingLeaks(max: int, steps: seq<L.Step>)
    requires Quiet(Reached(max, steps))
    ensures var s := Reached(max, steps);
            && s.store.concurrent == map[] && s.room.waiting == 0
            && s.metrics.active == 0 && s.metrics.requests == s.metrics.completed + s.metrics.failed == |s.reqs|
  {
    Invariant(max, steps);
    var s := Reached(max, steps);
    QuietSums(s.reqs, Ingress);
    forall k ensures k !in s.store.concurrent {
      QuietSums(s.reqs, k);
    }
  }

  /**
   At every moment upstream errors stay within upstream requests, a request has written at most one usage
   record, and a finished one has written exactly one if it was refused at its model, forwarded a response
   or exhausted its targets, and none otherwise.
   */
  lemma RunsAreAccounted(max: int, steps: seq<L.Step>, i: nat)
    requires i < |Reached(max, steps).reqs|
    ensures var s := Reached(max, steps);
            var r := s.reqs[i];
            && s.metrics.upstreamErrors <= s.metrics.upstreamRequests
            && r.records <= 1
            && (r.phase.Done? ==> (r.records == 1 <==> r.fate in {L.RefusedModel, L.Exhausted, L.Forwarded}))
            && (r.phase.Done? ==> !r.fate.Pending?)
  {
    Invariant(max, steps);
    SumNatural(Reached(max, steps).reqs, IsErring());
    assert Shape(Reached(max, steps).reqs[i]);
  }

  // ---------------------------------------------------------------------------------------------
  // No circular wait
  // ---------------------------------------------------------------------------------------------

  function Level(g: L.Gate): nat {
    match g
    case IngressGate => 0
    case ModelGate => 1
    case ProviderGate(_, _) => 2
  }

  function LevelOfKey(k: Key): nat {
    match k
    case Ingress => 0
    case Client(_) => 0
    case Model(_) => 1
    case Provider(_) => 2
  }

  lemma ScopesHaveLevel(p: L.Plan, g: L.Gate, j: nat)
    requires j < |L.ScopesAt(p, g)|
    ensures LevelOfKey(L.ScopesAt(p, g)[j].key) == Level(g)
  {
  }

  lemma SlotsHaveLevel(p: L.Plan, g: L.Gate, k: Key)
    requires Slots(L.ScopesAt(p, g), k) > 0
    ensures LevelOfKey(k) == Level(g)
  {
    ScopesDistinct(p, g);
    var j := SlotSource(L.ScopesAt(p, g), k);
    ScopesHaveLevel(p, g, j);
  }

  /** Everything from the gates below a gate has a lower level. */
  lemma BelowIsLower(p: L.Plan, g: L.Gate, k: Key)
    requires HeldSlots(Below(p, g), k) > 0
    ensures LevelOfKey(k) < Level(g)
  {
    var held := Below(p, g);
    var ingress, model := L.ScopesAt(p, L.IngressGate), L.ScopesAt(p, L.ModelGate);
    assert [ingress][..0] == [] && [ingress, model][..1] == [ingress];
    hide L.ScopesAt, Slots;
    assert HeldSlots([ingress], k) == Slots(ingress, k);
    assert HeldSlots([ingress, model], k) == Slots(ingress, k) + Slots(model, k);
    if g.ProviderGate? && Slots(model, k) > 0 {
      SlotsHaveLevel(p, L.ModelGate, k);
    } else {
      SlotsHaveLevel(p, L.IngressGate, k);
    }
  }

  /** The gate at which a request tries or waits for admission, if it does. */
  predicate WaitsAt(r: L.Req, g: L.Gate) {
    match r.phase
    case Trying(gate) => gate == g
    case TurnedAway(gate) => gate == g
    case Polling(gate, _) => gate == g
    case _ => false
  }

  /**
   In every reachable state, a request that tries or polls for admission holds slots of lower gates only: never of
   the gate it waits at, and so never of a provider while it waits for one or pauses before a repeat.
   */
  lemma WaitersHoldLower(max: int, steps: seq<L.Step>, i: nat, k: Key)
    requires i < |Reached(max, steps).reqs| && HeldSlots(Reached(max, steps).reqs[i].held, k) > 0
    ensures var r := Reached(max, steps).reqs[i];
            && (forall g :: WaitsAt(r, g) ==> LevelOfKey(k) < Level(g))
            && (r.phase.Pausing? ==> !k.Provider?)
  {
    Invariant(max, steps);
    var r := Reached(max, steps).reqs[i];
    assert Shape(r);
    hide L.ScopesAt, HeldSlots, Below;
    forall g | WaitsAt(r, g) ensures LevelOfKey(k) < Level(g) {
      BelowIsLower(r.plan, g, k);
    }
    if r.phase.Pausing? {
      BelowIsLower(r.plan, L.ProviderGate(r.phase.target, r.phase.attempt), k);
    }
  }

  /** Request `i` polls and some scope it asks for has no slot to give. */
  predicate Blocked(s: L.System, i: nat) {
    && i < |s.reqs| && s.reqs[i].phase.Polling?
    && exists j :: 0 <= j < |Wanted(s, i)| && Full(s.store, Wanted(s, i)[j])
  }

  function Wanted(s: L.System, i: nat): seq<Scope>
    requires i < |s.reqs| && s.reqs[i].phase.Polling?
  {
    L.ScopesAt(s.reqs[i].plan, s.reqs[i].phase.gate)
  }

  predicate InFlight(s: L.System, i: nat) {
    i < |s.reqs| && !s.reqs[i].phase.Done?
  }

  /** A blocked request waits for someone who holds the key it wants. */
  lemma BlockedByHolder(s: L.System, i: nat) returns (k: Key, j: nat)
    requires Inv(s) && Blocked(s, i)
    ensures LevelOfKey(k) == Level(s.reqs[i].phase.gate)
    ensures j < |s.reqs| && HeldSlots(s.reqs[j].held, k) > 0 && InFlight(s, j)
  {
    var n :| 0 <= n < |Wanted(s, i)| && Full(s.store, Wanted(s, i)[n]);
    k := Wanted(s, i)[n].key;
    ScopesHaveLevel(s.reqs[i].plan, s.reqs[i].phase.gate, n);
    j := SumSource(s.reqs, HeldOn(k));
    assert Shape(s.reqs[j]);
  }

  /** Following holders leads to higher and higher gates, so it ends at a request that is not blocked. */
  lemma {:induction false} HolderChainEnds(s: L.System, i: nat) returns (j: nat)
    requires Inv(s) && Blocked(s, i)
    ensures InFlight(s, j) && !Blocked(s, j) && s.reqs[j].held != []
    decreases 2 - Level(s.reqs[i].phase.gate)
  {
    var k;
    k, j := BlockedByHolder(s, i);
    if Blocked(s, j) {
      assert Shape(s.reqs[j]);
      BelowIsLower(s.reqs[j].plan, s.reqs[j].phase.gate, k);
      j := HolderChainEnds(s, j);
    }
  }

  /**
   No circular wait: in every reachable state, if a request is polling for a slot that is not there, some
   request in flight holds a reservation and is itself not polling for a missing slot.
   */
  lemma NoCircularWait(max: int, steps: seq<L.Step>, i: nat)
    requires Blocked(Reached(max, steps), i)
    ensures var s := Reached(max, steps);
            exists j: nat :: InFlight(s, j) && !Blocked(s, j) && s.reqs[j].held != []
  {
    Invariant(max, steps);
    var j := HolderChainEnds(Reached(max, steps), i);
  }

  // ---------------------------------------------------------------------------------------------
  // Someone can always move
  // ---------------------------------------------------------------------------------------------

  /** The limits a plan carries passed loading. */
  predicate SoundPlan(p: L.Plan) {
    && Sound(p.clientLimits) && Sound(p.modelLimits)
    && forall t :: 0 <= t < |p.targets| ==> Sound(p.targets[t].limits)
  }

  lemma SoundScopes(p: L.Plan, g: L.Gate, j: nat)
    requires SoundPlan(p) && j < |L.ScopesAt(p, g)|
    ensures L.ScopesAt(p, g)[j].limits.requestsPerMinute >= 0.0 && L.ScopesAt(p, g)[j].limits.burst >= 0
    ensures Rated(L.ScopesAt(p, g)[j]) ==> L.ScopesAt(p, g)[j].limits.burst >= 1
  {
  }

  lemma NotStarvedLater(st: Store, s: Scope, t: real, t': real)
    requires s.limits.requestsPerMinute >= 0.0 && t <= t' && !Starved(st, s, t)
    ensures !Starved(st, s, t')
  {
    assert s == Scope(s.key, s.limits);
    AtLater(st, s.key, s.limits, t, t');
    SupplyGrows(s.limits, t' - t);
  }

  /** A starved bucket that can hold a token has one again after a while. */
  lemma TokenReturns(st: Store, s: Scope, from: real) returns (t: real)
    requires Rated(s) ==> s.limits.burst >= 1
    ensures t >= from && !Starved(st, s, t)
  {
    t := from;
    if Starved(st, s, from) {
      var b, rate := st.buckets[s.key], s.limits.requestsPerMinute;
      var gap := EnoughTime(b.tokens, rate);
      t := if b.updated + gap >= from then b.updated + gap else from;
      EnoughSupply(s.limits, gap, t - b.updated);
    }
  }

  lemma EnoughTime(tokens: real, rate: real) returns (gap: real)
    requires rate > 0.0
    ensures gap >= 0.0 && tokens + gap * rate >= 1.0
  {
    if tokens >= 1.0 {
      gap := 0.0;
    } else {
      gap := EnoughRate(tokens, rate);
    }
  }

  lemma EnoughSupply(l: Limits, gap: real, longer: real)
    requires l.requestsPerMinute >= 0.0 && gap <= longer
    ensures Supply(l, longer) >= gap * l.requestsPerMinute
  {
    SupplyAdds(l, 0.0, gap, longer);
    SupplyGrows(l, longer - gap);
  }

  lemma {:induction false} TokensReturn(st: Store, scopes: seq<Scope>, from: real) returns (t: real)
    requires forall j :: 0 <= j < |scopes| ==>
               scopes[j].limits.requestsPerMinute >= 0.0 && (Rated(scopes[j]) ==> scopes[j].limits.burst >= 1)
    ensures t >= from && forall j :: 0 <= j < |scopes| ==> !Starved(st, scopes[j], t)
  {
    if scopes == [] {
      t := from;
    } else {
      var n := |scopes| - 1;
      var t0 := TokensReturn(st, scopes[..n], from);
      t := TokenReturns(st, scopes[n], t0);
      forall j | 0 <= j < |scopes| ensures !Starved(st, scopes[j], t) {
        if j < n {
          assert scopes[j] == scopes[..n][j];
          NotStarvedLater(st, scopes[j], t0, t);
        }
      }
    }
  }

  /** A step of request `i`, no earlier than `from`, that changes it and is not it giving up. */
  predicate Advances(s: L.System, step: L.Step, i: nat, from: real) {
    && Moves(step) && L.Enabled(s, step) && step.i == i && !step.GiveUp?
    && (step.FirstTry? || step.Poll? ==> step.now >= from)
    && L.Moved(s, step) != s.reqs[i]
  }

  /** A step that a request outside polling can take at once. */
  function Onward(r: L.Req, i: nat, from: real): L.Step
    requires !r.phase.Polling? && !r.phase.Done?
  {
    match r.phase
    case Started => L.Activate(i)
    case Trying(_) => L.FirstTry(i, from)
    case TurnedAway(_) => L.EnterRoom(i)
    case Leaving(_, _, _) => L.LeaveRoom(i)
    case Reading => L.ReadBody(i, true)
    case Preparing => L.Prepare(i, true)
    case Calling(_, _) => L.Reply(i, F.Response(200))
    case Replied(_, _, _) => L.Settle(i, false)
    case Dropping(_, _, _) => L.Drop(i)
    case Pausing(_, _) => L.PauseEnds(i, true)
    case Streaming(_, _) => L.StreamEnds(i)
    case Closing => if r.held == [] then L.Retire(i) else L.Unwind(i)
    case Retiring => L.Finish(i)
  }

  lemma OnwardIsEnabled(s: L.System, i: nat, from: real)
    requires InFlight(s, i) && !s.reqs[i].phase.Polling? && Shape(s.reqs[i])
    ensures var step := Onward(s.reqs[i], i, from);
            Moves(step) && L.Enabled(s, step) && step.i == i && !step.GiveUp? && !step.Poll?
            && (step.FirstTry? ==> step.now == from)
  {
  }

  lemma UnblockedAdvances(s: L.System, i: nat, from: real) returns (step: L.Step)
    requires Shapes(s) && InFlight(s, i) && !Blocked(s, i) && SoundPlan(s.reqs[i].plan)
    ensures Advances(s, step, i, from)
  {
    hide L.Moved, L.Enabled, Shape, SoundPlan, Blocked;
    if s.reqs[i].phase.Polling? {
      step := PollSucceeds(s, i, from);
    } else {
      step := Onward(s.reqs[i], i, from);
      OnwardIsEnabled(s, i, from);
      StepMoves(s, step);
    }
  }

  lemma PollSucceeds(s: L.System, i: nat, from: real) returns (step: L.Step)
    requires i < |s.reqs| && s.reqs[i].phase.Polling? && !Blocked(s, i) && SoundPlan(s.reqs[i].plan)
    ensures Advances(s, step, i, from)
  {
    var scopes := Wanted(s, i);
    forall j | 0 <= j < |scopes|
      ensures scopes[j].limits.requestsPerMinute >= 0.0 && (Rated(scopes[j]) ==> scopes[j].limits.burst >= 1)
    {
      SoundScopes(s.reqs[i].plan, s.reqs[i].phase.gate, j);
    }
    hide L.ScopesAt;
    var now := TokensReturn(s.store, scopes, from);
    GrantedIffNoneRefuses(s.store, scopes, now);
    step := L.Poll(i, now);
  }

  /** Outside polling, a step always leaves its phase or gives up a reservation. */
  lemma StepMoves(s: L.System, step: L.Step)
    requires Moves(step) && L.Enabled(s, step) && !step.Poll? && !step.GiveUp?
    ensures L.Moved(s, step) != s.reqs[step.i]
  {
    hide L.ScopesAt, F.Decide, FirstRefusal;
    var r, r' := s.reqs[step.i], L.Moved(s, step);
    if step.Unwind? {
      assert |r'.held| != |r.held|;
    } else {
      assert r'.phase != r.phase;
    }
  }

  /**
   The gateway never seizes up: in every reachable state with a request in flight, some request has a
   step ahead of it other than giving up. Where it must poll, there is a time, as late as one likes, at
   which its poll is granted with the store as it stands.
   */
  lemma SomeoneCanAlwaysMove(max: int, steps: seq<L.Step>, i: nat, from: real)
    requires InFlight(Reached(max, steps), i)
    requires forall j :: 0 <= j < |Reached(max, steps).reqs| ==> SoundPlan(Reached(max, steps).reqs[j].plan)
    ensures exists j: nat, step :: Advances(Reached(max, steps), step, j, from)
  {
    Invariant(max, steps);
    var s := Reached(max, steps);
    var j := i;
    if Blocked(s, i) {
      j := HolderChainEnds(s, i);
    }
    var step := UnblockedAdvances(s, j, from);
  }
}
