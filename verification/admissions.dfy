/** What each gate asks for, told by the phases and plans of the requests alone. */
module Admissions {
  import opened Config
  import opened Limiter
  import opened Queue
  import opened Reservations
  import R = RateLaws
  import opened Lifecycle
  import opened Laws = LifecycleLaws
  import T = LifecycleTheorems
  import A = Attempts
  import F = Failover

  // ---------------------------------------------------------------------------------------------
  // Counting requests
  // ---------------------------------------------------------------------------------------------

  /** How many of the requests have the property. */
  function Count(reqs: seq<Req>, p: Req -> bool): nat {
    if reqs == [] then 0 else Count(reqs[..|reqs| - 1], p) + (if p(reqs[|reqs| - 1]) then 1 else 0)
  }

  lemma {:induction false} CountWithin(reqs: seq<Req>, p: Req -> bool, f: Req -> int)
    requires forall i :: 0 <= i < |reqs| ==> f(reqs[i]) >= if p(reqs[i]) then 1 else 0
    ensures Count(reqs, p) <= Sum(reqs, f)
  {
    if reqs != [] {
      CountWithin(reqs[..|reqs| - 1], p, f);
    }
  }

  lemma {:induction false} CountIs(reqs: seq<Req>, p: Req -> bool, f: Req -> int)
    requires forall i :: 0 <= i < |reqs| ==> f(reqs[i]) == if p(reqs[i]) then 1 else 0
    ensures Count(reqs, p) == Sum(reqs, f)
  {
    if reqs != [] {
      CountIs(reqs[..|reqs| - 1], p, f);
    }
  }

  // ---------------------------------------------------------------------------------------------
  // Limits on the requests behind a gate
  // ---------------------------------------------------------------------------------------------

  /** The request has been admitted to the provider of its target and has not given that up. */
  predicate AtProvider(r: Req, name: string, m: int) {
    match r.phase
    case Calling(t, _) => CallsUnder(r.plan, t, name, m)
    case Replied(t, _, _) => CallsUnder(r.plan, t, name, m)
    case Dropping(t, _, _) => CallsUnder(r.plan, t, name, m)
    case Streaming(t, _) => CallsUnder(r.plan, t, name, m)
    case _ => false
  }

  predicate CallsUnder(p: Plan, t: nat, name: string, m: int) {
    t < |p.targets| && p.targets[t].provider == name && 0 < p.targets[t].limits.maxConcurrent <= m
  }

  /** The request has been admitted to its model and has not begun to close. */
  predicate PastModel(phase: Phase) {
    match phase
    case Trying(g) => g.ProviderGate?
    case TurnedAway(g) => g.ProviderGate?
    case Polling(g, _) => g.ProviderGate?
    case Leaving(g, _, granted) => g.ProviderGate? || (g.ModelGate? && granted)
    case Preparing => true
    case Calling(_, _) => true
    case Replied(_, _, _) => true
    case Dropping(_, _, _) => true
    case Pausing(_, _) => true
    case Streaming(_, _) => true
    case _ => false
  }

  /** The request has been admitted to the gateway and has not begun to close. */
  predicate PastIngress(phase: Phase) {
    match phase
    case Trying(g) => !g.IngressGate?
    case TurnedAway(g) => !g.IngressGate?
    case Polling(g, _) => !g.IngressGate?
    case Leaving(g, _, granted) => !g.IngressGate? || granted
    case Reading => true
    case _ => PastModel(phase)
  }

  lemma {:induction false} HeldIncludes(held: seq<seq<Scope>>, i: nat, k: Key, m: int)
    requires i < |held|
    ensures HeldSlotsUpTo(held, k, m) >= SlotsUpTo(held[i], k, m)
  {
    if i < |held| - 1 {
      HeldIncludes(held[..|held| - 1], i, k, m);
    }
  }

  lemma OneScope(s: Scope, m: int)
    requires 0 < s.limits.maxConcurrent <= m
    ensures SlotsUpTo([s], s.key, m) == 1
  {
    assert [s][..0] == [];
  }

  /** What the scopes of the gates take, in numbers. */
  lemma GateSlots(p: Plan, m: int)
    ensures 0 < p.maxRequests <= m ==> SlotsUpTo(ScopesAt(p, IngressGate), Ingress, m) >= 1
    ensures 0 < p.clientLimits.maxConcurrent <= m ==> SlotsUpTo(ScopesAt(p, IngressGate), Client(p.client), m) >= 1
    ensures 0 < p.modelLimits.maxConcurrent <= m ==> SlotsUpTo(ScopesAt(p, ModelGate), Model(p.alias), m) >= 1
    ensures forall t: nat, a: nat :: t < |p.targets| && 0 < p.targets[t].limits.maxConcurrent <= m ==>
              SlotsUpTo(ScopesAt(p, ProviderGate(t, a)), Provider(p.targets[t].provider), m) >= 1
  {
    var scopes := ScopesAt(p, IngressGate);
    assert scopes[..1] == [scopes[0]] && [scopes[0]][..0] == [];
    if 0 < p.modelLimits.maxConcurrent <= m {
      OneScope(Scope(Model(p.alias), p.modelLimits), m);
    }
    forall t: nat, a: nat | t < |p.targets| && 0 < p.targets[t].limits.maxConcurrent <= m
      ensures SlotsUpTo(ScopesAt(p, ProviderGate(t, a)), Provider(p.targets[t].provider), m) >= 1
    {
      OneScope(Scope(Provider(p.targets[t].provider), p.targets[t].limits), m);
    }
  }

  lemma HoldsIngress(r: Req)
    requires Shape(r) && PastIngress(r.phase)
    ensures |r.held| >= 1 && r.held[0] == ScopesAt(r.plan, IngressGate)
  {
    hide ScopesAt;
  }

  lemma HoldsModel(r: Req)
    requires Shape(r) && PastModel(r.phase)
    ensures |r.held| >= 2 && r.held[1] == ScopesAt(r.plan, ModelGate)
  {
    hide ScopesAt;
  }

  lemma HoldsProvider(r: Req, name: string, m: int)
    requires Shape(r) && AtProvider(r, name, m)
    ensures HeldSlotsUpTo(r.held, Provider(name), m) >= 1
  {
    GateSlots(r.plan, m);
    var t, a := r.phase.target, r.phase.attempt;
    assert r.held == Through(r.plan, ProviderGate(t, a)) && r.held[2] == ScopesAt(r.plan, ProviderGate(t, a));
    hide ScopesAt, SlotsUpTo, HeldSlotsUpTo;
    HeldIncludes(r.held, 2, Provider(name), m);
  }

  lemma NeverNegative(k: Key, m: int)
    ensures forall r :: HeldUpTo(k, m)(r) >= 0
  {
  }

  /**
   However many configurations the requests carry, at most m of them are at one provider under a limit of at most m:
   calling it, judging its reply, giving up its slot or streaming its response.
   */
  lemma ProviderLimitHolds(max: int, steps: seq<Step>, name: string, m: nat)
    ensures Count(T.Reached(max, steps).reqs, (r: Req) => AtProvider(r, name, m)) <= m
  {
    Invariant(max, steps);
    var s := T.Reached(max, steps);
    hide AtProvider, Shape, Sum, HeldSlotsUpTo;
    forall i | 0 <= i < |s.reqs|
      ensures HeldUpTo(Provider(name), m)(s.reqs[i]) >= if AtProvider(s.reqs[i], name, m) then 1 else 0
    {
      if AtProvider(s.reqs[i], name, m) {
        HoldsProvider(s.reqs[i], name, m);
      }
    }
    CountWithin(s.reqs, (r: Req) => AtProvider(r, name, m), HeldUpTo(Provider(name), m));
  }

  lemma HoldsModelSlot(r: Req, m: int)
    requires Shape(r) && PastModel(r.phase) && 0 < r.plan.modelLimits.maxConcurrent <= m
    ensures HeldSlotsUpTo(r.held, Model(r.plan.alias), m) >= 1
  {
    GateSlots(r.plan, m);
    HoldsModel(r);
    HeldIncludes(r.held, 1, Model(r.plan.alias), m);
  }

  /** At most m requests are past the gate of one model under a limit of at most m. */
  lemma ModelLimitHolds(max: int, steps: seq<Step>, alias: string, m: nat)
    ensures Count(T.Reached(max, steps).reqs,
                  (r: Req) => PastModel(r.phase) && r.plan.alias == alias && 0 < r.plan.modelLimits.maxConcurrent <= m) <= m
  {
    Invariant(max, steps);
    var s := T.Reached(max, steps);
    var p := (r: Req) => PastModel(r.phase) && r.plan.alias == alias && 0 < r.plan.modelLimits.maxConcurrent <= m;
    hide PastModel, Shape, Sum, HeldSlotsUpTo;
    forall i | 0 <= i < |s.reqs| ensures HeldUpTo(Model(alias), m)(s.reqs[i]) >= if p(s.reqs[i]) then 1 else 0 {
      if p(s.reqs[i]) {
        HoldsModelSlot(s.reqs[i], m);
      }
    }
    CountWithin(s.reqs, p, HeldUpTo(Model(alias), m));
  }

  lemma HoldsIngressSlots(r: Req, m: int)
    requires Shape(r) && PastIngress(r.phase)
    ensures 0 < r.plan.clientLimits.maxConcurrent <= m ==> HeldSlotsUpTo(r.held, Client(r.plan.client), m) >= 1
    ensures 0 < r.plan.maxRequests <= m ==> HeldSlotsUpTo(r.held, Ingress, m) >= 1
  {
    GateSlots(r.plan, m);
    HoldsIngress(r);
    HeldIncludes(r.held, 0, Client(r.plan.client), m);
    HeldIncludes(r.held, 0, Ingress, m);
  }

  /** At most m requests of one client are past the ingress gate under a limit of at most m. */
  lemma ClientLimitHolds(max: int, steps: seq<Step>, client: string, m: nat)
    ensures Count(T.Reached(max, steps).reqs,
                  (r: Req) => PastIngress(r.phase) && r.plan.client == client && 0 < r.plan.clientLimits.maxConcurrent <= m) <= m
  {
    Invariant(max, steps);
    var s := T.Reached(max, steps);
    var p := (r: Req) => PastIngress(r.phase) && r.plan.client == client && 0 < r.plan.clientLimits.maxConcurrent <= m;
    hide PastIngress, Shape, Sum, HeldSlotsUpTo;
    forall i | 0 <= i < |s.reqs| ensures HeldUpTo(Client(client), m)(s.reqs[i]) >= if p(s.reqs[i]) then 1 else 0 {
      if p(s.reqs[i]) {
        HoldsIngressSlots(s.reqs[i], m);
      }
    }
    CountWithin(s.reqs, p, HeldUpTo(Client(client), m));
  }

  /** At most m requests in all are past the ingress gate under a bound of at most m. */
  lemma RequestLimitHolds(max: int, steps: seq<Step>, m: nat)
    ensures Count(T.Reached(max, steps).reqs, (r: Req) => PastIngress(r.phase) && 0 < r.plan.maxRequests <= m) <= m
  {
    Invariant(max, steps);
    var s := T.Reached(max, steps);
    var p := (r: Req) => PastIngress(r.phase) && 0 < r.plan.maxRequests <= m;
    hide PastIngress, Shape, Sum, HeldSlotsUpTo;
    forall i | 0 <= i < |s.reqs| ensures HeldUpTo(Ingress, m)(s.reqs[i]) >= if p(s.reqs[i]) then 1 else 0 {
      if p(s.reqs[i]) {
        HoldsIngressSlots(s.reqs[i], m);
      }
    }
    CountWithin(s.reqs, p, HeldUpTo(Ingress, m));
  }

  // ---------------------------------------------------------------------------------------------
  // What passes a gate, and what that costs
  // ---------------------------------------------------------------------------------------------

  /** There is a slot and a whole token under these limits. */
  predicate HasRoom(st: Store, k: Key, l: Limits, now: real) {
    && (l.maxConcurrent > 0 ==> (if k in st.concurrent then st.concurrent[k] else 0) < l.maxConcurrent)
    && (l.requestsPerMinute > 0.0 ==>
          && l.burst >= 1
          && (k in st.buckets ==> st.buckets[k].tokens + (now - st.buckets[k].updated) * l.requestsPerMinute >= 1.0))
  }

  /** The key is left with one slot more in use and one token less, as far as its limits ask for them. */
  predicate Charged(before: Store, after: Store, k: Key, l: Limits, now: real) {
    && (if k in after.concurrent then after.concurrent[k] else 0)
       == (if k in before.concurrent then before.concurrent[k] else 0) + (if l.maxConcurrent > 0 then 1 else 0)
    && (l.requestsPerMinute > 0.0 ==>
          k in after.buckets && after.buckets[k].updated == now
          && after.buckets[k].tokens ==
             (if k !in before.buckets then l.burst as real
              else
                var earned := before.buckets[k].tokens + (now - before.buckets[k].updated) * l.requestsPerMinute;
                if earned <= l.burst as real then earned else l.burst as real) - 1.0)
    && (l.requestsPerMinute <= 0.0 ==>
          (k in after.buckets <==> k in before.buckets) && (k in before.buckets ==> after.buckets[k] == before.buckets[k]))
  }

  /** The gate that a try is made at, and whether the try got the request through it. */
  predicate Passes(s: System, step: Step)
    requires Tries(s, step)
  {
    var phase, next := s.reqs[step.i].phase, Moved(s, step).phase;
    if step.Poll? then next == Leaving(phase.gate, phase.cap, true)
    else
      match phase.gate
      case IngressGate => next == Reading
      case ModelGate => next == Preparing
      case ProviderGate(t, a) => next == Calling(t, a)
  }

  lemma PassesIffGranted(s: System, step: Step)
    requires Tries(s, step)
    ensures Passes(s, step) <==> Granted(s.store, TriedScopes(s, step), step.now)
    ensures Next(s, step).store == Admitted(s.store, TriedScopes(s, step), step.now)
    ensures |Next(s, step).reqs| == |s.reqs| && Next(s, step).reqs[step.i] == Moved(s, step)
  {
    hide ScopesAt, FirstRefusal, Admitted, MetricsAfter;
  }

  lemma RoomIsAgreement(st: Store, s: Scope, now: real)
    ensures HasRoom(st, s.key, s.limits, now) <==> !Refuses(st, s, now)
  {
    R.AgreesIff(st, s, now);
  }

  lemma GrantIsCharged(st: Store, scopes: seq<Scope>, now: real, j: nat)
    requires Granted(st, scopes, now) && DistinctKeys(scopes) && j < |scopes|
    ensures Charged(st, Admitted(st, scopes, now), scopes[j].key, scopes[j].limits, now)
  {
    var k, l := scopes[j].key, scopes[j].limits;
    assert R.Lists(scopes, k);
    assert R.Fixes(scopes, k, l);
    R.GrantCharges(st, scopes, now, k, l);
    assert scopes[j] == Scope(k, l);
    TakeOne(st.concurrent, scopes, j);
    if k in st.buckets {
      assert Supply(l, now - st.buckets[k].updated) == (now - st.buckets[k].updated) * l.requestsPerMinute;
    }
  }

  lemma {:induction false} TakeOther(c: map<Key, int>, scopes: seq<Scope>, k: Key)
    requires forall j :: 0 <= j < |scopes| ==> scopes[j].key != k
    ensures Active(TakeAll(c, scopes), k) == Active(c, k)
  {
    if scopes != [] {
      TakeOther(c, scopes[..|scopes| - 1], k);
    }
  }

  lemma {:induction false} TakeOne(c: map<Key, int>, scopes: seq<Scope>, j: nat)
    requires DistinctKeys(scopes) && j < |scopes|
    ensures Active(TakeAll(c, scopes), scopes[j].key) == Active(c, scopes[j].key) + (if scopes[j].limits.maxConcurrent > 0 then 1 else 0)
  {
    var n := |scopes| - 1;
    if j < n {
      TakeOne(c, scopes[..n], j);
    } else {
      TakeOther(c, scopes[..n], scopes[j].key);
    }
  }

  /**
   The ingress gate lets a request through exactly when the gateway has a slot for it and its client has a slot and a
   token, and then charges both.
   */
  lemma IngressGateAsks(s: System, step: Step)
    requires Tries(s, step) && s.reqs[step.i].phase.gate.IngressGate?
    ensures var p, st, st' := s.reqs[step.i].plan, s.store, Next(s, step).store;
            && (Passes(s, step) <==>
                  (p.maxRequests > 0 ==> (if Ingress in st.concurrent then st.concurrent[Ingress] else 0) < p.maxRequests)
                  && HasRoom(st, Client(p.client), p.clientLimits, step.now))
            && (Passes(s, step) ==>
                  Charged(st, st', Ingress, Limits(0.0, 0, p.maxRequests), step.now) && Charged(st, st', Client(p.client), p.clientLimits, step.now))
  {
    var p, scopes := s.reqs[step.i].plan, TriedScopes(s, step);
    assert scopes == [Scope(Ingress, Limits(0.0, 0, p.maxRequests)), Scope(Client(p.client), p.clientLimits)];
    hide ScopesAt, TriedScopes, HasRoom, Charged, Passes, FirstRefusal, Admitted, Next;
    PassesIffGranted(s, step);
    R.GrantedIffNoneRefuses(s.store, scopes, step.now);
    RoomIsAgreement(s.store, scopes[0], step.now);
    RoomIsAgreement(s.store, scopes[1], step.now);
    IngressRoom(s.store, p.maxRequests, step.now);
    if Granted(s.store, scopes, step.now) {
      GrantIsCharged(s.store, scopes, step.now, 0);
      GrantIsCharged(s.store, scopes, step.now, 1);
    }
  }

  lemma IngressRoom(st: Store, n: int, now: real)
    ensures HasRoom(st, Ingress, Limits(0.0, 0, n), now) <==>
            (n > 0 ==> (if Ingress in st.concurrent then st.concurrent[Ingress] else 0) < n)
  {
  }

  lemma OneScopeGate(s: System, step: Step, k: Key, l: Limits)
    requires Tries(s, step) && TriedScopes(s, step) == [Scope(k, l)]
    ensures Passes(s, step) <==> HasRoom(s.store, k, l, step.now)
    ensures Passes(s, step) ==> Charged(s.store, Next(s, step).store, k, l, step.now)
  {
    var scopes := TriedScopes(s, step);
    hide ScopesAt, TriedScopes, HasRoom, Charged, Passes, FirstRefusal, Admitted, Next;
    PassesIffGranted(s, step);
    R.GrantedIffNoneRefuses(s.store, scopes, step.now);
    RoomIsAgreement(s.store, scopes[0], step.now);
    if Granted(s.store, scopes, step.now) {
      GrantIsCharged(s.store, scopes, step.now, 0);
    }
  }

  /** The model gate lets a request through exactly when its model has a slot and a token for it, and then charges it. */
  lemma ModelGateAsks(s: System, step: Step)
    requires Tries(s, step) && s.reqs[step.i].phase.gate.ModelGate?
    ensures var p := s.reqs[step.i].plan;
            && (Passes(s, step) <==> HasRoom(s.store, Model(p.alias), p.modelLimits, step.now))
            && (Passes(s, step) ==> Charged(s.store, Next(s, step).store, Model(p.alias), p.modelLimits, step.now))
  {
    OneScopeGate(s, step, Model(s.reqs[step.i].plan.alias), s.reqs[step.i].plan.modelLimits);
  }

  /** In every run, a provider gate lets a request through exactly when the provider of its own target has a slot and a token, and then charges it. */
  lemma ProviderGateAsks(max: int, steps: seq<Step>, step: Step)
    requires Tries(T.Reached(max, steps), step) && T.Reached(max, steps).reqs[step.i].phase.gate.ProviderGate?
    ensures var s := T.Reached(max, steps);
            var p, t := s.reqs[step.i].plan, s.reqs[step.i].phase.gate.target;
            && t < |p.targets|
            && (Passes(s, step) <==> HasRoom(s.store, Provider(p.targets[t].provider), p.targets[t].limits, step.now))
            && (Passes(s, step) ==> Charged(s.store, Next(s, step).store, Provider(p.targets[t].provider), p.targets[t].limits, step.now))
  {
    var s := T.Reached(max, steps);
    var p, t := s.reqs[step.i].plan, s.reqs[step.i].phase.gate.target;
    A.RunsStayWithinPlan(max, steps, step.i);
    hide Run, T.Reached, Next, Passes, HasRoom, Charged;
    OneScopeGate(s, step, Provider(p.targets[t].provider), p.targets[t].limits);
  }

  // ---------------------------------------------------------------------------------------------
  // The waiting room
  // ---------------------------------------------------------------------------------------------

  /**
   A request turned away by a gate waits exactly when the room is open and not full. If it cannot wait, or gives up
   waiting, it is refused for good: at the ingress and model gates it ends so, at a provider it goes on to the next
   target or is out of targets.
   */
  lemma RoomDecides(s: System, i: nat)
    requires i < |s.reqs| && s.reqs[i].phase.TurnedAway?
    ensures var r, s' := s.reqs[i], Next(s, EnterRoom(i));
            && |s'.reqs| == |s.reqs|
            && if 0 < s.room.max && s.room.waiting < s.room.max then
                 s'.reqs[i].phase == Polling(r.phase.gate, s.room.max) && s'.room.waiting == s.room.waiting + 1
               else
                 s'.room == s.room && LostAt(r, s'.reqs[i], r.phase.gate)
  {
  }

  lemma GivingUpLoses(s: System, i: nat)
    requires i < |s.reqs| && s.reqs[i].phase.Leaving? && !s.reqs[i].phase.granted
    ensures var r, s' := s.reqs[i], Next(s, LeaveRoom(i));
            |s'.reqs| == |s.reqs| && LostAt(r, s'.reqs[i], r.phase.gate)
  {
  }

  /** What becomes of a request that a gate refuses for good. */
  predicate LostAt(r: Req, r': Req, g: Gate) {
    match g
    case IngressGate => r'.phase.Closing? && r'.fate.RefusedIngress?
    case ModelGate => r'.phase.Closing? && r'.fate.RefusedModel?
    case ProviderGate(t, _) =>
      if t + 1 < |r.plan.targets| then r'.phase == Trying(ProviderGate(t + 1, 0)) else r'.phase.Closing? && r'.fate.Exhausted?
  }

  /** A reload resizes the room and forgets the buckets. Waiters, reservations and requests stay as they are. */
  lemma ReloadTouches(s: System, max: int)
    ensures Next(s, SetRoom(max)) == System(s.store, Room(s.room.waiting, max), s.reqs, s.metrics)
    ensures Next(s, ClearBuckets) == System(Store(map[], s.store.concurrent), s.room, s.reqs, s.metrics)
  {
  }

  /**
   The environment is free: a waiter may try again or give up at any moment, a body may be bad or good, a payload may
   fail to take shape, a call may end in any way, its context may be alive or dead, and a pause may be cut short or not.
   */
  lemma EnvironmentIsFree(s: System, i: nat, now: real, answer: bool, reply: F.Reply)
    requires i < |s.reqs|
    ensures s.reqs[i].phase.Polling? ==> Enabled(s, Poll(i, now)) && Next(s, GiveUp(i)).reqs == s.reqs[i := Waived(s.reqs[i])]
    ensures s.reqs[i].phase.Trying? ==> Enabled(s, FirstTry(i, now))
    ensures s.reqs[i].phase.Trying? && s.reqs[i].phase.gate.ProviderGate? && s.reqs[i].phase.gate.attempt == 0 ==> Enabled(s, EncodingFails(i))
    ensures s.reqs[i].phase.Reading? ==> Enabled(s, ReadBody(i, answer))
    ensures s.reqs[i].phase.Preparing? ==> Enabled(s, Prepare(i, answer))
    ensures s.reqs[i].phase.Calling? ==> Enabled(s, Reply(i, reply))
    ensures s.reqs[i].phase.Replied? ==> Enabled(s, Settle(i, answer))
    ensures s.reqs[i].phase.Pausing? ==> Enabled(s, PauseEnds(i, answer))
  {
  }

  /** A waiter that has given up but is still in the room. */
  function Waived(r: Req): Req
    requires r.phase.Polling?
  {
    r.(phase := Leaving(r.phase.gate, r.phase.cap, false))
  }

  // ---------------------------------------------------------------------------------------------
  // What the fates mean
  // ---------------------------------------------------------------------------------------------

  /** The step refuses request `i` for good at the gate where it stands. */
  predicate RefusesFor(s: System, step: Step, i: nat)
    requires A.Acts(s, step, i)
  {
    (step.EnterRoom? && !(0 < s.room.max && s.room.waiting < s.room.max)) || (step.LeaveRoom? && !s.reqs[i].phase.granted)
  }

  /** A fate is given once, and each of the early ones by its own cause. */
  lemma FatesHaveCauses(max: int, steps: seq<Step>, step: Step, i: nat)
    requires A.Acts(T.Reached(max, steps), step, i)
    ensures var s := T.Reached(max, steps);
            var r, r' := s.reqs[i], Moved(s, step);
            if !r.fate.Pending? then r'.fate == r.fate
            else
              && (r'.fate.RefusedIngress? <==> RefusesFor(s, step, i) && r.phase.gate.IngressGate?)
              && (r'.fate.RefusedModel? <==> RefusesFor(s, step, i) && r.phase.gate.ModelGate?)
              && (r'.fate.BadRequest? <==> step.ReadBody? && !step.ok)
              && (r'.fate.Unprepared? <==> step.EncodingFails? || (step.Prepare? && !step.ok))
              && (r'.fate.Forwarded? ==> step.Settle?)
              && (r'.fate.Exhausted? ==> step.EnterRoom? || step.LeaveRoom? || step.Prepare? || step.Drop? || step.PauseEnds?)
  {
    A.ReachedShape(max, steps, i);
    hide T.Reached, Run, ScopesAt, FirstRefusal, F.Decide, Below, Through;
  }

  // ---------------------------------------------------------------------------------------------
  // The counters, exactly
  // ---------------------------------------------------------------------------------------------

  /** The upstream calls of a run that have returned, and those of them that failed in transport. */
  function Returned(s: System, steps: seq<Step>): nat {
    if steps == [] then 0
    else
      var before, step := Run(s, steps[..|steps| - 1]), steps[|steps| - 1];
      Returned(s, steps[..|steps| - 1]) + (if step.Reply? && Enabled(before, step) then 1 else 0)
  }

  function FailedInTransport(s: System, steps: seq<Step>): nat {
    if steps == [] then 0
    else
      var before, step := Run(s, steps[..|steps| - 1]), steps[|steps| - 1];
      FailedInTransport(s, steps[..|steps| - 1]) + (if step.Reply? && Enabled(before, step) && step.reply.TransportError? then 1 else 0)
  }

  lemma UpstreamKinds(s: System, step: Step)
    requires Enabled(s, step)
    ensures MetricsAfter(s, step).upstreamRequests == s.metrics.upstreamRequests + (if step.Reply? then 1 else 0)
    ensures Moves(step) ==>
              MetricsAfter(s, step).upstreamErrors + IsErring()(Moved(s, step))
              == s.metrics.upstreamErrors + IsErring()(s.reqs[step.i]) + (if step.Reply? && step.reply.TransportError? then 1 else 0)
    ensures !Moves(step) ==> MetricsAfter(s, step).upstreamErrors == s.metrics.upstreamErrors
  {
    hide ScopesAt, Granted;
  }

  lemma {:induction false} UpstreamIsCounted(max: int, steps: seq<Step>)
    ensures var s := T.Reached(max, steps);
            && s.metrics.upstreamRequests == Returned(Initial(max), steps)
            && s.metrics.upstreamErrors + Sum(s.reqs, IsErring()) == FailedInTransport(Initial(max), steps)
  {
    if steps != [] {
      var init, step := steps[..|steps| - 1], steps[|steps| - 1];
      var before := Run(Initial(max), init);
      UpstreamIsCounted(max, init);
      hide Moved, StoreAfter, RoomAfter, MetricsAfter, ReqsAfter, Sum, Enabled;
      if Enabled(before, step) {
        UpstreamKinds(before, step);
        SumNext(before, step, IsErring());
        assert step.Arrive? ==> IsErring()(Req(step.plan, Started, [], Pending, 0)) == 0;
      }
    }
  }

  /**
   The counters are exact at every moment: requests are the arrivals, active those that have begun and not retired,
   completed those a response was forwarded to, failed the others that are done; upstream requests are the calls that
   returned, and upstream errors those of them that failed in transport, except the ones not judged yet.
   */
  lemma CountersAreExact(max: int, steps: seq<Step>)
    ensures var s := T.Reached(max, steps);
            && s.metrics.requests == |s.reqs|
            && s.metrics.active == Count(s.reqs, (r: Req) => !r.phase.Started? && !r.phase.Retiring? && !r.phase.Done?)
            && s.metrics.completed == Count(s.reqs, (r: Req) => r.fate.Forwarded?)
            && s.metrics.failed == Count(s.reqs, (r: Req) => r.phase.Done? && !r.fate.Forwarded?)
            && s.metrics.upstreamRequests == Returned(Initial(max), steps)
            && s.metrics.upstreamErrors + Count(s.reqs, (r: Req) => r.phase.Replied? && r.phase.reply.TransportError?)
               == FailedInTransport(Initial(max), steps)
  {
    Invariant(max, steps);
    UpstreamIsCounted(max, steps);
    var s := T.Reached(max, steps);
    hide Run, Returned, FailedInTransport, Shapes, Conserved, Stairs, RoomKept;
    CountIs(s.reqs, (r: Req) => !r.phase.Started? && !r.phase.Retiring? && !r.phase.Done?, IsActive());
    CountIs(s.reqs, (r: Req) => r.fate.Forwarded?, IsCompleted());
    CountIs(s.reqs, (r: Req) => r.phase.Done? && !r.fate.Forwarded?, HasFailed());
    CountIs(s.reqs, (r: Req) => r.phase.Replied? && r.phase.reply.TransportError?, IsErring());
  }
}
