/** What holds in every state that any interleaving of requests and reloads can reach. */
module LifecycleLaws {
  import opened Config
  import opened Limiter
  import opened Reservations
  import opened Queue
  import opened Lifecycle
  import F = Failover

  // ---------------------------------------------------------------------------------------------
  // Summing over the requests
  // ---------------------------------------------------------------------------------------------

  function Sum(reqs: seq<Req>, f: Req -> int): int {
    if reqs == [] then 0 else Sum(reqs[..|reqs| - 1], f) + f(reqs[|reqs| - 1])
  }

  lemma SumAppend(reqs: seq<Req>, r: Req, f: Req -> int)
    ensures Sum(reqs + [r], f) == Sum(reqs, f) + f(r)
  {
    assert (reqs + [r])[..|reqs|] == reqs;
  }

  lemma {:induction false} SumReplace(reqs: seq<Req>, i: nat, r: Req, f: Req -> int)
    requires i < |reqs|
    ensures Sum(reqs[i := r], f) == Sum(reqs, f) - f(reqs[i]) + f(r)
  {
    var n := |reqs| - 1;
    if i < n {
      SumReplace(reqs[..n], i, r, f);
      assert reqs[i := r][..n] == reqs[..n][i := r];
    } else {
      assert reqs[i := r][..n] == reqs[..n];
    }
  }

  lemma {:induction false} SumAtLeast(reqs: seq<Req>, i: nat, f: Req -> int)
    requires i < |reqs| && forall r :: f(r) >= 0
    ensures Sum(reqs, f) >= f(reqs[i])
  {
    var n := |reqs| - 1;
    if i < n {
      SumAtLeast(reqs[..n], i, f);
    } else {
      SumNatural(reqs[..n], f);
    }
  }

  lemma {:induction false} SumNatural(reqs: seq<Req>, f: Req -> int)
    requires forall r :: f(r) >= 0
    ensures Sum(reqs, f) >= 0
  {
    if reqs != [] {
      SumNatural(reqs[..|reqs| - 1], f);
    }
  }

  lemma {:induction false} SumMonotone(reqs: seq<Req>, f: Req -> int, g: Req -> int)
    requires forall i :: 0 <= i < |reqs| ==> f(reqs[i]) <= g(reqs[i])
    ensures Sum(reqs, f) <= Sum(reqs, g)
  {
    if reqs != [] {
      SumMonotone(reqs[..|reqs| - 1], f, g);
    }
  }

  lemma {:induction false} SumSource(reqs: seq<Req>, f: Req -> int) returns (i: nat)
    requires Sum(reqs, f) > 0
    ensures i < |reqs| && f(reqs[i]) > 0
  {
    var n := |reqs| - 1;
    if f(reqs[n]) > 0 {
      i := n;
    } else {
      i := SumSource(reqs[..n], f);
    }
  }

  // ---------------------------------------------------------------------------------------------
  // What is counted
  // ---------------------------------------------------------------------------------------------

  function HeldSlots(held: seq<seq<Scope>>, k: Key): nat {
    if held == [] then 0 else HeldSlots(held[..|held| - 1], k) + Slots(held[|held| - 1], k)
  }

  function HeldSlotsUpTo(held: seq<seq<Scope>>, k: Key, m: int): nat {
    if held == [] then 0 else HeldSlotsUpTo(held[..|held| - 1], k, m) + SlotsUpTo(held[|held| - 1], k, m)
  }

  lemma HeldAppend(held: seq<seq<Scope>>, scopes: seq<Scope>, k: Key, m: int)
    ensures HeldSlots(held + [scopes], k) == HeldSlots(held, k) + Slots(scopes, k)
    ensures HeldSlotsUpTo(held + [scopes], k, m) == HeldSlotsUpTo(held, k, m) + SlotsUpTo(scopes, k, m)
  {
    assert (held + [scopes])[..|held|] == held;
  }

  lemma {:induction false} HeldUpToAtMost(held: seq<seq<Scope>>, k: Key, m: int)
    ensures HeldSlotsUpTo(held, k, m) <= HeldSlots(held, k)
  {
    if held != [] {
      HeldUpToAtMost(held[..|held| - 1], k, m);
      SlotsUpToAtMost(held[|held| - 1], k, m);
    }
  }

  function HeldOn(k: Key): Req -> int { (r: Req) => HeldSlots(r.held, k) }

  function HeldUpTo(k: Key, m: int): Req -> int { (r: Req) => HeldSlotsUpTo(r.held, k, m) }

  function Waits(): Req -> int { (r: Req) => if r.phase.Polling? || r.phase.Leaving? then 1 else 0 }

  function WaitsUpTo(m: int): Req -> int {
    (r: Req) => if (r.phase.Polling? || r.phase.Leaving?) && r.phase.cap <= m then 1 else 0
  }

  function IsActive(): Req -> int { (r: Req) => if r.phase.Started? || r.phase.Retiring? || r.phase.Done? then 0 else 1 }

  function IsCompleted(): Req -> int { (r: Req) => if r.fate.Forwarded? then 1 else 0 }

  function HasFailed(): Req -> int { (r: Req) => if r.phase.Done? && !r.fate.Forwarded? then 1 else 0 }

  function IsErring(): Req -> int { (r: Req) => if r.phase.Replied? && r.phase.reply.TransportError? then 1 else 0 }

  // ---------------------------------------------------------------------------------------------
  // The shape of one request
  // ---------------------------------------------------------------------------------------------

  /** What a request holds before it passes a gate: everything from the gates below it. */
  function Below(p: Plan, g: Gate): seq<seq<Scope>> {
    match g
    case IngressGate => []
    case ModelGate => [ScopesAt(p, IngressGate)]
    case ProviderGate(_, _) => [ScopesAt(p, IngressGate), ScopesAt(p, ModelGate)]
  }

  function Through(p: Plan, g: Gate): seq<seq<Scope>> {
    Below(p, g) + [ScopesAt(p, g)]
  }

  /** The usage records a request owes once its fate is known. */
  function Owed(fate: Fate): nat {
    if fate in {RefusedModel, Exhausted, Forwarded} then 1 else 0
  }

  predicate Shape(r: Req) {
    match r.phase
    case Started => r.held == [] && r.fate.Pending? && r.records == 0
    case Trying(g) => r.held == Below(r.plan, g) && r.fate.Pending? && r.records == 0
    case TurnedAway(g) => r.held == Below(r.plan, g) && r.fate.Pending? && r.records == 0
    case Polling(g, _) => r.held == Below(r.plan, g) && r.fate.Pending? && r.records == 0
    case Leaving(g, _, granted) =>
      r.held == (if granted then Through(r.plan, g) else Below(r.plan, g)) && r.fate.Pending? && r.records == 0
    case Reading => r.held == Through(r.plan, IngressGate) && r.fate.Pending? && r.records == 0
    case Preparing => r.held == Through(r.plan, ModelGate) && r.fate.Pending? && r.records == 0
    case Calling(t, a) => r.held == Through(r.plan, ProviderGate(t, a)) && r.fate.Pending? && r.records == 0
    case Replied(t, a, _) => r.held == Through(r.plan, ProviderGate(t, a)) && r.fate.Pending? && r.records == 0
    case Dropping(t, a, _) => r.held == Through(r.plan, ProviderGate(t, a)) && r.fate.Pending? && r.records == 0
    case Pausing(t, a) => r.held == Below(r.plan, ProviderGate(t, a)) && r.fate.Pending? && r.records == 0
    case Streaming(t, a) => r.held == Through(r.plan, ProviderGate(t, a)) && r.fate.Forwarded? && r.records == 0
    case Closing => !r.fate.Pending? && r.records == Owed(r.fate)
    case Retiring => r.held == [] && !r.fate.Pending? && r.records == Owed(r.fate)
    case Done => r.held == [] && !r.fate.Pending? && r.records == Owed(r.fate)
  }

  ghost predicate Shapes(s: System) {
    forall i :: 0 <= i < |s.reqs| ==> Shape(s.reqs[i])
  }

  predicate Moves(step: Step) {
    !step.Arrive? && !step.SetRoom? && !step.ClearBuckets?
  }

  predicate Fresh(r: Req) {
    r.fate.Pending? && r.records == 0
  }

  lemma ToTargetShape(r: Req, t: nat)
    requires r.held == Below(r.plan, ProviderGate(t, 0)) && Fresh(r)
    ensures Shape(ToTarget(r, t))
  {
  }

  lemma DenyShape(r: Req, g: Gate)
    requires r.held == Below(r.plan, g) && Fresh(r)
    ensures Shape(Deny(r, g))
  {
  }

  lemma GrantedShape(r: Req, g: Gate)
    requires r.held == Through(r.plan, g) && Fresh(r)
    ensures Shape(r.(phase := GrantedPhase(g)))
  {
    if g.ProviderGate? {
      assert Shape(r.(phase := GrantedPhase(g)));
    }
  }

  lemma DroppedShape(r: Req, t: nat, a: nat, verdict: F.Verdict)
    requires r.held == Through(r.plan, ProviderGate(t, a)) && Fresh(r)
    ensures Shape(AfterDrop(Dropped(r), t, a, verdict))
  {
    var g := ProviderGate(t, a);
    assert Through(r.plan, g)[..|Through(r.plan, g)| - 1] == Below(r.plan, g);
  }

  lemma AfterReplyShape(r: Req, t: nat, a: nat, reply: F.Reply, dead: bool)
    requires r.held == Through(r.plan, ProviderGate(t, a)) && Fresh(r)
    ensures Shape(AfterReply(r, t, a, reply, dead))
  {
  }

  lemma MovedShape(s: System, step: Step)
    requires Enabled(s, step) && Moves(step) && Shape(s.reqs[step.i])
    ensures Shape(Moved(s, step))
  {
    hide ScopesAt, F.Decide, Granted, Admitted, Released, CanEnter, AfterReply, AfterDrop, ToTarget, Deny;
    var r := s.reqs[step.i];
    if step.LeaveRoom? || step.EnterRoom? || step.FirstTry? || step.Poll? {
      GateShape(s, step);
    } else if step.Drop? {
      DroppedShape(r, r.phase.target, r.phase.attempt, r.phase.verdict);
    } else if step.Settle? {
      AfterReplyShape(r, r.phase.target, r.phase.attempt, r.phase.reply, step.contextDead);
    } else if step.Prepare? && step.ok {
      ToTargetShape(r, 0);
    } else {
      OtherShape(s, step);
    }
  }

  lemma OtherShape(s: System, step: Step)
    requires Enabled(s, step) && Moves(step) && Shape(s.reqs[step.i])
    requires !step.LeaveRoom? && !step.EnterRoom? && !step.FirstTry? && !step.Poll? && !step.Drop? && !step.Settle?
    requires !(step.Prepare? && step.ok)
    ensures Shape(Moved(s, step))
  {
    hide ScopesAt, Granted, CanEnter, AfterReply, AfterDrop, ToTarget, Deny;
  }

  lemma GateShape(s: System, step: Step)
    requires step.LeaveRoom? || step.EnterRoom? || step.FirstTry? || step.Poll?
    requires Enabled(s, step) && Shape(s.reqs[step.i])
    ensures Shape(Moved(s, step))
  {
    hide ScopesAt, Granted, Admitted, Deny, GrantedPhase;
    var r := s.reqs[step.i];
    var g := r.phase.gate;
    if step.LeaveRoom? && r.phase.granted {
      GrantedShape(r, g);
    } else if step.FirstTry? {
      GrantedShape(Hold(r, g, r.phase), g);
    } else {
      DenyShape(r, g);
    }
  }

  lemma ShapesNext(s: System, step: Step)
    requires Shapes(s)
    ensures Shapes(Next(s, step))
  {
    if Enabled(s, step) && Moves(step) {
      MovedShape(s, step);
    }
  }

  // ---------------------------------------------------------------------------------------------
  // Conservation of reservations
  // ---------------------------------------------------------------------------------------------

  predicate Tries(s: System, step: Step) {
    Enabled(s, step) && (step.FirstTry? || step.Poll?)
  }

  function TriedScopes(s: System, step: Step): seq<Scope>
    requires Tries(s, step)
  {
    ScopesAt(s.reqs[step.i].plan, s.reqs[step.i].phase.gate)
  }

  predicate Grabs(s: System, step: Step) {
    Tries(s, step) && Granted(s.store, TriedScopes(s, step), step.now)
  }

  predicate Frees(s: System, step: Step) {
    Enabled(s, step) && (step.Drop? || step.Unwind?)
  }

  /** A step takes one reservation, gives one back or leaves all of them alone, in the store as in the request. */
  lemma HeldKinds(s: System, step: Step)
    requires Enabled(s, step)
    ensures !Grabs(s, step) && !Frees(s, step) ==> StoreAfter(s, step).concurrent == s.store.concurrent
    ensures Grabs(s, step) ==> StoreAfter(s, step).concurrent == TakeAll(s.store.concurrent, TriedScopes(s, step))
    ensures Frees(s, step) ==> StoreAfter(s, step).concurrent == GiveBackAll(s.store.concurrent, Last(s.reqs[step.i]))
    ensures Moves(step) ==>
              var r := s.reqs[step.i];
              Moved(s, step).held ==
              if Grabs(s, step) then r.held + [TriedScopes(s, step)]
              else if Frees(s, step) then r.held[..|r.held| - 1]
              else r.held
  {
    hide ScopesAt, F.Decide, FirstRefusal, TakeAll, GiveBackAll, Charge, States;
  }

  /** The counter of every key is the number of slots that the requests hold on it. */
  ghost predicate Conserved(s: System) {
    && Proper(s.store.concurrent)
    && forall k :: Active(s.store.concurrent, k) == Sum(s.reqs, HeldOn(k))
  }

  lemma HeldIsCounted(s: System, i: nat, k: Key)
    requires Conserved(s) && i < |s.reqs|
    ensures HeldSlots(s.reqs[i].held, k) <= Active(s.store.concurrent, k)
  {
    SumAtLeast(s.reqs, i, HeldOn(k));
  }

  /** What a request gives back is there: no decrement is ever suppressed. */
  lemma FreesExactly(s: System, step: Step, k: Key)
    requires Conserved(s) && Frees(s, step)
    ensures Proper(StoreAfter(s, step).concurrent)
    ensures Active(StoreAfter(s, step).concurrent, k) == Active(s.store.concurrent, k) - Slots(Last(s.reqs[step.i]), k)
  {
    forall k' ensures Slots(Last(s.reqs[step.i]), k') <= Active(s.store.concurrent, k') {
      HeldIsCounted(s, step.i, k');
    }
    GiveBackAllCounts(s.store.concurrent, Last(s.reqs[step.i]), k);
  }

  /** The requests after a step, summed. */
  lemma SumNext(s: System, step: Step, f: Req -> int)
    requires Enabled(s, step)
    ensures Sum(ReqsAfter(s, step), f) == Sum(s.reqs, f) +
              if step.Arrive? then f(Req(step.plan, Started, [], Pending, 0))
              else if Moves(step) then f(Moved(s, step)) - f(s.reqs[step.i])
              else 0
  {
    hide Moved;
    if step.Arrive? {
      SumAppend(s.reqs, Req(step.plan, Started, [], Pending, 0), f);
    } else if Moves(step) {
      SumReplace(s.reqs, step.i, Moved(s, step), f);
    }
  }

  /** The slots that a step adds on a key. */
  function Change(s: System, step: Step, k: Key): int {
    if Grabs(s, step) then Slots(TriedScopes(s, step), k)
    else if Frees(s, step) then 0 - Slots(Last(s.reqs[step.i]), k)
    else 0
  }

  lemma HeldNext(s: System, step: Step, k: Key)
    requires Enabled(s, step) && Moves(step)
    ensures HeldOn(k)(Moved(s, step)) == HeldOn(k)(s.reqs[step.i]) + Change(s, step, k)
  {
    hide Moved, MetricsAfter, RoomAfter, StoreAfter, Granted, ScopesAt, Slots, TriedScopes, HeldSlots;
    HeldKinds(s, step);
    var held := s.reqs[step.i].held;
    if Grabs(s, step) {
      HeldAppend(held, TriedScopes(s, step), k, 0);
    } else if Frees(s, step) {
      HeldDrop(held, k);
    }
  }

  lemma HeldDrop(held: seq<seq<Scope>>, k: Key)
    requires held != []
    ensures HeldSlots(held[..|held| - 1], k) == HeldSlots(held, k) - Slots(held[|held| - 1], k)
  {
  }

  lemma ActiveNext(s: System, step: Step, k: Key)
    requires Conserved(s) && Enabled(s, step)
    ensures Proper(StoreAfter(s, step).concurrent)
    ensures Active(StoreAfter(s, step).concurrent, k) == Active(s.store.concurrent, k) + Change(s, step, k)
  {
    hide Moved, MetricsAfter, RoomAfter, StoreAfter, Granted, ScopesAt, Slots, Sum;
    HeldKinds(s, step);
    if Grabs(s, step) {
      TakeAllCounts(s.store.concurrent, TriedScopes(s, step), k);
    } else if Frees(s, step) {
      FreesExactly(s, step, k);
    }
  }

  lemma ConservedNext(s: System, step: Step)
    requires Conserved(s) && Enabled(s, step)
    ensures Conserved(Next(s, step))
  {
    hide Moved, MetricsAfter, RoomAfter, StoreAfter, Granted, ScopesAt, Slots, Sum, ReqsAfter, Active, Proper, HeldOn;
    ActiveNext(s, step, Ingress);
    forall k ensures Active(StoreAfter(s, step).concurrent, k) == Sum(ReqsAfter(s, step), HeldOn(k)) {
      ActiveNext(s, step, k);
      SumNext(s, step, HeldOn(k));
      if Moves(step) {
        HeldNext(s, step, k);
      } else if step.Arrive? {
        NewHoldsNothing(step.plan, k);
      }
    }
  }

  lemma NewHoldsNothing(p: Plan, k: Key)
    ensures HeldOn(k)(Req(p, Started, [], Pending, 0)) == 0
    ensures forall m :: HeldUpTo(k, m)(Req(p, Started, [], Pending, 0)) == 0
  {
  }

  // ---------------------------------------------------------------------------------------------
  // The limits, whichever configuration they were granted under
  // ---------------------------------------------------------------------------------------------

  /** On every key at most `m` slots were granted under a limit of at most `m`. */
  ghost predicate Stairs(s: System) {
    forall k, m :: m >= 0 ==> Sum(s.reqs, HeldUpTo(k, m)) <= m
  }

  lemma ScopesDistinct(p: Plan, g: Gate)
    ensures DistinctKeys(ScopesAt(p, g))
  {
  }

  lemma GrantedHasRoom(st: Store, scopes: seq<Scope>, now: real, j: nat)
    requires Granted(st, scopes, now) && j < |scopes|
    ensures !Full(st, scopes[j])
  {
    assert !Refuses(st, scopes[j], now);
  }

  /** A granted slot that counts towards `m` found fewer than `m` slots in use. */
  lemma GrabUnderLimit(s: System, step: Step, k: Key, m: int)
    requires Conserved(s) && Grabs(s, step)
    ensures SlotsUpTo(TriedScopes(s, step), k, m) > 0 ==>
              SlotsUpTo(TriedScopes(s, step), k, m) == 1 && Sum(s.reqs, HeldUpTo(k, m)) < m
  {
    var scopes := TriedScopes(s, step);
    ScopesDistinct(s.reqs[step.i].plan, s.reqs[step.i].phase.gate);
    hide Moved, MetricsAfter, RoomAfter, StoreAfter, ScopesAt, Granted, Sum;
    SlotsUpToAtMost(scopes, k, m);
    if SlotsUpTo(scopes, k, m) > 0 {
      var j := SlotSource(scopes, k);
      GrantedHasRoom(s.store, scopes, step.now, j);
      forall i | 0 <= i < |s.reqs| ensures HeldUpTo(k, m)(s.reqs[i]) <= HeldOn(k)(s.reqs[i]) {
        HeldUpToAtMost(s.reqs[i].held, k, m);
      }
      SumMonotone(s.reqs, HeldUpTo(k, m), HeldOn(k));
    }
  }

  lemma StairsNext(s: System, step: Step)
    requires Conserved(s) && Stairs(s) && Enabled(s, step)
    ensures Stairs(Next(s, step))
  {
    hide Moved, MetricsAfter, RoomAfter, StoreAfter, ScopesAt, Granted, Sum, ReqsAfter;
    forall k, m | m >= 0 ensures Sum(ReqsAfter(s, step), HeldUpTo(k, m)) <= m {
      SumNext(s, step, HeldUpTo(k, m));
      if Moves(step) {
        HeldKinds(s, step);
        if Grabs(s, step) {
          HeldAppend(s.reqs[step.i].held, TriedScopes(s, step), k, m);
          GrabUnderLimit(s, step, k, m);
        }
      } else if step.Arrive? {
        NewHoldsNothing(step.plan, k);
      }
    }
  }

  // ---------------------------------------------------------------------------------------------
  // The waiting room
  // ---------------------------------------------------------------------------------------------

  /** The room counts the requests in it, at most `m` of which entered while it held at most `m`. */
  ghost predicate RoomKept(s: System) {
    && s.room.waiting == Sum(s.reqs, Waits())
    && forall m :: m >= 0 ==> Sum(s.reqs, WaitsUpTo(m)) <= m
  }

  lemma WaitKinds(s: System, step: Step, m: int)
    requires Enabled(s, step) && Moves(step)
    ensures var d := Waits()(Moved(s, step)) - Waits()(s.reqs[step.i]);
            var dm := WaitsUpTo(m)(Moved(s, step)) - WaitsUpTo(m)(s.reqs[step.i]);
            if step.EnterRoom? && CanEnter(s.room) then d == 1 && dm == (if s.room.max <= m then 1 else 0)
            else if step.LeaveRoom? then d == -1 && dm <= 0 && Waits()(s.reqs[step.i]) == 1
            else d == 0 && dm == 0
  {
    hide ScopesAt, F.Decide, Granted;
  }

  lemma RoomKeptNext(s: System, step: Step)
    requires RoomKept(s) && Enabled(s, step)
    ensures RoomKept(Next(s, step))
    ensures step.LeaveRoom? ==> Next(s, step).room.waiting == s.room.waiting - 1
  {
    hide Moved, MetricsAfter, StoreAfter, ScopesAt, Granted, Sum, ReqsAfter;
    SumNext(s, step, Waits());
    if Moves(step) {
      WaitKinds(s, step, 0);
      if step.LeaveRoom? {
        SumAtLeast(s.reqs, step.i, Waits());
      }
    }
    forall m | m >= 0 ensures Sum(ReqsAfter(s, step), WaitsUpTo(m)) <= m {
      SumNext(s, step, WaitsUpTo(m));
      if Moves(step) {
        WaitKinds(s, step, m);
        SumMonotone(s.reqs, WaitsUpTo(m), Waits());
      }
    }
  }

  // ---------------------------------------------------------------------------------------------
  // The counters
  // ---------------------------------------------------------------------------------------------

  ghost predicate Accounted(s: System) {
    && s.metrics.requests == |s.reqs|
    && s.metrics.active == Sum(s.reqs, IsActive())
    && s.metrics.completed == Sum(s.reqs, IsCompleted())
    && s.metrics.failed == Sum(s.reqs, HasFailed())
    && s.metrics.upstreamErrors + Sum(s.reqs, IsErring()) <= s.metrics.upstreamRequests
  }

  lemma MetricKinds(s: System, step: Step)
    requires Enabled(s, step) && Moves(step) && Shape(s.reqs[step.i])
    ensures var r, r', m, m' := s.reqs[step.i], Moved(s, step), s.metrics, MetricsAfter(s, step);
            && m'.requests == m.requests
            && m'.active - m.active == IsActive()(r') - IsActive()(r)
            && m'.completed - m.completed == IsCompleted()(r') - IsCompleted()(r)
            && m'.failed - m.failed == HasFailed()(r') - HasFailed()(r)
            && m'.upstreamErrors - m.upstreamErrors + IsErring()(r') - IsErring()(r) <= m'.upstreamRequests - m.upstreamRequests
  {
    hide ScopesAt, Granted, Below, Through;
  }

  lemma ReqsCount(s: System, step: Step)
    requires Enabled(s, step)
    ensures |ReqsAfter(s, step)| == |s.reqs| + (if step.Arrive? then 1 else 0)
  {
    hide Moved;
  }

  lemma AccountedNext(s: System, step: Step)
    requires Accounted(s) && Shapes(s) && Enabled(s, step)
    ensures Accounted(Next(s, step))
  {
    hide Moved, StoreAfter, ScopesAt, Granted, Sum, RoomAfter, ReqsAfter, Shape;
    SumNext(s, step, IsActive());
    SumNext(s, step, IsCompleted());
    SumNext(s, step, HasFailed());
    SumNext(s, step, IsErring());
    ReqsCount(s, step);
    if Moves(step) {
      MetricKinds(s, step);
    }
  }

  // ---------------------------------------------------------------------------------------------
  // Every reachable state
  // ---------------------------------------------------------------------------------------------

  ghost predicate Inv(s: System) {
    Shapes(s) && Conserved(s) && Stairs(s) && RoomKept(s) && Accounted(s)
  }

  lemma InvNext(s: System, step: Step)
    requires Inv(s)
    ensures Inv(Next(s, step))
  {
    hide Shapes, Conserved, Stairs, RoomKept, Accounted, Enabled, Moved, StoreAfter, MetricsAfter, ReqsAfter, RoomAfter;
    if Enabled(s, step) {
      ShapesNext(s, step);
      ConservedNext(s, step);
      StairsNext(s, step);
      RoomKeptNext(s, step);
      AccountedNext(s, step);
    }
  }

  lemma {:induction false} Invariant(max: int, steps: seq<Step>)
    ensures Inv(Run(Initial(max), steps))
  {
    if steps != [] {
      Invariant(max, steps[..|steps| - 1]);
      hide Inv, Next;
      InvNext(Run(Initial(max), steps[..|steps| - 1]), steps[|steps| - 1]);
    } else {
      assert Inv(Initial(max));
    }
  }
}
