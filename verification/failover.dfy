/** The retry and failover loop of one proxied request, driven by an oracle for everything outside it. */
module Failover {

  /** How an upstream call ended. `expired` says that the context of the attempt had passed its deadline. */
  datatype Reply = TransportError(expired: bool) | Response(status: int)

  /** What the environment does when an attempt is made: each pair of target and attempt comes up at most once. */
  datatype Turn = Turn(allowed: bool, reply: Reply, contextDead: bool, pauseCompletes: bool)

  /** `timeouts(t)` says whether the provider of target `t` bounds its attempts. */
  datatype Case = Case(targets: nat, retries: nat, timeouts: nat -> bool, turn: (nat, nat) -> Turn)

  datatype Event =
    | Refused(target: nat)
    | Acquired(target: nat, attempt: nat)
    | Called(target: nat, attempt: nat, reply: Reply)
    | Freed(target: nat, attempt: nat)
    | Paused(target: nat, attempt: nat, millis: nat)

  datatype End = Forwarded(target: nat, attempt: nat, status: int) | NoResponse

  datatype Walked = Walked(trace: seq<Event>, end: End)

  const NOT_FOUND := 404
  const TOO_MANY_REQUESTS := 429
  const BAD_GATEWAY := 502
  const GATEWAY_TIMEOUT := 504

  predicate Retryable(status: int) {
    status in {408, 404, 429, 500, 502, 503, 504}
  }

  /** A failure worth repeating on the target that produced it. */
  predicate Repeatable(reply: Reply, hasTimeout: bool) {
    match reply
    case TransportError(expired) => !(hasTimeout && expired)
    case Response(status) => Retryable(status) && status != TOO_MANY_REQUESTS && status != NOT_FOUND
  }

  datatype Verdict = Forward | RetrySame | NextTarget | Abandon

  /** What follows a reply: `t` of `n` targets, attempt `a` of `retries` repeats. */
  function Decide(reply: Reply, hasTimeout: bool, contextDead: bool, t: nat, a: nat, n: nat, retries: nat): (v: Verdict)
    ensures v == Abandon <==> reply.TransportError? && contextDead
    ensures v == RetrySame <==> v != Abandon && a < retries && Repeatable(reply, hasTimeout)
    ensures v == Forward <==>
              reply.Response? && (!Retryable(reply.status) || (t >= n - 1 && !(a < retries && Repeatable(reply, hasTimeout))))
  {
    match reply
    case TransportError(expired) =>
      if contextDead then Abandon
      else if hasTimeout && expired then NextTarget
      else if a < retries then RetrySame
      else NextTarget
    case Response(status) =>
      var retrySame := Retryable(status) && status != TOO_MANY_REQUESTS && status != NOT_FOUND && a < retries;
      if retrySame then RetrySame
      else if Retryable(status) && t < n - 1 then NextTarget
      else Forward
  }

  function Pow2(n: nat): nat {
    if n == 0 then 1 else 2 * Pow2(n - 1)
  }

  /** The pause before attempt `a + 1`: doubling from 100 ms, no further than 1600 ms. */
  function Delay(a: nat): nat {
    100 * Pow2(if a <= 4 then a else 4)
  }

  /** What one attempt leaves on the trace. */
  function Attempt(c: Case, t: nat, a: nat): seq<Event> {
    var turn := c.turn(t, a);
    if !turn.allowed then [Refused(t)]
    else
      var called := [Acquired(t, a), Called(t, a, turn.reply)];
      match Decide(turn.reply, c.timeouts(t), turn.contextDead, t, a, c.targets, c.retries)
      case Forward => called
      case RetrySame => called + [Freed(t, a), Paused(t, a, Delay(a))]
      case _ => called + [Freed(t, a)]
  }

  datatype Where = On(t: nat, a: nat) | Stop(end: End)

  /** Where the loop goes after the attempt. */
  function Onward(c: Case, t: nat, a: nat): (w: Where)
    requires t < c.targets && a <= c.retries
    ensures w.On? ==> (w.t == t && w.a == a + 1 <= c.retries) || (w.t == t + 1 && w.a == 0)
  {
    var turn := c.turn(t, a);
    if !turn.allowed then On(t + 1, 0)
    else
      match Decide(turn.reply, c.timeouts(t), turn.contextDead, t, a, c.targets, c.retries)
      case Forward => Stop(Forwarded(t, a, turn.reply.status))
      case Abandon => Stop(NoResponse)
      case NextTarget => On(t + 1, 0)
      case RetrySame => if turn.pauseCompletes then On(t, a + 1) else Stop(NoResponse)
  }

  /** The walk over targets and attempts from attempt `a` of target `t` on. */
  function Walk(c: Case, t: nat, a: nat): Walked
    requires a <= c.retries
    decreases c.targets - t, c.retries - a
  {
    if t >= c.targets then Walked([], NoResponse)
    else
      match Onward(c, t, a)
      case Stop(end) => Walked(Attempt(c, t, a), end)
      case On(t', a') => Then(Attempt(c, t, a), Walk(c, t', a'))
  }

  function Then(head: seq<Event>, rest: Walked): Walked {
    Walked(head + rest.trace, rest.end)
  }

  predicate AnyRefused(trace: seq<Event>) {
    exists i :: 0 <= i < |trace| && trace[i].Refused?
  }

  predicate AnyTransportError(trace: seq<Event>) {
    exists i :: 0 <= i < |trace| && trace[i].Called? && trace[i].reply.TransportError?
  }

  /** The status the client sees when no target answered. */
  function FailureStatus(trace: seq<Event>, deadlinePassed: bool): int {
    if deadlinePassed then GATEWAY_TIMEOUT
    else if AnyRefused(trace) && !AnyTransportError(trace) then TOO_MANY_REQUESTS
    else BAD_GATEWAY
  }

  datatype Call = Call(target: nat, attempt: nat, reply: Reply)

  /** The upstream calls of a trace, in order. */
  function Calls(trace: seq<Event>): seq<Call> {
    if trace == [] then [] else CallOf(trace[0]) + Calls(trace[1..])
  }

  function Errors(calls: seq<Call>): nat {
    if calls == [] then 0
    else Errors(calls[..|calls| - 1]) + (if calls[|calls| - 1].reply.TransportError? then 1 else 0)
  }

  /** The call that one event is, if it is one. */
  function CallOf(e: Event): seq<Call> {
    if e.Called? then [Call(e.target, e.attempt, e.reply)] else []
  }

  lemma {:induction false} CallsAppend(x: seq<Event>, y: seq<Event>)
    ensures Calls(x + y) == Calls(x) + Calls(y)
  {
    if x == [] {
      assert x + y == y;
    } else {
      var z := x + y;
      assert z[1..] == x[1..] + y && z[0] == x[0];
      CallsAppend(x[1..], y);
      hide CallOf;
      assert CallOf(x[0]) + (Calls(x[1..]) + Calls(y)) == CallOf(x[0]) + Calls(x[1..]) + Calls(y);
    }
  }

  /** The attempt made at `t`, `a`, if it is admitted. */
  function CallsOf(c: Case, t: nat, a: nat): seq<Call> {
    if c.turn(t, a).allowed then [Call(t, a, c.turn(t, a).reply)] else []
  }

  /** The events of an attempt, one after the other. */
  lemma AttemptInSteps(before: seq<Event>, c: Case, t: nat, a: nat)
    ensures var turn := c.turn(t, a);
            var called := before + [Acquired(t, a)] + [Called(t, a, turn.reply)];
            before + Attempt(c, t, a) ==
            if !turn.allowed then before + [Refused(t)]
            else
              match Decide(turn.reply, c.timeouts(t), turn.contextDead, t, a, c.targets, c.retries)
              case Forward => called
              case RetrySame => called + [Freed(t, a)] + [Paused(t, a, Delay(a))]
              case _ => called + [Freed(t, a)]
  {
  }

  lemma CallsSnoc(x: seq<Event>, e: Event)
    ensures Calls(x + [e]) == Calls(x) + CallOf(e)
  {
    CallsAppend(x, [e]);
    assert [e][1..] == [];
  }

  lemma CallsOfAttempt(c: Case, t: nat, a: nat)
    ensures Calls(Attempt(c, t, a)) == CallsOf(c, t, a)
  {
    var reply := c.turn(t, a).reply;
    AttemptInSteps([], c, t, a);
    assert [] + Attempt(c, t, a) == Attempt(c, t, a);
    hide Attempt, Decide, Calls;
    CallsSnoc([], Refused(t));
    CallsSnoc([], Acquired(t, a));
    CallsSnoc([] + [Acquired(t, a)], Called(t, a, reply));
    var called := [] + [Acquired(t, a)] + [Called(t, a, reply)];
    CallsSnoc(called, Freed(t, a));
    CallsSnoc(called + [Freed(t, a)], Paused(t, a, Delay(a)));
    NoCallsYet();
  }

  lemma NoCallsYet()
    ensures Calls([]) == []
  {
  }

  lemma AnyAppend(x: seq<Event>, y: seq<Event>)
    ensures AnyRefused(x + y) == (AnyRefused(x) || AnyRefused(y))
    ensures AnyTransportError(x + y) == (AnyTransportError(x) || AnyTransportError(y))
  {
    var z := x + y;
    assert forall i :: 0 <= i < |x| ==> z[i] == x[i];
    assert forall i :: 0 <= i < |y| ==> z[|x| + i] == y[i];
  }

  /** How one attempt changes everything the loop remembers. */
  lemma AttemptEffect(before: seq<Event>, c: Case, t: nat, a: nat)
    ensures var turn, after := c.turn(t, a), before + Attempt(c, t, a);
            && AnyRefused(after) == (AnyRefused(before) || !turn.allowed)
            && AnyTransportError(after) == (AnyTransportError(before) || (turn.allowed && turn.reply.TransportError?))
            && Calls(after) == Calls(before) + CallsOf(c, t, a)
            && Errors(Calls(after)) == Errors(Calls(before)) + (if turn.allowed && turn.reply.TransportError? then 1 else 0)
  {
    var x := Attempt(c, t, a);
    AnyAppend(before, x);
    CallsAppend(before, x);
    CallsOfAttempt(c, t, a);
    AttemptFlags(c, t, a);
    if c.turn(t, a).allowed {
      assert Calls(before + x)[..|Calls(before)|] == Calls(before);
    } else {
      assert Calls(before + x) == Calls(before);
    }
  }

  lemma AttemptFlags(c: Case, t: nat, a: nat)
    ensures AnyRefused(Attempt(c, t, a)) == !c.turn(t, a).allowed
    ensures AnyTransportError(Attempt(c, t, a)) == (c.turn(t, a).allowed && c.turn(t, a).reply.TransportError?)
  {
    var x := Attempt(c, t, a);
    if c.turn(t, a).allowed {
      assert x[1] == Called(t, a, c.turn(t, a).reply);
    } else {
      assert x[0] == Refused(t);
    }
  }

  /** The flags and counters of the loop agree with its trace. */
  ghost predicate Noted(trace: seq<Event>, limited: bool, lastErr: bool, requests: nat, errors: nat) {
    && limited == AnyRefused(trace) && lastErr == AnyTransportError(trace)
    && requests == |Calls(trace)| && errors == Errors(Calls(trace))
  }

  lemma StillNoted(trace: seq<Event>, c: Case, t: nat, a: nat, limited: bool, lastErr: bool, requests: nat, errors: nat)
    requires Noted(trace, limited, lastErr, requests, errors)
    ensures var turn := c.turn(t, a);
            var failed := turn.allowed && turn.reply.TransportError?;
            Noted(trace + Attempt(c, t, a), limited || !turn.allowed, lastErr || failed,
                  requests + (if turn.allowed then 1 else 0), errors + (if failed then 1 else 0))
  {
    AttemptEffect(trace, c, t, a);
  }

  /** The walk still ahead shrinks by one attempt. */
  lemma ThenThen(trace: seq<Event>, c: Case, t: nat, a: nat)
    requires t < c.targets && a <= c.retries
    ensures match Onward(c, t, a)
            case Stop(end) => Then(trace, Walk(c, t, a)) == Walked(trace + Attempt(c, t, a), end)
            case On(t', a') => Then(trace, Walk(c, t, a)) == Then(trace + Attempt(c, t, a), Walk(c, t', a'))
  {
    match Onward(c, t, a)
    case Stop(end) =>
    case On(t', a') =>
      var rest := Walk(c, t', a').trace;
      assert trace + (Attempt(c, t, a) + rest) == trace + Attempt(c, t, a) + rest;
  }

  lemma AtTheEnds(c: Case)
    ensures Noted([], false, false, 0, 0) && UseAll(Free, []) == Free
    ensures Walk(c, c.targets, 0) == Walked([], NoResponse)
    ensures forall w: Walked {:trigger Then([], w)} :: Then([], w) == w
    ensures forall x: seq<Event> {:trigger Then(x, Walked([], NoResponse))} :: Then(x, Walked([], NoResponse)) == Walked(x, NoResponse)
  {
    assert forall x: seq<Event> :: x + [] == x;
  }

  // ---------------------------------------------------------------------------------------------
  // The provider slot
  // ---------------------------------------------------------------------------------------------

  datatype Slot = Free | Held(target: nat, attempt: nat) | Broken

  /** A slot is acquired only when free; it is used and freed only by its own attempt; nothing else happens under it. */
  function Use(s: Slot, e: Event): Slot {
    match e
    case Acquired(t, a) => if s == Free then Held(t, a) else Broken
    case Called(t, a, _) => if s == Held(t, a) then s else Broken
    case Freed(t, a) => if s == Held(t, a) then Free else Broken
    case Refused(_) => if s == Free then Free else Broken
    case Paused(_, _, _) => if s == Free then Free else Broken
  }

  function UseAll(s: Slot, trace: seq<Event>): Slot {
    if trace == [] then s else Use(UseAll(s, trace[..|trace| - 1]), trace[|trace| - 1])
  }

  /** One action of the loop. It must be a proper use of the slot. */
  method Do(e: Event, slot: Slot, ghost trace: seq<Event>) returns (next: Slot, ghost longer: seq<Event>)
    requires slot == UseAll(Free, trace) && Use(slot, e) != Broken
    ensures longer == trace + [e]
    ensures next == Use(slot, e) == UseAll(Free, longer)
  {
    next, longer := Use(slot, e), trace + [e];
    assert longer[..|trace|] == trace;
  }

  lemma {:induction false} ErrorsAre(trace: seq<Event>)
    ensures Errors(Calls(trace)) > 0 <==> AnyTransportError(trace)
  {
    if trace != [] {
      var n := |trace| - 1;
      var init, last := trace[..n], [trace[n]];
      assert trace == init + last;
      ErrorsAre(init);
      AnyAppend(init, last);
      CallsAppend(init, last);
      assert Calls(last) == CallOf(trace[n]) by { assert last[1..] == []; }
      if trace[n].Called? {
        assert Calls(trace)[..|Calls(init)|] == Calls(init);
        assert AnyTransportError(last) == last[0].reply.TransportError?;
      } else {
        assert Calls(trace) == Calls(init);
      }
    }
  }

  /**
   The loop itself, with the actions it takes on the way. It ends where the walk ends and leaves its trace; the
   slot it hands over is the one that trace leaves held, which is that of the selected response or none. Without
   a response the status is 504 exactly when the deadline has passed, otherwise 429 exactly when some admission
   was refused and no call ended in a transport error, otherwise 502.
   */
  method Proxy(c: Case, deadlinePassed: bool)
    returns (end: End, status: int, slot: Slot, upstreamRequests: nat, upstreamErrors: nat, ghost trace: seq<Event>)
    ensures Walked(trace, end) == Walk(c, 0, 0)
    ensures slot == UseAll(Free, trace)
    ensures slot == if end.Forwarded? then Held(end.target, end.attempt) else Free
    ensures upstreamRequests == |Calls(trace)| && upstreamErrors == Errors(Calls(trace))
    ensures end.Forwarded? ==> status == end.status
    ensures end.NoResponse? ==>
              && (status == 504 <==> deadlinePassed)
              && (status == 429 <==> !deadlinePassed && AnyRefused(trace) && upstreamErrors == 0)
              && (status == 502 <==> !deadlinePassed && (!AnyRefused(trace) || upstreamErrors > 0))
  {
    hide Walk, Attempt, AnyRefused, AnyTransportError, Calls, Errors, UseAll, Retryable, Delay;
    end, upstreamRequests, upstreamErrors := NoResponse, 0, 0;
    slot, trace := Free, [];
    AtTheEnds(c);
    var lastErr, providerLimited := false, false;
    var t := 0;
    label targetLoop:
    while t < c.targets
      invariant t <= c.targets && end == NoResponse
      invariant Then(trace, Walk(c, t, 0)) == Walk(c, 0, 0)
      invariant slot == Free == UseAll(Free, trace)
      invariant Noted(trace, providerLimited, lastErr, upstreamRequests, upstreamErrors)
      decreases c.targets - t
    {
      var a := 0;
      while a <= c.retries
        invariant a <= c.retries && end == NoResponse
        invariant Then(trace, Walk(c, t, a)) == Walk(c, 0, 0)
        invariant slot == Free == UseAll(Free, trace)
        invariant Noted(trace, providerLimited, lastErr, upstreamRequests, upstreamErrors)
        decreases c.retries - a
      {
        ThenThen(trace, c, t, a);
        StillNoted(trace, c, t, a, providerLimited, lastErr, upstreamRequests, upstreamErrors);
        AttemptInSteps(trace, c, t, a);
        var turn := c.turn(t, a);
        if !turn.allowed {
          slot, trace := Do(Refused(t), slot, trace);
          providerLimited := true;
          t := t + 1;
          continue targetLoop;
        }
        slot, trace := Do(Acquired(t, a), slot, trace);
        slot, trace := Do(Called(t, a, turn.reply), slot, trace);
        upstreamRequests := upstreamRequests + 1;
        if turn.reply.TransportError? {
          upstreamErrors := upstreamErrors + 1;
          slot, trace := Do(Freed(t, a), slot, trace);
          lastErr := true;
          if turn.contextDead {
            break targetLoop;
          }
          if c.timeouts(t) && turn.reply.expired {
            t := t + 1;
            continue targetLoop;
          }
          if a < c.retries {
            slot, trace := Do(Paused(t, a, Delay(a)), slot, trace);
            if !turn.pauseCompletes {
              break targetLoop;
            }
            a := a + 1;
            continue;
          }
          t := t + 1;
          continue targetLoop;
        }
        var code := turn.reply.status;
        var retryable := Retryable(code);
        var hasAnotherTarget := t < c.targets - 1;
        var shouldRetrySame := retryable && code != TOO_MANY_REQUESTS && code != NOT_FOUND && a < c.retries;
        var shouldFailover := retryable && !shouldRetrySame && hasAnotherTarget;
        if shouldRetrySame || shouldFailover {
          slot, trace := Do(Freed(t, a), slot, trace);
          if shouldRetrySame {
            slot, trace := Do(Paused(t, a, Delay(a)), slot, trace);
            if !turn.pauseCompletes {
              break targetLoop;
            }
            a := a + 1;
            continue;
          }
          t := t + 1;
          continue targetLoop;
        }
        end := Forwarded(t, a, code);
        break targetLoop;
      }
    }
    status := if end.Forwarded? then end.status
    else if deadlinePassed then GATEWAY_TIMEOUT
    else if providerLimited && !lastErr then TOO_MANY_REQUESTS
    else BAD_GATEWAY;
    ErrorsAre(trace);
  }
}
