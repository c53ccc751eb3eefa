/** What the retry and failover loop does on every oracle. */
module FailoverLaws {
  import opened Failover

  // ---------------------------------------------------------------------------------------------
  // The order of attempts
  // ---------------------------------------------------------------------------------------------

  /** A failure worth repeating: no timeout of a provider that bounds its attempts, and no other response. */
  predicate WorthRepeating(c: Case, x: Call) {
    match x.reply
    case TransportError(expired) => !(expired && c.timeouts(x.target))
    case Response(status) => status in {408, 500, 502, 503, 504}
  }

  lemma WorthRepeatingIs(c: Case, x: Call)
    ensures WorthRepeating(c, x) <==> Repeatable(x.reply, c.timeouts(x.target))
  {
  }

  /** The next call repeats a failure worth repeating on the same target, or opens a later target. */
  predicate Follows(c: Case, x: Call, y: Call) {
    || (y.target == x.target && y.attempt == x.attempt + 1 && WorthRepeating(c, x))
    || (y.target > x.target && y.attempt == 0)
  }

  predicate InRange(c: Case, x: Call) {
    x.target < c.targets && x.attempt <= c.retries && x.reply == c.turn(x.target, x.attempt).reply
  }

  predicate Chain(c: Case, calls: seq<Call>) {
    && (forall i :: 0 <= i < |calls| ==> InRange(c, calls[i]))
    && (forall i :: 0 < i < |calls| ==> Follows(c, calls[i - 1], calls[i]))
  }

  lemma WalkCallsSplit(c: Case, t: nat, a: nat)
    requires t < c.targets && a <= c.retries
    ensures Calls(Walk(c, t, a).trace) == CallsOf(c, t, a) +
              match Onward(c, t, a) { case Stop(_) => [] case On(t', a') => Calls(Walk(c, t', a').trace) }
  {
    CallsOfAttempt(c, t, a);
    match Onward(c, t, a)
    case Stop(_) => assert CallsOf(c, t, a) + [] == CallsOf(c, t, a);
    case On(t', a') => CallsAppend(Attempt(c, t, a), Walk(c, t', a').trace);
  }

  /** The calls begin with attempt `a` of target `t` or open a later target. */
  predicate BeginsAt(calls: seq<Call>, t: nat, a: nat) {
    calls != [] ==> (calls[0].target == t && calls[0].attempt == a) || (calls[0].target > t && calls[0].attempt == 0)
  }

  lemma ChainLater(c: Case, x: Call, rest: seq<Call>)
    requires InRange(c, x) && Chain(c, rest)
    requires rest != [] ==> Follows(c, x, rest[0])
    ensures Chain(c, [x] + rest)
  {
    var calls := [x] + rest;
    assert forall i :: 0 < i < |calls| ==> calls[i] == rest[i - 1];
  }

  /** Moving on within a target means its failure was repeatable. */
  lemma OnwardFollows(c: Case, t: nat, a: nat)
    requires t < c.targets && a <= c.retries && c.turn(t, a).allowed
    ensures Onward(c, t, a) == On(t, a + 1) ==> WorthRepeating(c, Call(t, a, c.turn(t, a).reply))
  {
  }

  lemma {:induction false} WalkChain(c: Case, t: nat, a: nat)
    requires a <= c.retries
    ensures Chain(c, Calls(Walk(c, t, a).trace)) && BeginsAt(Calls(Walk(c, t, a).trace), t, a)
    decreases c.targets - t, c.retries - a
  {
    if t < c.targets {
      WalkCallsSplit(c, t, a);
      var own := CallsOf(c, t, a);
      match Onward(c, t, a)
      case Stop(_) => assert own + [] == own;
      case On(t', a') =>
        WalkChain(c, t', a');
        var rest := Calls(Walk(c, t', a').trace);
        if c.turn(t, a).allowed {
          OnwardFollows(c, t, a);
          ChainLater(c, own[0], rest);
        } else {
          assert own + rest == rest;
        }
    }
  }

  function Rank(c: Case, x: Call): int {
    x.target * (c.retries + 1) + x.attempt
  }

  lemma {:induction false} RowsBelow(x: nat, t: nat, r: nat)
    requires x < t
    ensures x * r + r <= t * r
  {
    if x < t - 1 {
      RowsBelow(x, t - 1, r);
    }
    assert (t - 1) * r + r == t * r;
  }

  /** The ranks of one target lie below those of the next. */
  lemma RankBelow(c: Case, x: Call, t: nat)
    requires InRange(c, x) && x.target < t
    ensures Rank(c, x) < t * (c.retries + 1)
  {
    RowsBelow(x.target, t, c.retries + 1);
  }

  lemma FollowsRanksHigher(c: Case, x: Call, y: Call)
    requires InRange(c, x) && InRange(c, y) && Follows(c, x, y)
    ensures Rank(c, x) < Rank(c, y)
  {
    if y.target > x.target {
      RankBelow(c, x, y.target);
    }
  }

  lemma {:induction false} ChainAscends(c: Case, calls: seq<Call>, i: nat, j: nat)
    requires Chain(c, calls) && i < j < |calls|
    ensures Rank(c, calls[i]) + (j - i) <= Rank(c, calls[j])
    ensures calls[i].target < calls[j].target || (calls[i].target == calls[j].target && calls[i].attempt < calls[j].attempt)
  {
    FollowsRanksHigher(c, calls[j - 1], calls[j]);
    if i < j - 1 {
      ChainAscends(c, calls, i, j - 1);
    }
  }

  lemma ChainIsShort(c: Case, calls: seq<Call>)
    requires Chain(c, calls)
    ensures |calls| <= c.targets * (c.retries + 1)
  {
    if calls != [] {
      var n := |calls| - 1;
      assert Rank(c, calls[0]) >= 0;
      if n > 0 {
        ChainAscends(c, calls, 0, n);
      }
      RankBelow(c, calls[n], c.targets);
    }
  }

  /**
   For every oracle, the calls ascend strictly by target and attempt, the attempts of a target run from 0 without a gap,
   and there are at most targets * (retries + 1) of them. No call on a target follows one that ran into the timeout of
   its provider, nor one that drew a response other than 408, 500, 502, 503 or 504.
   */
  lemma TraceLaw(c: Case)
    ensures var calls := Calls(Walk(c, 0, 0).trace);
            && (c.targets > 0 ==>
                  Walk(c, 0, 0).trace != []
                  && Walk(c, 0, 0).trace[0] == if c.turn(0, 0).allowed then Acquired(0, 0) else Refused(0))
            && Chain(c, calls)
            && (calls != [] ==> calls[0].attempt == 0)
            && (forall i, j :: 0 <= i < j < |calls| ==>
                  calls[i].target < calls[j].target || (calls[i].target == calls[j].target && calls[i].attempt < calls[j].attempt))
            && |calls| <= c.targets * (c.retries + 1)
            && (forall i, j :: 0 <= i < j < |calls| && calls[j].target == calls[i].target ==>
                  && !(calls[i].reply == TransportError(true) && c.timeouts(calls[i].target))
                  && (calls[i].reply.Response? ==> calls[i].reply.status in {408, 500, 502, 503, 504}))
  {
    hide Walk, Calls;
    WalkChain(c, 0, 0);
    WalkBegins(c, 0, 0);
    var calls := Calls(Walk(c, 0, 0).trace);
    forall i, j | 0 <= i < j < |calls|
      ensures calls[i].target < calls[j].target || (calls[i].target == calls[j].target && calls[i].attempt < calls[j].attempt)
      ensures calls[j].target == calls[i].target ==> WorthRepeating(c, calls[i])
    {
      ChainAscends(c, calls, i, j);
      if i + 1 < j {
        ChainAscends(c, calls, i + 1, j);
      }
      assert Follows(c, calls[i], calls[i + 1]);
    }
    ChainIsShort(c, calls);
  }

  // ---------------------------------------------------------------------------------------------
  // The time spent in backoff
  // ---------------------------------------------------------------------------------------------

  /** The milliseconds paused for target `t`. A pause cut short is counted in full. */
  function PausedFor(trace: seq<Event>, t: nat): nat {
    if trace == [] then 0
    else (if trace[0].Paused? && trace[0].target == t then trace[0].millis else 0) + PausedFor(trace[1..], t)
  }

  lemma PausedAppend(x: seq<Event>, y: seq<Event>, t: nat)
    ensures PausedFor(x + y, t) == PausedFor(x, t) + PausedFor(y, t)
  {
    if x == [] {
      assert x + y == y;
    } else {
      PausedAppend(x[1..], y, t);
      assert (x + y)[1..] == x[1..] + y;
    }
  }

  function Delays(a: nat, n: nat): nat
    requires a <= n
    decreases n - a
  {
    if a == n then 0 else Delay(a) + Delays(a + 1, n)
  }

  lemma {:induction false} DelaysAppend(a: nat, n: nat)
    requires a <= n
    ensures Delays(a, n + 1) == Delays(a, n) + Delay(n)
    decreases n - a
  {
    if a < n {
      DelaysAppend(a + 1, n);
    } else {
      assert Delays(n + 1, n + 1) == 0;
    }
  }

  /** The delays of `n` repeats in closed form: they double up to the fifth and then stay at 1600 ms. */
  function PauseBound(n: nat): int {
    if n <= 5 then 100 * (Pow2(n) - 1) else 3100 + 1600 * (n - 5)
  }

  lemma {:induction false} DelaysClosed(n: nat)
    ensures Delays(0, n) == PauseBound(n)
  {
    if n > 0 {
      DelaysClosed(n - 1);
      DelaysAppend(0, n - 1);
      assert Pow2(4) == 16 && Pow2(5) == 32 by {
        assert Pow2(1) == 2 && Pow2(2) == 4 && Pow2(3) == 8;
      }
    }
  }

  lemma PausedByAttempt(c: Case, t: nat, a: nat, u: nat)
    ensures PausedFor(Attempt(c, t, a), u) ==
            if u == t && c.turn(t, a).allowed
               && Decide(c.turn(t, a).reply, c.timeouts(t), c.turn(t, a).contextDead, t, a, c.targets, c.retries) == RetrySame
            then Delay(a) else 0
  {
    var x := Attempt(c, t, a);
    if |x| == 4 {
      PausedQuiet(x[..3], u);
      assert x == x[..3] + [x[3]];
      PausedAppend(x[..3], [x[3]], u);
    } else {
      PausedQuiet(x, u);
    }
  }

  lemma PausedQuiet(x: seq<Event>, t: nat)
    requires forall i :: 0 <= i < |x| ==> !x[i].Paused?
    ensures PausedFor(x, t) == 0
  {
  }

  lemma {:induction false} WalkPauses(c: Case, t: nat, a: nat, u: nat)
    requires a <= c.retries
    ensures PausedFor(Walk(c, t, a).trace, u) <= if u < t then 0 else if u == t then Delays(a, c.retries) else Delays(0, c.retries)
    decreases c.targets - t, c.retries - a
  {
    if t < c.targets {
      PausedByAttempt(c, t, a, u);
      match Onward(c, t, a)
      case Stop(_) =>
      case On(t', a') =>
        PausedAppend(Attempt(c, t, a), Walk(c, t', a').trace, u);
        WalkPauses(c, t', a', u);
    }
  }

  /** On every oracle the backoff spent on one target stays within the closed form. */
  lemma BackoffLaw(c: Case, u: nat)
    ensures PausedFor(Walk(c, 0, 0).trace, u) <= PauseBound(c.retries)
  {
    WalkPauses(c, 0, 0, u);
    DelaysClosed(c.retries);
  }

  /** One target that always fails alike, with every pause completed. */
  function Stubborn(retries: nat): Case {
    Case(1, retries, (t: nat) => false, (t: nat, a: nat) => Turn(true, Response(500), false, true))
  }

  lemma {:induction false} StubbornPauses(retries: nat, a: nat)
    requires a <= retries
    ensures PausedFor(Walk(Stubborn(retries), 0, a).trace, 0) == Delays(a, retries)
    decreases retries - a
  {
    var c := Stubborn(retries);
    PausedByAttempt(c, 0, a, 0);
    if a < retries {
      StubbornPauses(retries, a + 1);
      assert Onward(c, 0, a) == On(0, a + 1);
      PausedAppend(Attempt(c, 0, a), Walk(c, 0, a + 1).trace, 0);
    }
  }

  /** The closed form is attained, so no smaller bound would do. */
  lemma BackoffIsAttained(retries: nat)
    ensures PausedFor(Walk(Stubborn(retries), 0, 0).trace, 0) == PauseBound(retries)
  {
    StubbornPauses(retries, 0);
    DelaysClosed(retries);
  }

  // ---------------------------------------------------------------------------------------------
  // The provider slot
  // ---------------------------------------------------------------------------------------------

  lemma {:induction false} UseAppend(s: Slot, x: seq<Event>, y: seq<Event>)
    ensures UseAll(s, x + y) == UseAll(UseAll(s, x), y)
  {
    if y == [] {
      assert x + y == x;
    } else {
      var n := |y| - 1;
      UseAppend(s, x, y[..n]);
      var z := x + y;
      assert z[..|z| - 1] == x + y[..n] && z[|z| - 1] == y[n];
    }
  }

  lemma AttemptUse(c: Case, t: nat, a: nat)
    requires t < c.targets && a <= c.retries
    ensures UseAll(Free, Attempt(c, t, a)) == if Onward(c, t, a).Stop? && Onward(c, t, a).end.Forwarded? then Held(t, a) else Free
  {
    var x := Attempt(c, t, a);
    if c.turn(t, a).allowed {
      assert x[..2][..1] == x[..1] && x[..1][..0] == [];
      assert UseAll(Free, x[..1]) == Held(t, a);
      assert UseAll(Free, x[..2]) == Held(t, a);
      if |x| == 2 {
        assert x == x[..2];
      } else {
        assert x[..3][..2] == x[..2];
        assert UseAll(Free, x[..3]) == Free;
        if |x| == 3 {
          assert x == x[..3];
        }
      }
    } else {
      assert x[..0] == [];
    }
  }

  /**
   On every path each granted slot is used by its own attempt and freed exactly once, none is held while
   pausing or being refused or when the next is acquired, and at the end one is held exactly when its
   response was selected.
   */
  lemma {:induction false} SlotLaw(c: Case, t: nat, a: nat)
    requires a <= c.retries
    ensures var w := Walk(c, t, a);
            UseAll(Free, w.trace) == if w.end.Forwarded? then Held(w.end.target, w.end.attempt) else Free
    decreases c.targets - t, c.retries - a
  {
    if t < c.targets {
      AttemptUse(c, t, a);
      match Onward(c, t, a)
      case Stop(_) =>
      case On(t', a') =>
        UseAppend(Free, Attempt(c, t, a), Walk(c, t', a').trace);
        SlotLaw(c, t', a');
    }
  }

  // ---------------------------------------------------------------------------------------------
  // How the loop ends
  // ---------------------------------------------------------------------------------------------

  /** A reply that goes to the client: not retryable, or nowhere left to take it. */
  predicate Final(c: Case, x: Call) {
    && x.reply.Response?
    && (x.reply.status !in {404, 408, 429, 500, 502, 503, 504}
        || (x.target == c.targets - 1 && (x.reply.status in {404, 429} || x.attempt == c.retries)))
  }

  /** The loop forwards exactly the final reply, which is then the last call and the only final one. */
  predicate Settles(c: Case, calls: seq<Call>, end: End) {
    var n := |calls| - 1;
    && (end.Forwarded? <==> exists i :: 0 <= i < |calls| && Final(c, calls[i]))
    && (end.Forwarded? ==> n >= 0 && calls[n] == Call(end.target, end.attempt, Response(end.status)))
    && (forall i :: 0 <= i < n ==> !Final(c, calls[i]))
  }

  lemma SettlesLater(c: Case, x: Call, rest: seq<Call>, end: End)
    requires Settles(c, rest, end) && !Final(c, x)
    ensures Settles(c, [x] + rest, end)
  {
    var calls := [x] + rest;
    assert forall i :: 0 <= i < |rest| ==> calls[i + 1] == rest[i];
    assert forall i :: 0 < i < |calls| ==> calls[i] == rest[i - 1];
  }

  lemma FinalIff(c: Case, t: nat, a: nat)
    requires t < c.targets && a <= c.retries && c.turn(t, a).allowed
    ensures Final(c, Call(t, a, c.turn(t, a).reply)) <==> Onward(c, t, a) == Stop(Forwarded(t, a, StatusOf(c.turn(t, a).reply)))
    ensures Onward(c, t, a).Stop? && Onward(c, t, a).end.Forwarded? ==> c.turn(t, a).reply == Response(Onward(c, t, a).end.status)
  {
  }

  function StatusOf(reply: Reply): int {
    if reply.Response? then reply.status else 0
  }

  lemma {:induction false} ForwardLaw(c: Case, t: nat, a: nat)
    requires a <= c.retries
    ensures Settles(c, Calls(Walk(c, t, a).trace), Walk(c, t, a).end)
    decreases c.targets - t, c.retries - a
  {
    if t < c.targets {
      WalkCallsSplit(c, t, a);
      var calls := CallsOf(c, t, a);
      if c.turn(t, a).allowed {
        FinalIff(c, t, a);
      }
      match Onward(c, t, a)
      case Stop(end) =>
        assert calls + [] == calls;
        assert Final(c, calls[0]) <==> end.Forwarded?;
      case On(t', a') =>
        ForwardLaw(c, t', a');
        var next := Walk(c, t', a');
        if c.turn(t, a).allowed {
          SettlesLater(c, calls[0], Calls(next.trace), next.end);
        } else {
          assert calls + Calls(next.trace) == Calls(next.trace);
        }
    }
  }

  /** The context lives through the whole loop. */
  ghost predicate Live(c: Case) {
    forall t, a :: !c.turn(t, a).contextDead && c.turn(t, a).pauseCompletes
  }

  predicate Visits(e: Event, t: nat) {
    (e.Refused? || e.Called?) && e.target == t
  }

  /** The last attempt of the last target was refused admission or ended in a transport error. */
  predicate EndsBadly(c: Case, trace: seq<Event>) {
    var n := |trace| - 1;
    || (n >= 0 && trace[n].Refused? && trace[n].target == c.targets - 1)
    || (n >= 1 && trace[n].Freed? && trace[n - 1].Called? && trace[n - 1].target == c.targets - 1 && trace[n - 1].reply.TransportError?)
  }

  predicate Visited(trace: seq<Event>, u: nat) {
    exists i :: 0 <= i < |trace| && Visits(trace[i], u)
  }

  lemma StillVisited(head: seq<Event>, rest: seq<Event>, u: nat)
    requires Visited(head, u) || Visited(rest, u)
    ensures Visited(head + rest, u)
  {
    var all := head + rest;
    if i :| 0 <= i < |head| && Visits(head[i], u) {
      assert Visits(all[i], u);
    } else {
      var j :| 0 <= j < |rest| && Visits(rest[j], u);
      assert Visits(all[|head| + j], u);
    }
  }

  lemma AttemptVisits(c: Case, t: nat, a: nat)
    ensures Visited(Attempt(c, t, a), t)
  {
    assert Visits(Attempt(c, t, a)[if c.turn(t, a).allowed then 1 else 0], t);
  }

  /** While the context lives, a loop without a response has tried every target. */
  lemma {:induction false} LiveContextTriesAll(c: Case, t: nat, a: nat, u: nat)
    requires Live(c) && a <= c.retries && t <= u < c.targets
    requires Walk(c, t, a).end.NoResponse?
    ensures Visited(Walk(c, t, a).trace, u)
    decreases c.targets - t, c.retries - a
  {
    AttemptVisits(c, t, a);
    match Onward(c, t, a)
    case Stop(_) =>
    case On(t', a') =>
      if t' <= u {
        LiveContextTriesAll(c, t', a', u);
      }
      StillVisited(Attempt(c, t, a), Walk(c, t', a').trace, u);
  }

  lemma LaterEnd(c: Case, head: seq<Event>, rest: seq<Event>)
    requires EndsBadly(c, rest)
    ensures EndsBadly(c, head + rest)
  {
    var all, n := head + rest, |rest| - 1;
    assert all[|head| + n] == rest[n];
    assert n >= 1 ==> all[|head| + n - 1] == rest[n - 1];
  }

  /**
   While the context lives, a loop without a response ended on its last target, which was refused
   admission or failed in transport: any answer from the last target gets through.
   */
  lemma {:induction false} LiveContextExhausts(c: Case, t: nat, a: nat)
    requires Live(c) && a <= c.retries && t < c.targets
    requires Walk(c, t, a).end.NoResponse?
    ensures EndsBadly(c, Walk(c, t, a).trace)
    decreases c.targets - t, c.retries - a
  {
    match Onward(c, t, a)
    case Stop(_) =>
    case On(t', a') =>
      if t' < c.targets {
        LiveContextExhausts(c, t', a');
        LaterEnd(c, Attempt(c, t, a), Walk(c, t', a').trace);
      } else {
        assert Walk(c, t, a).trace == Attempt(c, t, a);
      }
  }

  // ---------------------------------------------------------------------------------------------
  // What a 429 says
  // ---------------------------------------------------------------------------------------------

  /** The call can be repeated where it was made: its failure is worth it and a repeat is left. */
  predicate MayRepeat(c: Case, x: Call) {
    x.attempt < c.retries && WorthRepeating(c, x)
  }

  /** A walk that starts at target `t` is refused by no target before it. */
  lemma {:induction false} RefusedLater(c: Case, t: nat, a: nat, u: nat)
    requires a <= c.retries && Refused(u) in Walk(c, t, a).trace
    ensures t <= u < c.targets
    decreases c.targets - t, c.retries - a
  {
    if t < c.targets {
      match Onward(c, t, a)
      case Stop(_) =>
      case On(t', a') =>
        if Refused(u) !in Attempt(c, t, a) {
          RefusedLater(c, t', a', u);
        }
    }
  }

  /** While the context lives and no response comes, a target refuses in the end unless a call to it is given up for the next. */
  lemma {:induction false} AllRefusedIff(c: Case, t: nat, a: nat)
    requires Live(c) && a <= c.retries && Walk(c, t, a).end.NoResponse?
    ensures (forall u :: t <= u < c.targets ==> Refused(u) in Walk(c, t, a).trace)
            <==> (forall x :: x in Calls(Walk(c, t, a).trace) ==> MayRepeat(c, x))
    decreases c.targets - t, c.retries - a
  {
    hide Walk, Calls, Attempt, Onward, Live, MayRepeat;
    if t >= c.targets {
      NothingBeyond(c, t, a);
    } else {
      WalkCallsSplit(c, t, a);
      WalkEndSplit(c, t, a);
      WalkSplit(c, t, a);
      LiveMoves(c, t, a);
      var w := Onward(c, t, a);
      AllRefusedIff(c, w.t, w.a);
      AttemptRefuses(c, t, a);
      if c.turn(t, a).allowed {
        assert CallsOf(c, t, a) == [Call(t, a, c.turn(t, a).reply)];
        if w.t > t && Refused(t) in Walk(c, w.t, w.a).trace {
          RefusedLater(c, w.t, w.a, t);
        }
      } else {
        assert CallsOf(c, t, a) == [];
      }
    }
  }

  /** While the context lives the loop only stops to forward, and stays on a target exactly for a failure that may be repeated. */
  lemma LiveMoves(c: Case, t: nat, a: nat)
    requires Live(c) && t < c.targets && a <= c.retries
    ensures var w := Onward(c, t, a);
            && (w.Stop? ==> w.end.Forwarded?)
            && (!c.turn(t, a).allowed ==> w == On(t + 1, 0))
            && (w.On? && c.turn(t, a).allowed ==> (w.t == t <==> MayRepeat(c, Call(t, a, c.turn(t, a).reply))))
  {
    assert !c.turn(t, a).contextDead && c.turn(t, a).pauseCompletes;
    hide Live;
  }

  lemma AttemptRefuses(c: Case, t: nat, a: nat)
    ensures forall u :: Refused(u) in Attempt(c, t, a) <==> u == t && !c.turn(t, a).allowed
  {
    if !c.turn(t, a).allowed {
      assert Attempt(c, t, a)[0] == Refused(t);
    }
  }

  /**
   A 429 does not say that every target was limited: an earlier target whose 5xx was discarded leaves no mark on
   the status. While the context lives, a 429 with every target limited is what the client gets exactly when each
   call drew a response that could be repeated where it was made, so that none was given up for the next target.
   */
  lemma AllLimitedIff(c: Case)
    requires Live(c) && Walk(c, 0, 0).end.NoResponse?
    ensures var trace := Walk(c, 0, 0).trace;
            && (FailureStatus(trace, false) == 429 ==>
                  ((forall u :: 0 <= u < c.targets ==> Refused(u) in trace) <==> forall x :: x in Calls(trace) ==> MayRepeat(c, x)))
            && (FailureStatus(trace, false) == 429 && (forall u :: 0 <= u < c.targets ==> Refused(u) in trace)
                <==> c.targets > 0 && forall x :: x in Calls(trace) ==> x.reply.Response? && MayRepeat(c, x))
  {
    var trace := Walk(c, 0, 0).trace;
    AllRefusedIff(c, 0, 0);
    TransportErrorIff(trace);
    hide Walk, Calls, AnyTransportError, Live;
    if c.targets > 0 && Refused(0) in trace {
      assert AnyRefused(trace);
    }
    if AnyRefused(trace) {
      var i :| 0 <= i < |trace| && trace[i].Refused?;
      assert Refused(trace[i].target) in trace;
      RefusedLater(c, 0, 0, trace[i].target);
    }
  }

  lemma {:induction false} TransportErrorIff(trace: seq<Event>)
    ensures AnyTransportError(trace) <==> exists x :: x in Calls(trace) && x.reply.TransportError?
  {
    if trace != [] {
      TransportErrorIff(trace[1..]);
      assert trace == [trace[0]] + trace[1..];
      AnyAppend([trace[0]], trace[1..]);
      assert forall x :: x in Calls(trace) <==> x in CallOf(trace[0]) || x in Calls(trace[1..]);
      assert forall x :: x in CallOf(trace[0]) <==> trace[0].Called? && x == Call(trace[0].target, trace[0].attempt, trace[0].reply);
      hide Calls, CallOf;
      assert AnyTransportError([trace[0]]) <==> trace[0].Called? && trace[0].reply.TransportError? by {
        assert [trace[0]][0] == trace[0];
      }
    }
  }

  /** The first target answers 500, the second is refused admission: the client reads 429. */
  lemma DiscardedFailureReadsAsLimit()
    ensures exists c: Case :: Live(c) && c.targets == 2 && c.turn(0, 0) == Turn(true, Response(500), false, true)
                              && Walk(c, 0, 0).end.NoResponse? && FailureStatus(Walk(c, 0, 0).trace, false) == 429
  {
    var c := Case(2, 0, (t: nat) => false, (t: nat, a: nat) => Turn(t == 0, Response(500), false, true));
    assert Walk(c, 1, 0) == Walked([Refused(1)], NoResponse);
    var trace := Walk(c, 0, 0).trace;
    assert trace == [Acquired(0, 0), Called(0, 0, Response(500)), Freed(0, 0), Refused(1)];
    assert trace[3].Refused?;
  }

  // ---------------------------------------------------------------------------------------------
  // Calls on a dead context
  // ---------------------------------------------------------------------------------------------

  lemma WalkEndSplit(c: Case, t: nat, a: nat)
    requires t < c.targets && a <= c.retries
    ensures Walk(c, t, a).end == match Onward(c, t, a) { case Stop(end) => end case On(t', a') => Walk(c, t', a').end }
  {
  }

  lemma NoCallsAtTheEnd(c: Case, t: nat, a: nat)
    requires a <= c.retries
    ensures Calls(Walk(c, t, a).trace) != [] ==> t < c.targets
  {
  }

  /** The walk is at every call it makes: what follows the call is the walk from there. */
  lemma {:induction false} WalkFromCall(c: Case, t: nat, a: nat, i: nat)
    requires a <= c.retries && i < |Calls(Walk(c, t, a).trace)|
    ensures var x := Calls(Walk(c, t, a).trace)[i];
            && x.target < c.targets && x.attempt <= c.retries
            && c.turn(x.target, x.attempt).allowed && x.reply == c.turn(x.target, x.attempt).reply
            && Calls(Walk(c, t, a).trace)[i..] == Calls(Walk(c, x.target, x.attempt).trace)
            && Walk(c, t, a).end == Walk(c, x.target, x.attempt).end
    decreases c.targets - t, c.retries - a
  {
    hide Walk, Calls, Onward;
    NoCallsAtTheEnd(c, t, a);
    WalkCallsSplit(c, t, a);
    WalkEndSplit(c, t, a);
    var all, own := Calls(Walk(c, t, a).trace), CallsOf(c, t, a);
    if i < |own| {
      assert all[0..] == all && all[0] == own[0];
    } else {
      var w := Onward(c, t, a);
      BeyondFirst(own, Calls(Walk(c, w.t, w.a).trace), i);
      hide CallsOf;
      WalkFromCall(c, w.t, w.a, i - |own|);
    }
  }

  lemma BeyondFirst<T>(x: seq<T>, y: seq<T>, i: nat)
    requires |x| <= i < |x + y|
    ensures (x + y)[i] == y[i - |x|] && (x + y)[i..] == y[i - |x|..]
  {
  }

  /** Some admission is granted from here on, if the loop only ever moves past refusals. */
  predicate Welcomed(c: Case, t: nat, a: nat) {
    (t < c.targets && c.turn(t, a).allowed) || exists u :: t < u < c.targets && c.turn(u, 0).allowed
  }

  lemma {:induction false} SomeCallIff(c: Case, t: nat, a: nat)
    requires a <= c.retries
    ensures Calls(Walk(c, t, a).trace) != [] <==> Welcomed(c, t, a)
    decreases c.targets - t
  {
    hide Walk, Calls, Onward;
    if t >= c.targets {
      NothingBeyond(c, t, a);
    } else {
      WalkCallsSplit(c, t, a);
      if !c.turn(t, a).allowed {
        assert Onward(c, t, a) == On(t + 1, 0) by { RefusedMovesOn(c, t, a); }
        SomeCallIff(c, t + 1, 0);
        assert CallsOf(c, t, a) == [];
      } else {
        assert |CallsOf(c, t, a)| == 1;
      }
    }
  }

  lemma RefusedMovesOn(c: Case, t: nat, a: nat)
    requires t < c.targets && a <= c.retries && !c.turn(t, a).allowed
    ensures Onward(c, t, a) == On(t + 1, 0)
  {
  }

  /** The loop goes on after this reply without having looked at the context, or with a pause that won against it. */
  predicate Unchecked(c: Case, x: Call) {
    && x.reply.Response? && x.reply.status in {404, 408, 429, 500, 502, 503, 504}
    && if MayRepeat(c, x) then c.turn(x.target, x.attempt).pauseCompletes else x.target < c.targets - 1
  }

  /**
   A call can follow the death of its context. It does exactly when the dying call drew a retryable response that
   leads on (to a repeat whose pause completes, or to a later target) and some admission ahead is granted.
   */
  lemma CallAfterDeathIff(c: Case, i: nat)
    requires i < |Calls(Walk(c, 0, 0).trace)|
    requires var x := Calls(Walk(c, 0, 0).trace)[i]; c.turn(x.target, x.attempt).contextDead
    ensures var calls := Calls(Walk(c, 0, 0).trace);
            var x := calls[i];
            i + 1 < |calls| <==>
            Unchecked(c, x) && if MayRepeat(c, x) then Welcomed(c, x.target, x.attempt + 1) else Welcomed(c, x.target + 1, 0)
  {
    hide Walk, Calls, Welcomed, Onward, MayRepeat, Unchecked;
    var calls := Calls(Walk(c, 0, 0).trace);
    var x := calls[i];
    WalkFromCall(c, 0, 0, i);
    WalkCallsSplit(c, x.target, x.attempt);
    OnwardWhenDead(c, x);
    assert |calls[i..]| == |calls| - i;
    var w := Onward(c, x.target, x.attempt);
    if w.On? {
      SomeCallIff(c, w.t, w.a);
    }
  }

  lemma OnwardWhenDead(c: Case, x: Call)
    requires x.target < c.targets && x.attempt <= c.retries && x.reply == c.turn(x.target, x.attempt).reply
    requires c.turn(x.target, x.attempt).allowed && c.turn(x.target, x.attempt).contextDead
    ensures var w := Onward(c, x.target, x.attempt);
            && (w.On? <==> Unchecked(c, x))
            && (w.On? ==> w == if MayRepeat(c, x) then On(x.target, x.attempt + 1) else On(x.target + 1, 0))
  {
  }

  predicate Before(t: nat, a: nat, t': nat, a': nat) {
    t < t' || (t == t' && a < a')
  }

  /** A dead context stays dead, and a call made on it fails. */
  ghost predicate Mortal(c: Case) {
    forall t: nat, a: nat, t': nat, a': nat :: Before(t, a, t', a') && c.turn(t, a).contextDead ==>
      c.turn(t', a').contextDead && c.turn(t', a').reply.TransportError?
  }

  /** After its context has died a request makes at most one more call, and if it does it gets no response. */
  lemma OneCallAfterDeath(c: Case, i: nat)
    requires Mortal(c) && i < |Calls(Walk(c, 0, 0).trace)|
    requires var x := Calls(Walk(c, 0, 0).trace)[i]; c.turn(x.target, x.attempt).contextDead
    ensures |Calls(Walk(c, 0, 0).trace)| <= i + 2
    ensures |Calls(Walk(c, 0, 0).trace)| == i + 2 ==> Walk(c, 0, 0).end.NoResponse?
  {
    var calls := Calls(Walk(c, 0, 0).trace);
    if i + 1 < |calls| {
      TraceLaw(c);
      WalkFromCall(c, 0, 0, i);
      WalkFromCall(c, 0, 0, i + 1);
      var x, y := calls[i], calls[i + 1];
      assert Before(x.target, x.attempt, y.target, y.attempt);
      WalkCallsSplit(c, y.target, y.attempt);
      assert |calls[i + 1..]| == |calls| - i - 1;
      assert Onward(c, y.target, y.attempt) == Stop(NoResponse);
    }
  }

  /** The first target answers 500 as the context dies; the second is called and fails. */
  const DYING := Case(2, 0, (t: nat) => false,
                      (t: nat, a: nat) => Turn(true, if t == 0 && a == 0 then Response(500) else TransportError(true), true, false))

  /** The bound is met. */
  lemma CallsAfterDeathHappen()
    ensures Mortal(DYING) && DYING.turn(0, 0).contextDead && |Calls(Walk(DYING, 0, 0).trace)| == 2
  {
    WalkCallsSplit(DYING, 0, 0);
    WalkCallsSplit(DYING, 1, 0);
    assert Onward(DYING, 0, 0) == On(1, 0);
    assert Onward(DYING, 1, 0) == Stop(NoResponse);
    hide Walk, Calls, Onward;
  }

  // ---------------------------------------------------------------------------------------------
  // What follows each call, in full
  // ---------------------------------------------------------------------------------------------

  /** The next attempt after call `i` is attempt `a` of target `t`: a call, unless its admission is refused. */
  predicate NextIs(c: Case, i: nat, t: nat, a: nat) {
    var trace := Walk(c, 0, 0).trace;
    if c.turn(t, a).allowed then i + 1 < |Calls(trace)| && Calls(trace)[i + 1] == Call(t, a, c.turn(t, a).reply)
    else Refused(t) in trace
  }

  /** Call `i` is the last, and the loop ends like this. */
  predicate LastWith(c: Case, i: nat, end: End) {
    i + 1 == |Calls(Walk(c, 0, 0).trace)| && Walk(c, 0, 0).end == end
  }

  /** What the loop does after a call, read off its reply, the state of the context and the place among the targets. */
  predicate FollowsUp(c: Case, i: nat, x: Call, turn: Turn) {
    match x.reply
    case TransportError(expired) =>
      if turn.contextDead then LastWith(c, i, NoResponse)
      else if !(expired && c.timeouts(x.target)) && x.attempt < c.retries then
        if turn.pauseCompletes then NextIs(c, i, x.target, x.attempt + 1) else LastWith(c, i, NoResponse)
      else if x.target + 1 < c.targets then NextIs(c, i, x.target + 1, 0)
      else LastWith(c, i, NoResponse)
    case Response(status) =>
      if status in {408, 500, 502, 503, 504} && x.attempt < c.retries then
        if turn.pauseCompletes then NextIs(c, i, x.target, x.attempt + 1) else LastWith(c, i, NoResponse)
      else if status in {404, 408, 429, 500, 502, 503, 504} && x.target + 1 < c.targets then NextIs(c, i, x.target + 1, 0)
      else LastWith(c, i, Forwarded(x.target, x.attempt, status))
  }

  /**
   The whole rule of retry and failover, for every call of every oracle. A transport error on a dead context ends the
   loop. A failure worth repeating is repeated while repeats are left, after a pause that the context outlives. Any
   other transport error, and a 404, 408, 429, 500, 502, 503 or 504, goes to the next target. What is left is
   forwarded if it is a response.
   */
  lemma WhatFollowsACall(c: Case, i: nat)
    requires i < |Calls(Walk(c, 0, 0).trace)|
    ensures var x := Calls(Walk(c, 0, 0).trace)[i]; FollowsUp(c, i, x, c.turn(x.target, x.attempt))
  {
    hide Walk, Calls, NextIs, LastWith;
    var x := Calls(Walk(c, 0, 0).trace)[i];
    WalkFromCall(c, 0, 0, i);
    match Onward(c, x.target, x.attempt)
    case Stop(end) => StopsThere(c, i, end);
    case On(t', a') =>
      if t' < c.targets {
        GoesThere(c, i, t', a');
      } else {
        EndsThere(c, i);
      }
  }

  lemma StopsThere(c: Case, i: nat, end: End)
    requires i < |Calls(Walk(c, 0, 0).trace)|
    requires var x := Calls(Walk(c, 0, 0).trace)[i]; x.target < c.targets && x.attempt <= c.retries && Onward(c, x.target, x.attempt) == Stop(end)
    ensures LastWith(c, i, end)
  {
    hide Walk, Calls, Onward;
    var calls := Calls(Walk(c, 0, 0).trace);
    WalkFromCall(c, 0, 0, i);
    WalkCallsSplit(c, calls[i].target, calls[i].attempt);
    WalkEndSplit(c, calls[i].target, calls[i].attempt);
    assert |calls[i..]| == |calls| - i;
  }

  /** The last target is behind. */
  lemma EndsThere(c: Case, i: nat)
    requires i < |Calls(Walk(c, 0, 0).trace)|
    requires var x := Calls(Walk(c, 0, 0).trace)[i];
             x.target < c.targets && x.attempt <= c.retries
             && Onward(c, x.target, x.attempt).On? && Onward(c, x.target, x.attempt).t >= c.targets
    ensures LastWith(c, i, NoResponse)
  {
    hide Calls, Onward, Walk;
    var calls := Calls(Walk(c, 0, 0).trace);
    var w := Onward(c, calls[i].target, calls[i].attempt);
    WalkFromCall(c, 0, 0, i);
    WalkCallsSplit(c, calls[i].target, calls[i].attempt);
    WalkEndSplit(c, calls[i].target, calls[i].attempt);
    NothingBeyond(c, w.t, w.a);
    assert |calls[i..]| == |calls| - i;
  }

  lemma NothingBeyond(c: Case, t: nat, a: nat)
    requires t >= c.targets && a <= c.retries
    ensures Walk(c, t, a).end == NoResponse && Calls(Walk(c, t, a).trace) == []
  {
  }

  lemma GoesThere(c: Case, i: nat, t: nat, a: nat)
    requires i < |Calls(Walk(c, 0, 0).trace)|
    requires var x := Calls(Walk(c, 0, 0).trace)[i];
             x.target < c.targets && x.attempt <= c.retries && Onward(c, x.target, x.attempt) == On(t, a) && t < c.targets
    ensures NextIs(c, i, t, a)
  {
    hide Walk, Calls, Onward;
    var calls := Calls(Walk(c, 0, 0).trace);
    var x := calls[i];
    WalkFromCall(c, 0, 0, i);
    WalkCallsSplit(c, x.target, x.attempt);
    WalkCallsSplit(c, t, a);
    assert CallsOf(c, x.target, x.attempt) == [x];
    if c.turn(t, a).allowed {
      assert calls[i..][1] == calls[i + 1];
    } else {
      TraceFromCall(c, 0, 0, i);
      RefusedThere(c, x.target, x.attempt, t, a);
    }
  }

  lemma RefusedThere(c: Case, t: nat, a: nat, t': nat, a': nat)
    requires t < c.targets && a <= c.retries && Onward(c, t, a) == On(t', a') && t' < c.targets && !c.turn(t', a').allowed
    ensures Refused(t') in Walk(c, t, a).trace
  {
    assert Attempt(c, t', a')[0] == Refused(t');
    assert Refused(t') in Walk(c, t', a').trace;
  }

  /** Whatever the walk from a call on leaves is on the trace of the whole walk. */
  lemma {:induction false} TraceFromCall(c: Case, t: nat, a: nat, i: nat)
    requires a <= c.retries && i < |Calls(Walk(c, t, a).trace)|
    ensures var x := Calls(Walk(c, t, a).trace)[i];
            x.attempt <= c.retries && forall e :: e in Walk(c, x.target, x.attempt).trace ==> e in Walk(c, t, a).trace
    decreases c.targets - t, c.retries - a
  {
    NoCallsAtTheEnd(c, t, a);
    WalkCallsSplit(c, t, a);
    WalkTraceSplit(c, t, a);
    hide Walk, Calls, Onward, Attempt;
    var all, own := Calls(Walk(c, t, a).trace), CallsOf(c, t, a);
    if i < |own| {
      assert all[0] == own[0];
    } else {
      var w := Onward(c, t, a);
      BeyondFirst(own, Calls(Walk(c, w.t, w.a).trace), i);
      hide CallsOf;
      TraceFromCall(c, w.t, w.a, i - |own|);
    }
  }

  lemma WalkTraceSplit(c: Case, t: nat, a: nat)
    requires t < c.targets && a <= c.retries
    ensures Onward(c, t, a).On? ==> forall e :: e in Walk(c, Onward(c, t, a).t, Onward(c, t, a).a).trace ==> e in Walk(c, t, a).trace
  {
  }

  // ---------------------------------------------------------------------------------------------
  // The order of events, in full
  // ---------------------------------------------------------------------------------------------

  /** Nothing is held after this event. */
  predicate Between(e: Event) {
    e.Refused? || e.Freed? || e.Paused?
  }

  /** Event `k` stands where its kind allows. */
  predicate Ordered(c: Case, trace: seq<Event>, k: nat)
    requires k < |trace|
  {
    match trace[k]
    case Refused(_) => k == 0 || Between(trace[k - 1])
    case Acquired(_, _) => k == 0 || Between(trace[k - 1])
    case Called(t, a, reply) => k > 0 && trace[k - 1] == Acquired(t, a) && reply == c.turn(t, a).reply
    case Freed(t, a) => k > 1 && trace[k - 1] == Called(t, a, c.turn(t, a).reply)
    case Paused(t, a, millis) => k > 2 && trace[k - 1] == Freed(t, a) && millis == if a < 4 then [100, 200, 400, 800][a] else 1600
  }

  lemma OrderedLater(c: Case, head: seq<Event>, rest: seq<Event>, k: nat)
    requires k < |rest| && Ordered(c, rest, k)
    requires head != [] ==> Between(head[|head| - 1])
    ensures Ordered(c, head + rest, |head| + k)
  {
    var all := head + rest;
    assert all[|head| + k] == rest[k];
    assert k > 0 ==> all[|head| + k - 1] == rest[k - 1];
  }

  lemma OrderedEarlier(c: Case, head: seq<Event>, rest: seq<Event>, k: nat)
    requires k < |head| && Ordered(c, head, k)
    ensures Ordered(c, head + rest, k)
  {
    var all := head + rest;
    assert all[k] == head[k];
    assert k > 0 ==> all[k - 1] == head[k - 1];
  }

  lemma AttemptOrdered(c: Case, t: nat, a: nat, k: nat)
    requires k < |Attempt(c, t, a)|
    ensures Ordered(c, Attempt(c, t, a), k)
  {
    assert Pow2(4) == 16 by {
      assert Pow2(1) == 2 && Pow2(2) == 4 && Pow2(3) == 8;
    }
    hide Decide;
  }

  lemma AttemptEnds(c: Case, t: nat, a: nat)
    requires t < c.targets && a <= c.retries && Onward(c, t, a).On?
    ensures Attempt(c, t, a) != [] && Between(Attempt(c, t, a)[|Attempt(c, t, a)| - 1])
  {
  }

  /**
   On every oracle each slot is acquired when none is held, used for one call, and freed right after it; a pause comes
   only right after its slot was freed and lasts 100 ms doubled for each attempt before, at most 1600 ms; and a slot
   is left unfreed only at the very end, for the response that is forwarded.
   */
  lemma {:induction false} EventsAreOrdered(c: Case, t: nat, a: nat, k: nat)
    requires a <= c.retries && k < |Walk(c, t, a).trace|
    ensures var w := Walk(c, t, a);
            && Ordered(c, w.trace, k)
            && (w.trace[k].Acquired? ==> k + 1 < |w.trace| && w.trace[k + 1].Called?)
            && (w.trace[k].Called? ==>
                  if k + 1 < |w.trace| then w.trace[k + 1].Freed?
                  else w.end.Forwarded? && w.end.target == w.trace[k].target && w.end.attempt == w.trace[k].attempt)
    decreases c.targets - t, c.retries - a
  {
    var head := Attempt(c, t, a);
    match Onward(c, t, a)
    case Stop(_) =>
      AttemptOrdered(c, t, a, k);
      LastAttempt(c, t, a, k);
    case On(t', a') =>
      var rest := Walk(c, t', a').trace;
      assert Walk(c, t, a).trace == head + rest;
      AttemptEnds(c, t, a);
      if k < |head| {
        AttemptOrdered(c, t, a, k);
        OrderedEarlier(c, head, rest, k);
        InnerAttempt(c, t, a, k);
      } else {
        EventsAreOrdered(c, t', a', k - |head|);
        OrderedLater(c, head, rest, k - |head|);
      }
  }

  lemma LastAttempt(c: Case, t: nat, a: nat, k: nat)
    requires t < c.targets && a <= c.retries && Onward(c, t, a).Stop? && k < |Attempt(c, t, a)|
    ensures var trace, end := Attempt(c, t, a), Onward(c, t, a).end;
            && (trace[k].Acquired? ==> k + 1 < |trace| && trace[k + 1].Called?)
            && (trace[k].Called? ==>
                  if k + 1 < |trace| then trace[k + 1].Freed?
                  else end.Forwarded? && end.target == trace[k].target && end.attempt == trace[k].attempt)
  {
  }

  lemma InnerAttempt(c: Case, t: nat, a: nat, k: nat)
    requires t < c.targets && a <= c.retries && Onward(c, t, a).On? && k < |Attempt(c, t, a)|
    ensures var trace := Attempt(c, t, a);
            && (trace[k].Acquired? ==> k + 1 < |trace| && trace[k + 1].Called?)
            && (trace[k].Called? ==> k + 1 < |trace| && trace[k + 1].Freed?)
  {
  }

  /** A refused target is followed by the next one, and the last one ends the loop. */
  lemma {:induction false} WhatFollowsARefusal(c: Case, t: nat, a: nat, k: nat)
    requires a <= c.retries && k < |Walk(c, t, a).trace| && Walk(c, t, a).trace[k].Refused?
    ensures var w := Walk(c, t, a);
            var u := w.trace[k].target;
            if u + 1 < c.targets then
              k + 1 < |w.trace| && w.trace[k + 1] == if c.turn(u + 1, 0).allowed then Acquired(u + 1, 0) else Refused(u + 1)
            else k + 1 == |w.trace| && w.end.NoResponse?
    decreases c.targets - t, c.retries - a
  {
    hide Walk, Attempt, Onward;
    NothingWhenOver(c, t, a);
    var w, head := Onward(c, t, a), Attempt(c, t, a);
    WalkSplit(c, t, a);
    if k < |head| {
      RefusedAttempt(c, t, a, k);
      WalkBegins(c, w.t, w.a);
    } else {
      WhatFollowsARefusal(c, w.t, w.a, k - |head|);
    }
  }

  lemma NothingWhenOver(c: Case, t: nat, a: nat)
    requires a <= c.retries
    ensures Walk(c, t, a).trace != [] ==> t < c.targets
  {
  }

  lemma WalkSplit(c: Case, t: nat, a: nat)
    requires t < c.targets && a <= c.retries
    ensures var w := Onward(c, t, a);
            if w.On? then Walk(c, t, a).trace == Attempt(c, t, a) + Walk(c, w.t, w.a).trace && Walk(c, t, a).end == Walk(c, w.t, w.a).end
            else Walk(c, t, a).trace == Attempt(c, t, a)
  {
  }

  lemma RefusedAttempt(c: Case, t: nat, a: nat, k: nat)
    requires t < c.targets && a <= c.retries && k < |Attempt(c, t, a)| && Attempt(c, t, a)[k].Refused?
    ensures k == 0 && Attempt(c, t, a) == [Refused(t)] && Onward(c, t, a) == On(t + 1, 0)
  {
  }

  lemma WalkBegins(c: Case, t: nat, a: nat)
    requires a <= c.retries
    ensures if t < c.targets then Walk(c, t, a).trace != [] && Walk(c, t, a).trace[0] == if c.turn(t, a).allowed then Acquired(t, a) else Refused(t)
            else Walk(c, t, a).trace == [] && Walk(c, t, a).end.NoResponse?
  {
    if t < c.targets {
      assert Attempt(c, t, a)[0] == if c.turn(t, a).allowed then Acquired(t, a) else Refused(t);
    }
  }
}
