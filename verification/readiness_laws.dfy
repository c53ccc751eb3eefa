/** The promises of the readiness cache, over every interleaving of callers and reloads. */
module ReadinessLaws {
  import opened Readiness
  import opened Wrappers

  function Reached(steps: seq<Step>): System {
    Run(IDLE, steps)
  }

  lemma ReachedInv(steps: seq<Step>)
    ensures Inv(Reached(steps))
  {
    assert Inv(IDLE);
    Invariant(IDLE, steps);
  }

  /** At most one probe runs, the cache names its channel exactly while it runs, and every channel is closed at most once. */
  lemma OneFlightAtATime(steps: seq<Step>)
    ensures var s := Reached(steps);
            && (forall i, j :: 0 <= i < |s.callers| && 0 <= j < |s.callers| && s.callers[i].Probing? && s.callers[j].Probing? ==> i == j)
            && (s.cache.inflight.Some? <==> exists i :: 0 <= i < |s.callers| && s.callers[i].Probing?)
            && (forall c :: 0 <= c < |s.closes| ==> s.closes[c] == if s.cache.inflight == Some(c) then 0 else 1)
  {
    ReachedInv(steps);
  }

  /** No wakeup is lost: a waiter can wake at once, or the running probe can end, and then the waiter can wake. */
  lemma NoLostWakeup(steps: seq<Step>, i: nat, result: Result, now: real, ttl: real)
    requires i < |Reached(steps).callers| && Reached(steps).callers[i].Waiting?
    ensures var s := Reached(steps);
            || Enabled(s, Wake(i))
            || exists p: nat :: Enabled(s, End(p, result, now, ttl)) && Enabled(Next(s, End(p, result, now, ttl)), Wake(i))
  {
    ReachedInv(steps);
    var s := Reached(steps);
    var c := s.callers[i].channel;
    if s.closes[c] == 0 {
      assert s.cache.inflight == Some(c);
      var p :| 0 <= p < |s.callers| && s.callers[p].Probing?;
      assert s.callers[p].channel == c;
      var end := End(p, result, now, ttl);
      var s' := Next(s, end);
      assert s'.callers[i] == s.callers[i] && s'.closes[c] == 1;
      assert Enabled(s, end) && Enabled(s', Wake(i));
    }
  }

  /** A result served from the cache was found by a probe that began after the most recent clear. */
  lemma CachedResultsAreNewerThanClears(steps: seq<Step>, now: real)
    requires Fresh(Reached(steps).cache, now)
    ensures var s := Reached(steps);
            exists b, e :: 0 <= b < e < |s.log| && s.log[b].Began? && s.log[e] == Ended(s.log[b].channel, s.cache.result)
                           && forall k :: b < k < |s.log| ==> !s.log[k].ClearedAt?
  {
    ReachedInv(steps);
    var s := Reached(steps);
    var e :| s.source < e < |s.log| && s.log[e] == Ended(s.log[s.source].channel, s.cache.result);
    forall k | s.source < k < |s.log| ensures !s.log[k].ClearedAt? {
      NoClearSince(s.log, s.source, k);
    }
  }

  /** So whoever is answered without probing gets an unexpired result of a probe that began after the most recent clear. */
  lemma AnswersAreNewerThanClears(steps: seq<Step>, i: nat, now: real)
    requires Enabled(Reached(steps), Ask(i, now)) && Next(Reached(steps), Ask(i, now)).callers[i].Answered?
    ensures var s := Reached(steps);
            && s.cache.expires.Some? && now < s.cache.expires.value
            && exists b, e :: 0 <= b < e < |s.log| && s.log[b].Began?
                              && s.log[e] == Ended(s.log[b].channel, Next(s, Ask(i, now)).callers[i].result)
                              && forall k :: b < k < |s.log| ==> !s.log[k].ClearedAt?
  {
    CachedResultsAreNewerThanClears(steps, now);
  }

  // ---------------------------------------------------------------------------------------------
  // How many probes a window can start
  // ---------------------------------------------------------------------------------------------

  predicate Starts(s: System, step: Step) {
    Enabled(s, step) && step.Ask? && Consulted(s.cache, step.now, |s.closes|).1.Probe?
  }

  function Started(s: System, steps: seq<Step>): nat
    decreases |steps|
  {
    if steps == [] then 0 else (if Starts(s, steps[0]) then 1 else 0) + Started(Next(s, steps[0]), steps[1..])
  }

  function ClearSteps(steps: seq<Step>): nat {
    if steps == [] then 0 else (if steps[0].Clear? then 1 else 0) + ClearSteps(steps[1..])
  }

  function TimeOf(step: Step, t: real): real {
    if step.Ask? || step.End? then step.now else t
  }

  /** The clock does not run backwards, and no result is kept for less than `ttl`. */
  predicate Timely(steps: seq<Step>, from: real, to: real, ttl: real) {
    if steps == [] then from <= to
    else
      && from <= TimeOf(steps[0], from)
      && (steps[0].End? ==> steps[0].ttl >= ttl)
      && Timely(steps[1..], TimeOf(steps[0], from), to, ttl)
  }

  /** The running probe, if any, will still be allowed to store its result. */
  predicate Storing(s: System) {
    exists i :: 0 <= i < |s.callers| && s.callers[i].Probing? && s.callers[i].generation == s.cache.generation
  }

  /** How long the next probe must still wait, up to `ttl`, unless a clear comes. */
  function Wait(s: System, t: real, ttl: real): real {
    if Storing(s) then ttl
    else if s.cache.expires.None? || s.cache.expires.value <= t then 0.0
    else if s.cache.expires.value - t >= ttl then ttl
    else s.cache.expires.value - t
  }

  predicate Pays(before: real, started: bool, cleared: bool, elapsed: real, after: real, ttl: real) {
    before <= after + elapsed - (if started then ttl else 0.0) + (if cleared then ttl else 0.0)
  }

  lemma WaitAtMost(s: System, t: real, ttl: real)
    requires ttl > 0.0
    ensures Wait(s, t, ttl) <= ttl
  {
  }

  /** Each step shortens the wait by no more than the time it takes; a start renews it in full; only a clear forgives it. */
  lemma StepPays(s: System, step: Step, t: real, ttl: real)
    requires Inv(s) && ttl > 0.0 && t <= TimeOf(step, t)
    requires step.End? ==> step.ttl >= ttl
    ensures Pays(Wait(s, t, ttl), Starts(s, step), step.Clear?, TimeOf(step, t) - t, Wait(Next(s, step), TimeOf(step, t), ttl), ttl)
  {
    var s' := Next(s, step);
    var t' := TimeOf(step, t);
    if Starts(s, step) {
      assert s'.callers[step.i].Probing? && s'.callers[step.i].generation == s'.cache.generation;
      assert Storing(s') && !Storing(s);
    } else if step.Clear? {
      assert Wait(s, t, ttl) <= ttl;
    } else if step.End? && Enabled(s, step) {
      EndPays(s, step, t, ttl);
    } else {
      QuietPays(s, step, t, ttl);
    }
  }

  lemma EndPays(s: System, step: Step, t: real, ttl: real)
    requires SingleFlight(s) && ttl > 0.0 && step.End? && Enabled(s, step) && t <= step.now && step.ttl >= ttl
    ensures Wait(s, t, ttl) <= Wait(Next(s, step), step.now, ttl) + (step.now - t)
  {
    var s' := Next(s, step);
    assert forall j :: 0 <= j < |s.callers| && j != step.i ==> s'.callers[j] == s.callers[j];
    assert s'.callers[step.i].Answered?;
    assert !Storing(s');
    assert Storing(s) <==> s.callers[step.i].generation == s.cache.generation;
  }

  lemma QuietPays(s: System, step: Step, t: real, ttl: real)
    requires ttl > 0.0 && t <= TimeOf(step, t) && !Starts(s, step) && !step.Clear? && !(step.End? && Enabled(s, step))
    ensures Wait(s, t, ttl) <= Wait(Next(s, step), TimeOf(step, t), ttl) + (TimeOf(step, t) - t)
  {
    var s' := Next(s, step);
    assert s'.cache == s.cache;
    if Storing(s) {
      var i :| 0 <= i < |s.callers| && s.callers[i].Probing? && s.callers[i].generation == s.cache.generation;
      assert s'.callers[i] == s.callers[i];
    }
  }

  /** `n` times `ttl`, by counting. */
  function Times(n: nat, ttl: real): real {
    if n == 0 then 0.0 else Times(n - 1, ttl) + ttl
  }

  lemma {:induction false} TimesIs(n: nat, ttl: real)
    ensures Times(n, ttl) == n as real * ttl
  {
    if n > 0 {
      TimesIs(n - 1, ttl);
      assert ((n - 1) as real + 1.0) * ttl == (n - 1) as real * ttl + ttl;
    }
  }

  lemma {:induction false} TimesGrows(m: nat, n: nat, ttl: real)
    requires m <= n && ttl > 0.0
    ensures Times(m, ttl) <= Times(n, ttl)
  {
    if m < n {
      TimesGrows(m, n - 1, ttl);
    }
  }

  lemma {:induction false} StartsArePaid(s: System, steps: seq<Step>, from: real, to: real, ttl: real)
    requires Inv(s) && ttl > 0.0 && Timely(steps, from, to, ttl)
    ensures Times(Started(s, steps), ttl) <= Times(ClearSteps(steps), ttl) + ttl + (to - from) - Wait(s, from, ttl)
    decreases |steps|
  {
    hide Next, Starts, Inv, Wait, TimeOf;
    if steps == [] {
      WaitAtMost(s, from, ttl);
    } else {
      var s', t := Next(s, steps[0]), TimeOf(steps[0], from);
      InvNext(s, steps[0]);
      StepPays(s, steps[0], from, ttl);
      StartsArePaid(s', steps[1..], t, to, ttl);
    }
  }

  /**
   The amplification bound. From any reachable state, a window of length d with c clears starts at most
   c + 1 + d / ttl probes, however many callers poll: the clears add one probe each, not one round each.
   */
  lemma ProbesAreBounded(before: seq<Step>, steps: seq<Step>, from: real, to: real, ttl: real)
    requires ttl > 0.0 && Timely(steps, from, to, ttl)
    ensures Started(Reached(before), steps) as real <= (ClearSteps(steps) + 1) as real + (to - from) / ttl
  {
    var n, c := Started(Reached(before), steps), ClearSteps(steps) + 1;
    BoundedByTime(before, steps, from, to, ttl);
    TimesIs(n, ttl);
    TimesIs(c, ttl);
    Divide(n as real, c as real, to - from, ttl);
  }

  lemma BoundedByTime(before: seq<Step>, steps: seq<Step>, from: real, to: real, ttl: real)
    requires ttl > 0.0 && Timely(steps, from, to, ttl)
    ensures Times(Started(Reached(before), steps), ttl) <= Times(ClearSteps(steps) + 1, ttl) + (to - from)
  {
    hide Next, Starts, Inv, SingleFlight, Channels, Dated, Started, ClearSteps, Timely, Reached;
    ReachedInv(before);
    StartsArePaid(Reached(before), steps, from, to, ttl);
  }

  lemma Divide(n: real, c: real, d: real, ttl: real)
    requires ttl > 0.0 && n * ttl <= c * ttl + d
    ensures n <= c + d / ttl
  {
    var q := d / ttl;
    assert q * ttl == d;
    assert (n - c - q) * ttl <= 0.0;
  }

  /** Without a clear in between, two probes start at least a full `ttl` apart. */
  lemma ProbesAreApart(before: seq<Step>, steps: seq<Step>, from: real, to: real, ttl: real)
    requires ttl > 0.0 && Timely(steps, from, to, ttl) && ClearSteps(steps) == 0
    requires Started(Reached(before), steps) >= 2
    ensures to - from >= ttl
  {
    BoundedByTime(before, steps, from, to, ttl);
    TimesGrows(2, Started(Reached(before), steps), ttl);
    assert Times(1, ttl) == ttl && Times(2, ttl) == ttl + ttl;
  }
}
