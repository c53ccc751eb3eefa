/** The cached readiness probe: one flight at a time, invalidated by generation. */
module Readiness {
  import opened Wrappers

  datatype Result = Result(status: map<string, string>, ready: bool)

  const NO_RESULT := Result(map[], false)

  /** Channels are numbered in the order they are made. */
  datatype Cache = Cache(result: Result, expires: Option<real>, inflight: Option<nat>, generation: nat)

  const EMPTY := Cache(NO_RESULT, None, None, 0)

  datatype Answer = Cached(result: Result) | Wait(channel: nat) | Probe(channel: nat, generation: nat)

  /** A stored result that has not expired. */
  predicate Fresh(c: Cache, now: real) {
    c.expires.Some? && now < c.expires.value
  }

  function Consulted(c: Cache, now: real, channel: nat): (Cache, Answer) {
    if Fresh(c, now) then (c, Cached(c.result))
    else if c.inflight.Some? then (c, Wait(c.inflight.value))
    else (c.(inflight := Some(channel)), Probe(channel, c.generation))
  }

  /** A result is kept only when no clear came between the start of its probe and its end. */
  function Finished(c: Cache, generation: nat, result: Result, now: real, ttl: real): Cache {
    (if generation == c.generation then c.(result := result, expires := Some(now + ttl)) else c).(inflight := None)
  }

  function Cleared(c: Cache): Cache {
    c.(result := NO_RESULT, expires := None, generation := c.generation + 1)
  }

  class ReadinessCache {
    var result: Result
    var expires: Option<real>
    var inflight: Option<nat>
    var generation: nat

    function State(): Cache
      reads this
    {
      Cache(result, expires, inflight, generation)
    }

    constructor ()
      ensures State() == EMPTY
    {
      result, expires, inflight, generation := NO_RESULT, None, None, 0;
    }

    method Clear()
      modifies this
      ensures State() == Cleared(old(State()))
    {
      result := NO_RESULT;
      expires := None;
      generation := generation + 1;
    }

    /** What a caller does first: take the stored result, join the running probe, or become the prober. */
    method Consult(now: real, channel: nat) returns (answer: Answer)
      modifies this
      ensures (State(), answer) == Consulted(old(State()), now, channel)
    {
      if expires.Some? && now < expires.value {
        return Cached(result);
      }
      if inflight.Some? {
        return Wait(inflight.value);
      }
      inflight := Some(channel);
      return Probe(channel, generation);
    }

    /** What the prober does last. Closing the channel is the caller's part. */
    method Finish(captured: nat, found: Result, now: real, ttl: real)
      modifies this
      ensures State() == Finished(old(State()), captured, found, now, ttl)
    {
      if captured == generation {
        result := found;
        expires := Some(now + ttl);
      }
      inflight := None;
    }
  }

  /** Collects the provider probes in whatever order they come in. */
  method CheckReadiness(ok: map<string, bool>, arrivals: seq<string>) returns (r: Result)
    requires forall n :: n in ok <==> n in arrivals
    ensures r.status.Keys == ok.Keys
    ensures forall n :: n in ok ==> r.status[n] == if ok[n] then "ok" else "unavailable"
    ensures r.ready <==> exists n :: n in ok && ok[n]
  {
    var status: map<string, string>, ready := map[], false;
    var i := 0;
    while i < |arrivals|
      invariant 0 <= i <= |arrivals|
      invariant forall n :: n in status <==> n in arrivals[..i]
      invariant forall n :: n in status ==> n in ok && status[n] == if ok[n] then "ok" else "unavailable"
      invariant ready <==> exists n :: n in status && ok[n]
    {
      var name := arrivals[i];
      if ok[name] {
        status := status[name := "ok"];
        ready := true;
      } else {
        status := status[name := "unavailable"];
      }
      i := i + 1;
    }
    assert arrivals[..i] == arrivals;
    r := Result(status, ready);
  }

  // ---------------------------------------------------------------------------------------------
  // Any number of callers
  // ---------------------------------------------------------------------------------------------

  /** `began` is the place in the log at which the probe of a prober began. */
  datatype Caller =
    | Asking
    | Waiting(channel: nat)
    | Probing(channel: nat, generation: nat, began: nat)
    | Answered(result: Result)
    | Cancelled

  datatype Event = Began(channel: nat) | Ended(channel: nat, result: Result) | ClearedAt

  /** `closes` counts how often each channel was closed. The log and `source`, where the probe of the stored result began, are history. */
  datatype System = System(cache: Cache, callers: seq<Caller>, closes: seq<nat>, log: seq<Event>, source: nat)

  const IDLE := System(EMPTY, [], [], [], 0)

  datatype Step =
    | Arrive
    | Ask(i: nat, now: real)
    | Wake(i: nat)
    | Cancel(i: nat)
    | End(i: nat, result: Result, now: real, ttl: real)
    | Clear

  predicate Enabled(s: System, step: Step) {
    match step
    case Arrive => true
    case Clear => true
    case Ask(i, _) => i < |s.callers| && s.callers[i].Asking?
    case Wake(i) => i < |s.callers| && s.callers[i].Waiting? && s.callers[i].channel < |s.closes| && s.closes[s.callers[i].channel] > 0
    case Cancel(i) => i < |s.callers| && s.callers[i].Waiting?
    case End(i, _, _, _) => i < |s.callers| && s.callers[i].Probing? && s.callers[i].channel < |s.closes|
  }

  function Next(s: System, step: Step): System {
    if !Enabled(s, step) then s
    else
      match step
      case Arrive => s.(callers := s.callers + [Asking])
      case Ask(i, now) =>
        var (cache, answer) := Consulted(s.cache, now, |s.closes|);
        (match answer
         case Cached(result) => s.(callers := s.callers[i := Answered(result)])
         case Wait(channel) => s.(callers := s.callers[i := Waiting(channel)])
         case Probe(channel, generation) =>
           s.(cache := cache, callers := s.callers[i := Probing(channel, generation, |s.log|)],
              closes := s.closes + [0], log := s.log + [Began(channel)]))
      case Wake(i) => s.(callers := s.callers[i := Asking])
      case Cancel(i) => s.(callers := s.callers[i := Cancelled])
      case End(i, result, now, ttl) =>
        var p := s.callers[i];
        s.(cache := Finished(s.cache, p.generation, result, now, ttl), callers := s.callers[i := Answered(result)],
           closes := s.closes[p.channel := s.closes[p.channel] + 1], log := s.log + [Ended(p.channel, result)],
           source := if p.generation == s.cache.generation then p.began else s.source)
      case Clear => s.(cache := Cleared(s.cache), log := s.log + [ClearedAt])
  }

  function Run(s: System, steps: seq<Step>): System
    decreases |steps|
  {
    if steps == [] then s else Run(Next(s, steps[0]), steps[1..])
  }

  // ---------------------------------------------------------------------------------------------
  // What every reachable state keeps
  // ---------------------------------------------------------------------------------------------

  function Clears(log: seq<Event>): nat {
    if log == [] then 0 else Clears(log[..|log| - 1]) + (if log[|log| - 1].ClearedAt? then 1 else 0)
  }

  lemma ClearsAppend(log: seq<Event>, e: Event)
    ensures Clears(log + [e]) == Clears(log) + (if e.ClearedAt? then 1 else 0)
  {
    assert (log + [e])[..|log|] == log;
  }

  /** Where the clears are as many as at some earlier place, none has come since. */
  lemma {:induction false} NoClearSince(log: seq<Event>, from: nat, k: nat)
    requires from <= |log|
    ensures Clears(log[..from]) <= Clears(log)
    ensures Clears(log[..from]) == Clears(log) && from <= k < |log| ==> !log[k].ClearedAt?
  {
    if from < |log| {
      var n := |log| - 1;
      NoClearSince(log[..n], from, k);
      assert log[..n][..from] == log[..from];
    } else {
      assert log[..from] == log;
    }
  }

  /** One probe at a time, and the channel in the cache is that of the running probe. */
  ghost predicate SingleFlight(s: System) {
    && (forall i, j :: 0 <= i < |s.callers| && 0 <= j < |s.callers| && s.callers[i].Probing? && s.callers[j].Probing? ==> i == j)
    && (s.cache.inflight.Some? <==> exists i :: 0 <= i < |s.callers| && s.callers[i].Probing?)
    && (forall i :: 0 <= i < |s.callers| && s.callers[i].Probing? ==> s.cache.inflight == Some(s.callers[i].channel))
  }

  /** A channel is open exactly while its probe runs, and is closed once; whoever waits waits for an end that comes. */
  ghost predicate Channels(s: System) {
    && (s.cache.inflight.Some? ==> s.cache.inflight.value < |s.closes|)
    && (forall c :: 0 <= c < |s.closes| ==> s.closes[c] == if s.cache.inflight == Some(c) then 0 else 1)
    && (forall i :: 0 <= i < |s.callers| && s.callers[i].Waiting? ==> s.callers[i].channel < |s.closes|)
  }

  /** Generations count clears; a probe knows how many came before it, and so does the stored result. */
  ghost predicate Dated(s: System) {
    && s.cache.generation == Clears(s.log)
    && (forall i :: 0 <= i < |s.callers| && s.callers[i].Probing? ==> Remembers(s, s.callers[i]))
    && (s.cache.expires.Some? ==> StoredDated(s))
  }

  ghost predicate StoredDated(s: System) {
    && s.source < |s.log| && s.log[s.source].Began? && Clears(s.log[..s.source]) == s.cache.generation
    && exists e :: s.source < e < |s.log| && s.log[e] == Ended(s.log[s.source].channel, s.cache.result)
  }

  ghost predicate Remembers(s: System, p: Caller)
    requires p.Probing?
  {
    p.began < |s.log| && s.log[p.began] == Began(p.channel) && p.generation == Clears(s.log[..p.began])
  }

  ghost predicate Inv(s: System) {
    SingleFlight(s) && Channels(s) && Dated(s)
  }

  lemma SingleFlightNext(s: System, step: Step)
    requires SingleFlight(s)
    ensures SingleFlight(Next(s, step))
  {
    if Enabled(s, step) && (step.Ask? || step.Wake? || step.Cancel? || step.End?) {
      var s' := Next(s, step);
      assert forall j :: 0 <= j < |s.callers| && j != step.i ==> s'.callers[j] == s.callers[j];
      assert s'.callers[step.i].Probing? ==> s'.cache.inflight == Some(s'.callers[step.i].channel);
    } else if step.Arrive? {
      var s' := Next(s, step);
      assert forall j :: 0 <= j < |s.callers| ==> s'.callers[j] == s.callers[j];
      assert s'.callers[|s.callers|] == Asking;
    }
  }

  lemma ChannelsNext(s: System, step: Step)
    requires SingleFlight(s) && Channels(s)
    ensures Channels(Next(s, step))
  {
    if Enabled(s, step) && step.End? {
      assert s.cache.inflight == Some(s.callers[step.i].channel);
    }
  }

  lemma RemembersLonger(s: System, s': System, p: Caller, e: Event)
    requires p.Probing? && Remembers(s, p) && s'.log == s.log + [e]
    ensures Remembers(s', p)
  {
    assert s'.log[..p.began] == s.log[..p.began];
  }

  lemma StoredSame(s: System, s': System)
    requires StoredDated(s) && s'.log == s.log && s'.cache == s.cache && s'.source == s.source
    ensures StoredDated(s')
  {
  }

  lemma StoredLonger(s: System, s': System, e: Event)
    requires StoredDated(s) && s'.log == s.log + [e] && s'.source == s.source
    requires s'.cache.generation == s.cache.generation && s'.cache.result == s.cache.result
    ensures StoredDated(s')
  {
    assert s'.log[..s.source] == s.log[..s.source];
    var n :| s.source < n < |s.log| && s.log[n] == Ended(s.log[s.source].channel, s.cache.result);
    assert s'.log[n] == Ended(s'.log[s'.source].channel, s'.cache.result);
  }

  /** A probe that ends in the generation it began in stores a result dated by its own beginning. */
  lemma StoredNow(s: System, s': System, p: Caller)
    requires p.Probing? && Remembers(s, p) && p.generation == s.cache.generation
    requires s'.log == s.log + [Ended(p.channel, s'.cache.result)] && s'.source == p.began
    requires s'.cache.generation == s.cache.generation
    ensures StoredDated(s')
  {
    assert s'.log[..p.began] == s.log[..p.began];
    assert s'.log[|s.log|] == Ended(s'.log[s'.source].channel, s'.cache.result);
  }

  lemma DatedNext(s: System, step: Step)
    requires Dated(s) && Enabled(s, step)
    ensures Dated(Next(s, step))
  {
    hide StoredDated;
    var s' := Next(s, step);
    if s'.log == s.log {
      assert s'.cache == s.cache && s'.source == s.source;
      if s.cache.expires.Some? { StoredSame(s, s'); }
    } else {
      var e := s'.log[|s.log|];
      assert s'.log == s.log + [e];
      ClearsAppend(s.log, e);
      forall i | 0 <= i < |s'.callers| && s'.callers[i].Probing? ensures Remembers(s', s'.callers[i]) {
        if step.Ask? && i == step.i {
          assert s'.log[..|s.log|] == s.log;
        } else {
          RemembersLonger(s, s', s.callers[i], e);
        }
      }
      if step.End? && s.callers[step.i].generation == s.cache.generation {
        StoredNow(s, s', s.callers[step.i]);
      } else if s'.cache.expires.Some? {
        StoredLonger(s, s', e);
      }
    }
  }

  lemma InvNext(s: System, step: Step)
    requires Inv(s)
    ensures Inv(Next(s, step))
  {
    if Enabled(s, step) {
      SingleFlightNext(s, step);
      ChannelsNext(s, step);
      DatedNext(s, step);
    }
  }

  lemma {:induction false} Invariant(s: System, steps: seq<Step>)
    requires Inv(s)
    ensures Inv(Run(s, steps))
    decreases |steps|
  {
    if steps != [] {
      InvNext(s, steps[0]);
      Invariant(Next(s, steps[0]), steps[1..]);
    }
  }
}
