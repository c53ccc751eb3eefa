/** The rate laws carried over from one store to the whole gateway. */
module GatewayRates {
  import opened Config
  import opened Limiter
  import R = RateLaws
  import L = Lifecycle
  import F = Failover
  import opened LifecycleLaws
  import opened LifecycleTheorems

  /** What a step does to the limit store. */
  function OpOf(s: L.System, step: L.Step): seq<R.Op> {
    if !L.Enabled(s, step) then []
    else
      match step
      case FirstTry(_, now) => [R.Admit(TriedScopes(s, step), now)]
      case Poll(_, now) => [R.Admit(TriedScopes(s, step), now)]
      case Drop(i) => [R.Release(L.Last(s.reqs[i]))]
      case Unwind(i) => [R.Release(L.Last(s.reqs[i]))]
      case ClearBuckets => [R.Clear]
      case _ => []
  }

  /** The calls that a run makes on the limit store. */
  function OpsOf(s: L.System, steps: seq<L.Step>): seq<R.Op> {
    if steps == [] then []
    else OpsOf(s, steps[..|steps| - 1]) + OpOf(L.Run(s, steps[..|steps| - 1]), steps[|steps| - 1])
  }

  /** The admissions granted in a run that list the key. */
  function GrantsOn(s: L.System, steps: seq<L.Step>, k: Key): nat {
    if steps == [] then 0
    else
      var before, step := L.Run(s, steps[..|steps| - 1]), steps[|steps| - 1];
      GrantsOn(s, steps[..|steps| - 1], k) + (if Grabs(before, step) && R.Lists(TriedScopes(before, step), k) then 1 else 0)
  }

  lemma {:induction false} RunAppend(st: Store, ops: seq<R.Op>, op: R.Op, k: Key)
    ensures R.Run(st, ops + [op]) == R.Step(R.Run(st, ops), op)
    ensures R.AdmittedOn(st, ops + [op], k) == R.AdmittedOn(st, ops, k) + (if R.Counts(R.Run(st, ops), op, k) then 1 else 0)
    decreases |ops|
  {
    if ops == [] {
      assert [op][1..] == [];
      assert [] + [op] == [op];
    } else {
      assert (ops + [op])[1..] == ops[1..] + [op];
      RunAppend(R.Step(st, ops[0]), ops[1..], op, k);
    }
  }

  lemma OpDoesTheStep(s: L.System, step: L.Step, k: Key)
    ensures L.Next(s, step).store == if OpOf(s, step) == [] then s.store else R.Step(s.store, OpOf(s, step)[0])
    ensures |OpOf(s, step)| <= 1
    ensures (Grabs(s, step) && R.Lists(TriedScopes(s, step), k)) <==> (OpOf(s, step) != [] && R.Counts(s.store, OpOf(s, step)[0], k))
  {
    hide L.ScopesAt, L.Moved, FirstRefusal, R.Lists, L.MetricsAfter, L.RoomAfter, L.ReqsAfter;
  }

  /** The store of a run is what its calls make of it, and its grants are theirs. */
  lemma {:induction false} StoreFollowsCalls(s: L.System, steps: seq<L.Step>, k: Key)
    ensures L.Run(s, steps).store == R.Run(s.store, OpsOf(s, steps))
    ensures GrantsOn(s, steps, k) == R.AdmittedOn(s.store, OpsOf(s, steps), k)
  {
    if steps != [] {
      var init, step := steps[..|steps| - 1], steps[|steps| - 1];
      var before := L.Run(s, init);
      StoreFollowsCalls(s, init, k);
      hide R.Run, R.AdmittedOn, R.Step, R.Counts, L.Next, OpOf, Grabs, R.Lists;
      OpDoesTheStep(before, step, k);
      var op := OpOf(before, step);
      if op == [] {
        assert OpsOf(s, steps) == OpsOf(s, init);
      } else {
        assert op == [op[0]];
        RunAppend(s.store, OpsOf(s, init), op[0], k);
      }
    }
  }

  /** Every configuration that a request arrived under had passed loading. */
  predicate AllSound(steps: seq<L.Step>) {
    forall j :: 0 <= j < |steps| && steps[j].Arrive? ==> SoundPlan(steps[j].plan)
  }

  lemma PlanStays(s: L.System, step: L.Step, i: nat)
    requires i < |L.Next(s, step).reqs|
    ensures if i < |s.reqs| then L.Next(s, step).reqs[i].plan == s.reqs[i].plan
            else step.Arrive? && L.Next(s, step).reqs[i].plan == step.plan
  {
    hide L.ScopesAt, Granted, L.StoreAfter, L.MetricsAfter, L.RoomAfter, F.Decide;
  }

  lemma {:induction false} SoundRun(max: int, steps: seq<L.Step>, i: nat)
    requires AllSound(steps) && i < |Reached(max, steps).reqs|
    ensures SoundPlan(Reached(max, steps).reqs[i].plan)
  {
    if steps != [] {
      var init, step := steps[..|steps| - 1], steps[|steps| - 1];
      hide L.Next, SoundPlan;
      PlanStays(Reached(max, init), step, i);
      if i < |Reached(max, init).reqs| {
        SoundRun(max, init, i);
      }
    }
  }

  lemma SoundOp(s: L.System, step: L.Step, k: Key)
    requires forall i :: 0 <= i < |s.reqs| ==> SoundPlan(s.reqs[i].plan)
    ensures R.AllHarmless(OpOf(s, step), k)
  {
    if Tries(s, step) {
      var r := s.reqs[step.i];
      forall j | 0 <= j < |L.ScopesAt(r.plan, r.phase.gate)|
        ensures L.ScopesAt(r.plan, r.phase.gate)[j].limits.requestsPerMinute >= 0.0
                && L.ScopesAt(r.plan, r.phase.gate)[j].limits.burst >= 0
      {
        SoundScopes(r.plan, r.phase.gate, j);
      }
      hide L.ScopesAt;
      assert R.Harmless(TriedScopes(s, step), k);
    }
  }

  lemma {:induction false} SoundHistory(max: int, steps: seq<L.Step>, k: Key)
    requires AllSound(steps)
    ensures R.AllHarmless(OpsOf(L.Initial(max), steps), k)
  {
    if steps != [] {
      var init, step := steps[..|steps| - 1], steps[|steps| - 1];
      SoundHistory(max, init, k);
      forall i | 0 <= i < |Reached(max, init).reqs| ensures SoundPlan(Reached(max, init).reqs[i].plan) {
        SoundRun(max, init, i);
      }
      hide OpOf, SoundPlan, L.Run, R.Harmless;
      SoundOp(Reached(max, init), step, k);
    }
  }

  /**
   The rate limit of a key holds for the gateway as a whole. After any history, with any reloads and any sound
   limits, and however many requests, polls, refusals and releases interleave from then on: if every request that
   tries the key, under the configuration it arrived with, finds it limited and no more generously than `l`, the
   admissions granted on it stay within one burst for the stretch and one for each reload in it, plus what the rate
   supplies. Requests that outlive a reload may try it under their old limits.
   */
  lemma RateHoldsForTheGateway(max: int, before: seq<L.Step>, steps: seq<L.Step>, k: Key, l: Limits, start: real, from: real, to: real)
    requires l.requestsPerMinute > 0.0 && l.burst >= 0
    requires AllSound(before) && R.Timely(OpsOf(L.Initial(max), before), start, from)
    requires R.AllWithin(OpsOf(Reached(max, before), steps), k, l) && R.Timely(OpsOf(Reached(max, before), steps), from, to)
    ensures GrantsOn(Reached(max, before), steps, k) as real
            <= (1 + R.Clears(OpsOf(Reached(max, before), steps))) as real * l.burst as real + Supply(l, to - from)
  {
    hide R.Timely, R.AllWithin, R.AdmittedOn, OpsOf, GrantsOn, R.Run, L.Run, R.Clears, AllSound, Reached, R.Settled, R.Capped, R.At;
    var s := Reached(max, before);
    ReachedSettles(max, before, k, start, from);
    StoreFollowsCalls(s, steps, k);
    R.WindowBound(s.store, OpsOf(s, steps), k, l, from, to);
  }

  lemma ReachedSettles(max: int, before: seq<L.Step>, k: Key, start: real, from: real)
    requires AllSound(before) && R.Timely(OpsOf(L.Initial(max), before), start, from)
    ensures R.Settled(Reached(max, before).store, k, from)
  {
    hide R.Timely, R.AllHarmless, OpsOf, GrantsOn, R.Run, L.Run, AllSound, R.AdmittedOn;
    StoreFollowsCalls(L.Initial(max), before, k);
    SoundHistory(max, before, k);
    R.HistorySettles(EMPTY, OpsOf(L.Initial(max), before), k, start, from);
  }
}
