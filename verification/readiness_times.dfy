/** How old a served readiness result can be, told by the steps of the run and their times alone. */
module ReadinessTimes {
  import opened Readiness
  import opened Wrappers
  import opened ReadinessLaws

  lemma {:induction false} RunSnoc(s: System, steps: seq<Step>, step: Step)
    ensures Run(s, steps + [step]) == Next(Run(s, steps), step)
    decreases |steps|
  {
    if steps == [] {
      assert [] + [step] == [step] && [step][1..] == [];
    } else {
      assert (steps + [step])[1..] == steps[1..] + [step];
      RunSnoc(Next(s, steps[0]), steps[1..], step);
    }
  }

  lemma ReachedLast(steps: seq<Step>)
    requires steps != []
    ensures Reached(steps) == Next(Reached(steps[..|steps| - 1]), steps[|steps| - 1])
  {
    assert steps == steps[..|steps| - 1] + [steps[|steps| - 1]];
    RunSnoc(IDLE, steps[..|steps| - 1], steps[|steps| - 1]);
  }

  /** With step `b` caller `p` begins to probe. */
  predicate Begins(steps: seq<Step>, b: nat, p: nat) {
    && b < |steps| && steps[b].Ask? && steps[b].i == p && Enabled(Reached(steps[..b]), steps[b])
    && p < |Reached(steps[..b + 1]).callers| && Reached(steps[..b + 1]).callers[p].Probing?
  }

  /** With step `e` the probe ends that began with step `b`. */
  predicate Ends(steps: seq<Step>, b: nat, e: nat) {
    b < e < |steps| && steps[e].End? && Enabled(Reached(steps[..e]), steps[e]) && Begins(steps, b, steps[e].i)
  }

  predicate NoClearAfter(steps: seq<Step>, b: nat) {
    forall k :: b < k < |steps| ==> !steps[k].Clear?
  }

  predicate IsProbing(s: System, p: nat) {
    p < |s.callers| && s.callers[p].Probing?
  }

  lemma BeginsLonger(steps: seq<Step>, b: nat, p: nat)
    requires steps != [] && b < |steps| - 1
    ensures Begins(steps, b, p) <==> Begins(steps[..|steps| - 1], b, p)
  {
    var init := steps[..|steps| - 1];
    assert steps[..b] == init[..b] && steps[..b + 1] == init[..b + 1];
  }

  lemma EndsLonger(steps: seq<Step>, b: nat, e: nat)
    requires steps != [] && e < |steps| - 1
    ensures Ends(steps, b, e) <==> Ends(steps[..|steps| - 1], b, e)
  {
    var init := steps[..|steps| - 1];
    if b < e && steps[e].End? {
      BeginsLonger(steps, b, steps[e].i);
      assert steps[..e] == init[..e];
    }
  }

  lemma NoClearLonger(steps: seq<Step>, b: nat)
    requires steps != [] && b < |steps| - 1
    ensures NoClearAfter(steps, b) <==> NoClearAfter(steps[..|steps| - 1], b) && !steps[|steps| - 1].Clear?
  {
    var init := steps[..|steps| - 1];
    assert forall k :: 0 <= k < |init| ==> steps[k] == init[k];
  }

  /** One step, seen from a caller: it begins to probe by asking, keeps probing, and ends with its own answer. */
  lemma CallerStep(s: System, step: Step, p: nat)
    ensures IsProbing(Next(s, step), p) && !IsProbing(s, p) ==>
              step.Ask? && step.i == p && Enabled(s, step) && Next(s, step).callers[p].generation == s.cache.generation
    ensures IsProbing(s, p) ==>
              p < |Next(s, step).callers|
              && (Next(s, step).callers[p] == s.callers[p] || (step.End? && step.i == p && Next(s, step).callers[p] == Answered(step.result)))
    ensures p < |s.callers| && s.callers[p].Answered? ==> p < |Next(s, step).callers| && Next(s, step).callers[p] == s.callers[p]
    ensures Next(s, step).cache.generation == s.cache.generation + (if step.Clear? then 1 else 0)
  {
  }

  /** A caller that began to probe is probing or has its answer, and while it probes its generation is current as long as no clear came. */
  lemma {:induction false} AfterBegin(steps: seq<Step>, b: nat, p: nat)
    requires Begins(steps, b, p)
    ensures p < |Reached(steps).callers| && (Reached(steps).callers[p].Probing? || Reached(steps).callers[p].Answered?)
    ensures IsProbing(Reached(steps), p) ==>
              Reached(steps).callers[p].generation <= Reached(steps).cache.generation
              && (Reached(steps).callers[p].generation == Reached(steps).cache.generation <==> NoClearAfter(steps, b))
    decreases |steps|
  {
    hide Reached, Next, Enabled;
    var n := |steps| - 1;
    var init := steps[..n];
    ReachedLast(steps);
    CallerStep(Reached(init), steps[n], p);
    if b < n {
      BeginsLonger(steps, b, p);
      NoClearLonger(steps, b);
      AfterBegin(init, b, p);
    } else {
      assert steps[..b] == init && steps[..b + 1] == steps;
      NotTwice(Reached(init), steps[n], p);
    }
  }

  lemma NotTwice(s: System, step: Step, p: nat)
    requires step.Ask? && step.i == p && Enabled(s, step)
    ensures !IsProbing(s, p)
  {
  }

  lemma {:induction false} ProbeBegan(steps: seq<Step>, p: nat) returns (b: nat)
    requires IsProbing(Reached(steps), p)
    ensures Begins(steps, b, p)
    decreases |steps|
  {
    if steps == [] {
      assert false;
    } else {
      hide Next, Enabled;
      var n := |steps| - 1;
      var init := steps[..n];
      ReachedLast(steps);
      hide Reached;
      CallerStep(Reached(init), steps[n], p);
      if IsProbing(Reached(init), p) {
        b := ProbeBegan(init, p);
        BeginsLonger(steps, b, p);
      } else {
        b := n;
        assert steps[..b] == init && steps[..b + 1] == steps;
      }
    }
  }

  /** One step, seen from the stored result. */
  lemma StoredStep(s: System, step: Step)
    ensures var stores := step.End? && Enabled(s, step) && s.callers[step.i].generation == s.cache.generation;
            var c, c' := s.cache, Next(s, step).cache;
            if stores then c'.result == step.result && c'.expires == Some(step.now + step.ttl)
            else if step.Clear? then c'.expires.None?
            else c'.result == c.result && c'.expires == c.expires
  {
  }

  lemma {:induction false} StoredSince(steps: seq<Step>) returns (b: nat, e: nat)
    requires Reached(steps).cache.expires.Some?
    ensures Ends(steps, b, e) && NoClearAfter(steps, b)
    ensures Reached(steps).cache.result == steps[e].result && Reached(steps).cache.expires == Some(steps[e].now + steps[e].ttl)
    decreases |steps|
  {
    if steps == [] {
      assert false;
    } else {
      var n := |steps| - 1;
      var init := steps[..n];
      ReachedLast(steps);
      StoredStep(Reached(init), steps[n]);
      hide Next, Reached;
      if steps[n].End? && Enabled(Reached(init), steps[n]) && Reached(init).callers[steps[n].i].generation == Reached(init).cache.generation {
        b := ProbeBegan(init, steps[n].i);
        AfterBegin(init, b, steps[n].i);
        BeginsLonger(steps, b, steps[n].i);
        NoClearLonger(steps, b);
        e := n;
      } else {
        b, e := StoredSince(init);
        EndsLonger(steps, b, e);
        NoClearLonger(steps, b);
      }
    }
  }

  /**
   How old a served result can be. Whoever is answered at `now` without probing gets the result of a probe of this run
   that ended less than its time to live before `now`, and no clear came after that probe began.
   */
  lemma AnswersAreYoung(steps: seq<Step>, i: nat, now: real)
    requires Enabled(Reached(steps), Ask(i, now)) && Next(Reached(steps), Ask(i, now)).callers[i].Answered?
    ensures exists b: nat, e: nat ::
              && Ends(steps, b, e) && NoClearAfter(steps, b)
              && Next(Reached(steps), Ask(i, now)).callers[i].result == steps[e].result
              && now < steps[e].now + steps[e].ttl
              && ((forall k :: 0 <= k < |steps| && (steps[k].Ask? || steps[k].End?) ==> steps[k].now <= now) ==> steps[e].now <= now)
  {
    var b, e := StoredSince(steps);
  }

  /** No probe ends after step `e`. */
  predicate LastEnd(steps: seq<Step>, e: nat) {
    forall k :: e < k < |steps| && steps[k].End? ==> !Enabled(Reached(steps[..k]), steps[k])
  }

  lemma LastEndShorter(steps: seq<Step>, e: nat)
    requires steps != [] && LastEnd(steps, e)
    ensures LastEnd(steps[..|steps| - 1], e)
    ensures e < |steps| - 1 && steps[|steps| - 1].End? ==> !Enabled(Reached(steps[..|steps| - 1]), steps[|steps| - 1])
  {
    var init := steps[..|steps| - 1];
    forall k | e < k < |init| && init[k].End? ensures !Enabled(Reached(init[..k]), init[k]) {
      assert init[..k] == steps[..k] && init[k] == steps[k];
    }
  }

  lemma {:induction false} StillStored(steps: seq<Step>, b: nat, e: nat)
    requires Ends(steps, b, e) && NoClearAfter(steps, b) && LastEnd(steps, e)
    ensures Reached(steps).cache.result == steps[e].result && Reached(steps).cache.expires == Some(steps[e].now + steps[e].ttl)
    decreases |steps|
  {
    var n := |steps| - 1;
    var init := steps[..n];
    ReachedLast(steps);
    StoredStep(Reached(init), steps[n]);
    NoClearLonger(steps, b);
    hide Next, Reached;
    if e < n {
      EndsLonger(steps, b, e);
      LastEndShorter(steps, e);
      StillStored(init, b, e);
    } else {
      assert steps[..e] == init;
      BeginsLonger(steps, b, steps[e].i);
      AfterBegin(init, b, steps[e].i);
      ProberProbes(Reached(init), steps[e]);
    }
  }

  lemma ProberProbes(s: System, step: Step)
    requires step.End? && Enabled(s, step)
    ensures IsProbing(s, step.i)
  {
  }

  /**
   And it is served for all that time: if the last probe to end is one that no clear has come after the beginning of,
   whoever asks before its result expires is answered with that result, and no probe begins.
   */
  lemma YoungResultsAreServed(steps: seq<Step>, b: nat, e: nat, i: nat, now: real)
    requires Ends(steps, b, e) && NoClearAfter(steps, b) && LastEnd(steps, e)
    requires Enabled(Reached(steps), Ask(i, now)) && now < steps[e].now + steps[e].ttl
    ensures var s, s' := Reached(steps), Next(Reached(steps), Ask(i, now));
            s'.callers[i] == Answered(steps[e].result) && s'.cache == s.cache && s'.closes == s.closes
  {
    StillStored(steps, b, e);
  }

  /** Where no such result is there, an asker joins the running probe, or begins one if none runs. */
  lemma OthersWaitOrProbe(steps: seq<Step>, i: nat, now: real)
    requires Enabled(Reached(steps), Ask(i, now)) && !Next(Reached(steps), Ask(i, now)).callers[i].Answered?
    ensures var s, s' := Reached(steps), Next(Reached(steps), Ask(i, now));
            if exists p :: 0 <= p < |s.callers| && s.callers[p].Probing? then
              s'.callers[i].Waiting? && exists p :: 0 <= p < |s.callers| && s.callers[p].Probing? && s'.callers[i].channel == s.callers[p].channel
            else s'.callers[i].Probing?
  {
    ReachedInv(steps);
  }

  /** A waiter goes on only once the probe it waits for is over. */
  lemma WaitersWaitForTheEnd(steps: seq<Step>, i: nat, p: nat)
    requires Enabled(Reached(steps), Wake(i)) && IsProbing(Reached(steps), p)
    ensures Reached(steps).callers[p].channel != Reached(steps).callers[i].channel
  {
    ReachedInv(steps);
  }

  /** The prober itself gets what its probe found, even when a clear has made that stale. */
  lemma ProbersGetTheirOwn(steps: seq<Step>, b: nat, e: nat)
    requires Ends(steps, b, e)
    ensures steps[e].i < |Reached(steps[..e + 1]).callers| && Reached(steps[..e + 1]).callers[steps[e].i] == Answered(steps[e].result)
  {
    ReachedLast(steps[..e + 1]);
    assert steps[..e + 1][..e] == steps[..e] && steps[..e + 1][e] == steps[e];
    hide Reached;
  }
}
