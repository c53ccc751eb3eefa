/** Laws of the token buckets over whole sequences of calls on one store. */
module RateLaws {
  import opened Config
  import opened Limiter

  /** One critical section of the store. */
  datatype Op = Admit(scopes: seq<Scope>, now: real) | Release(scopes: seq<Scope>) | Clear

  function Step(st: Store, op: Op): Store {
    match op
    case Admit(scopes, now) => Admitted(st, scopes, now)
    case Release(scopes) => Released(st, scopes)
    case Clear => Cleared(st)
  }

  function Run(st: Store, ops: seq<Op>): Store
    decreases |ops|
  {
    if ops == [] then st else Run(Step(st, ops[0]), ops[1..])
  }

  /** The answers given to the admission attempts, in order. */
  function Decisions(st: Store, ops: seq<Op>): seq<bool>
    decreases |ops|
  {
    if ops == [] then []
    else (if ops[0].Admit? then [Granted(st, ops[0].scopes, ops[0].now)] else []) + Decisions(Step(st, ops[0]), ops[1..])
  }

  /** The clock never runs backwards, starting at `from` and staying below `to`. */
  predicate Timely(ops: seq<Op>, from: real, to: real) {
    if ops == [] then from <= to
    else if ops[0].Admit? then from <= ops[0].now && Timely(ops[1..], ops[0].now, to)
    else Timely(ops[1..], from, to)
  }

  /** Every scope carries the limits that `lim` fixes for its key. */
  ghost predicate Uniform(scopes: seq<Scope>, lim: Key -> Limits) {
    forall j :: 0 <= j < |scopes| ==> scopes[j].limits == lim(scopes[j].key)
  }

  ghost predicate AllUniform(ops: seq<Op>, lim: Key -> Limits) {
    forall j :: 0 <= j < |ops| && ops[j].Admit? ==> Uniform(ops[j].scopes, lim)
  }

  predicate Lists(scopes: seq<Scope>, k: Key) {
    exists j :: 0 <= j < |scopes| && scopes[j].key == k
  }

  function At(st: Store, k: Key, l: Limits, now: real): Bucket {
    Current(st.buckets, Scope(k, l), now)
  }

  lemma SupplyAdds(l: Limits, a: real, b: real, c: real)
    ensures Supply(l, c - a) == Supply(l, b - a) + Supply(l, c - b)
  {
  }

  lemma SupplyGrows(l: Limits, d: real)
    requires l.requestsPerMinute >= 0.0 && d >= 0.0
    ensures Supply(l, d) >= 0.0
  {
  }

  lemma SupplyOfNothing(l: Limits)
    ensures Supply(l, 0.0) == 0.0
  {
  }

  /** Refilling in two steps is refilling once: nothing depends on when a bucket is looked at. */
  lemma RefillComposes(b: Bucket, l: Limits, t: real, t': real)
    requires l.requestsPerMinute >= 0.0 && t <= t'
    ensures Refill(Refill(b, l, t), l, t') == Refill(b, l, t')
  {
    SupplyAdds(l, b.updated, t, t');
    SupplyGrows(l, t' - t);
  }

  lemma AtComposes(st: Store, k: Key, l: Limits, t: real, t': real)
    requires l.requestsPerMinute >= 0.0 && t <= t'
    ensures At(st, k, l, t') == Refill(At(st, k, l, t), l, t')
  {
    if k in st.buckets {
      RefillComposes(st.buckets[k], l, t, t');
    } else {
      SupplyGrows(l, t' - t);
    }
  }

  // ---------------------------------------------------------------------------------------------
  // What an admission decides and what it charges
  // ---------------------------------------------------------------------------------------------

  lemma GrantedIffNoneRefuses(st: Store, scopes: seq<Scope>, now: real)
    ensures Granted(st, scopes, now) <==> forall j :: 0 <= j < |scopes| ==> !Refuses(st, scopes[j], now)
  {
    var i := FirstRefusal(st, scopes, now);
    if i < |scopes| {
      assert Refuses(st, scopes[i], now);
    }
  }

  /**
   All or nothing: an admission is granted exactly when for every scope a positive concurrency limit exceeds the slots
   in use, and a positive rate finds a whole token: the burst has room for one, and a bucket seen before has one left
   or has earned it since.
   */
  lemma GrantedIff(st: Store, scopes: seq<Scope>, now: real)
    ensures Granted(st, scopes, now) <==>
            forall j :: 0 <= j < |scopes| ==>
              var s := scopes[j];
              && (s.limits.maxConcurrent > 0 ==> (if s.key in st.concurrent then st.concurrent[s.key] else 0) < s.limits.maxConcurrent)
              && (s.limits.requestsPerMinute > 0.0 ==>
                    && s.limits.burst >= 1
                    && (s.key in st.buckets ==>
                          st.buckets[s.key].tokens + (now - st.buckets[s.key].updated) * s.limits.requestsPerMinute >= 1.0))
  {
    GrantedIffNoneRefuses(st, scopes, now);
    forall j | 0 <= j < |scopes|
      ensures !Refuses(st, scopes[j], now) <==>
              var s := scopes[j];
              && (s.limits.maxConcurrent > 0 ==> (if s.key in st.concurrent then st.concurrent[s.key] else 0) < s.limits.maxConcurrent)
              && (s.limits.requestsPerMinute > 0.0 ==>
                    && s.limits.burst >= 1
                    && (s.key in st.buckets ==>
                          st.buckets[s.key].tokens + (now - st.buckets[s.key].updated) * s.limits.requestsPerMinute >= 1.0))
    {
      AgreesIff(st, scopes[j], now);
    }
  }

  lemma AgreesIff(st: Store, s: Scope, now: real)
    ensures !Refuses(st, s, now) <==>
            && (s.limits.maxConcurrent > 0 ==> (if s.key in st.concurrent then st.concurrent[s.key] else 0) < s.limits.maxConcurrent)
            && (s.limits.requestsPerMinute > 0.0 ==>
                  && s.limits.burst >= 1
                  && (s.key in st.buckets ==>
                        st.buckets[s.key].tokens + (now - st.buckets[s.key].updated) * s.limits.requestsPerMinute >= 1.0))
  {
    if s.key in st.buckets {
      var b := st.buckets[s.key];
      assert Supply(s.limits, now - b.updated) == (now - b.updated) * s.limits.requestsPerMinute;
    }
  }

  /** Wherever the scopes mention `k`, they give it the limits `l`. */
  predicate Fixes(scopes: seq<Scope>, k: Key, l: Limits) {
    forall j :: 0 <= j < |scopes| && scopes[j].key == k ==> scopes[j].limits == l
  }

  lemma StatesAt(b: map<Key, Bucket>, scopes: seq<Scope>, now: real, k: Key, l: Limits)
    requires Fixes(scopes, k, l) && k in States(b, scopes, now)
    ensures States(b, scopes, now)[k] == Current(b, Scope(k, l), now)
  {
    var n := |scopes| - 1;
    if Rated(scopes[n]) && scopes[n].key == k {
    } else {
      StatesAt(b, scopes[..n], now, k, l);
    }
  }

  lemma ChargeAt(b: map<Key, Bucket>, states: map<Key, Bucket>, scopes: seq<Scope>, k: Key)
    ensures k in Charge(b, states, scopes) <==> k in b || (k in states && exists j :: 0 <= j < |scopes| && scopes[j].key == k && Rated(scopes[j]))
    ensures (k in states && exists j :: 0 <= j < |scopes| && scopes[j].key == k && Rated(scopes[j])) ==>
              Charge(b, states, scopes)[k] == states[k].(tokens := states[k].tokens - 1.0)
    ensures (k in b && !(k in states && exists j :: 0 <= j < |scopes| && scopes[j].key == k && Rated(scopes[j]))) ==>
              Charge(b, states, scopes)[k] == b[k]
  {
    if scopes != [] {
      var n := |scopes| - 1;
      ChargeAt(b, states, scopes[..n], k);
      assert scopes == scopes[..n] + [scopes[n]];
    }
  }

  /** A granted call takes exactly one token from every rate-limited key it lists and touches no other bucket. */
  lemma GrantCharges(st: Store, scopes: seq<Scope>, now: real, k: Key, l: Limits)
    requires Granted(st, scopes, now) && Fixes(scopes, k, l)
    ensures var after := Admitted(st, scopes, now);
            if Lists(scopes, k) && l.requestsPerMinute > 0.0 then
              k in after.buckets
              && after.buckets[k] == At(st, k, l, now).(tokens := At(st, k, l, now).tokens - 1.0)
              && At(st, k, l, now).tokens >= 1.0
            else (k in after.buckets <==> k in st.buckets) && (k in st.buckets ==> after.buckets[k] == st.buckets[k])
  {
    var states := States(st.buckets, scopes, now);
    ChargeAt(st.buckets, states, scopes, k);
    StatesKeys(st.buckets, scopes, now, k);
    GrantedIffNoneRefuses(st, scopes, now);
    if k in states {
      StatesAt(st.buckets, scopes, now, k, l);
      var j :| 0 <= j < |scopes| && scopes[j].key == k && Rated(scopes[j]);
      assert !Refuses(st, scopes[j], now);
      assert scopes[j] == Scope(k, l);
    } else if Lists(scopes, k) {
      var j :| 0 <= j < |scopes| && scopes[j].key == k;
      assert scopes[j].limits == l;
    }
  }

  // ---------------------------------------------------------------------------------------------
  // Refused admissions are invisible
  // ---------------------------------------------------------------------------------------------

  /** Two stores no later call can tell apart while each key keeps its limits. */
  ghost predicate Alike(a: Store, b: Store, lim: Key -> Limits, t: real) {
    && a.concurrent == b.concurrent
    && forall k :: lim(k).requestsPerMinute > 0.0 ==> At(a, k, lim(k), t) == At(b, k, lim(k), t)
  }

  lemma AlikeLater(a: Store, b: Store, lim: Key -> Limits, t: real, t': real)
    requires Alike(a, b, lim, t) && t <= t'
    ensures Alike(a, b, lim, t')
  {
    forall k | lim(k).requestsPerMinute > 0.0 ensures At(a, k, lim(k), t') == At(b, k, lim(k), t') {
      AtComposes(a, k, lim(k), t, t');
      AtComposes(b, k, lim(k), t, t');
    }
  }

  lemma SameFirstRefusal(a: Store, b: Store, scopes: seq<Scope>, now: real, lim: Key -> Limits)
    requires Alike(a, b, lim, now) && Uniform(scopes, lim)
    ensures FirstRefusal(a, scopes, now) == FirstRefusal(b, scopes, now)
  {
    forall j | 0 <= j < |scopes| ensures Refuses(a, scopes[j], now) == Refuses(b, scopes[j], now) {
      var k := scopes[j].key;
      assert scopes[j] == Scope(k, lim(k));
    }
    FirstRefusalIs(a, scopes, now, FirstRefusal(b, scopes, now));
  }

  /** A refused call leaves a store alike to the one it found: only a refill was written down early. */
  lemma RefusalLeavesAlike(st: Store, scopes: seq<Scope>, now: real, lim: Key -> Limits)
    requires !Granted(st, scopes, now) && Uniform(scopes, lim)
    ensures Alike(Admitted(st, scopes, now), st, lim, now)
  {
    var after := Admitted(st, scopes, now);
    forall k | lim(k).requestsPerMinute > 0.0 ensures At(after, k, lim(k), now) == At(st, k, lim(k), now) {
      var s := scopes[FirstRefusal(st, scopes, now)];
      assert s == Scope(s.key, lim(s.key));
      if k == s.key {
        AtComposes(st, k, lim(k), now, now);
      }
    }
  }

  lemma AlikeStep(a: Store, b: Store, lim: Key -> Limits, t: real, op: Op)
    requires Alike(a, b, lim, t)
    requires op.Admit? ==> Uniform(op.scopes, lim) && t <= op.now
    ensures op.Admit? ==> Granted(a, op.scopes, op.now) == Granted(b, op.scopes, op.now)
    ensures Alike(Step(a, op), Step(b, op), lim, if op.Admit? then op.now else t)
  {
    if op.Admit? {
      var now := op.now;
      AlikeLater(a, b, lim, t, now);
      SameFirstRefusal(a, b, op.scopes, now, lim);
      if Granted(a, op.scopes, now) {
        var a', b' := Step(a, op), Step(b, op);
        forall k | lim(k).requestsPerMinute > 0.0 ensures At(a', k, lim(k), now) == At(b', k, lim(k), now) {
          GrantCharges(a, op.scopes, now, k, lim(k));
          GrantCharges(b, op.scopes, now, k, lim(k));
        }
      } else {
        RefusalLeavesAlike(a, op.scopes, now, lim);
        RefusalLeavesAlike(b, op.scopes, now, lim);
      }
    }
  }

  lemma {:induction false} AlikeDecideAlike(a: Store, b: Store, lim: Key -> Limits, t: real, to: real, ops: seq<Op>)
    requires Alike(a, b, lim, t) && AllUniform(ops, lim) && Timely(ops, t, to)
    ensures Decisions(a, ops) == Decisions(b, ops)
    ensures Run(a, ops).concurrent == Run(b, ops).concurrent
    decreases |ops|
  {
    if ops != [] {
      AlikeStep(a, b, lim, t, ops[0]);
      AlikeDecideAlike(Step(a, ops[0]), Step(b, ops[0]), lim, if ops[0].Admit? then ops[0].now else t, to, ops[1..]);
    }
  }

  /**
   With fixed limits, every later sequence of calls is answered as if the refused call had never been
   made, although the refusal wrote one bucket back and dropped the refills of the scopes before it.
   */
  lemma RefusalsAreInvisible(st: Store, scopes: seq<Scope>, now: real, lim: Key -> Limits, later: seq<Op>, to: real)
    requires !Granted(st, scopes, now) && Uniform(scopes, lim)
    requires AllUniform(later, lim) && Timely(later, now, to)
    ensures Decisions(Admitted(st, scopes, now), later) == Decisions(st, later)
    ensures Run(Admitted(st, scopes, now), later).concurrent == Run(st, later).concurrent
  {
    RefusalLeavesAlike(st, scopes, now, lim);
    AlikeDecideAlike(Admitted(st, scopes, now), st, lim, now, to, later);
  }

  /** The refusing scope is full, or its bucket was already brought up to date at this very instant. */
  predicate Untouching(st: Store, scopes: seq<Scope>, now: real)
    requires !Granted(st, scopes, now)
  {
    var s := scopes[FirstRefusal(st, scopes, now)];
    Full(st, s) || (s.key in st.buckets && st.buckets[s.key].updated == now && st.buckets[s.key].tokens <= s.limits.burst as real)
  }

  /**
   When limits may change afterwards (a request that outlives a reload still carries its old ones), a
   refusal stays invisible exactly when it wrote nothing new. Otherwise one later call can see it.
   */
  lemma RefusalInvisibleUnderAnyLimitsIff(st: Store, scopes: seq<Scope>, now: real)
    requires !Granted(st, scopes, now)
    requires forall k :: k in st.buckets ==> st.buckets[k].updated <= now
    ensures Untouching(st, scopes, now) <==>
            forall s: Scope, t: real :: t >= now && s.limits.requestsPerMinute >= 0.0 ==>
              Granted(Admitted(st, scopes, now), [s], t) == Granted(st, [s], t)
  {
    var after := Admitted(st, scopes, now);
    if Untouching(st, scopes, now) {
      var s := scopes[FirstRefusal(st, scopes, now)];
      if !Full(st, s) {
        RefillNow(st.buckets[s.key], s.limits, now);
      }
      assert after == st;
    } else {
      var s, t := Revealing(st, scopes, now);
    }
  }

  lemma RefillNow(b: Bucket, l: Limits, now: real)
    requires b.updated == now
    ensures Refill(b, l, now) == Bucket(Least(b.tokens, l.burst as real), now)
  {
    SupplyOfNothing(l);
    assert now - b.updated == 0.0;
  }

  lemma SingleGrant(st: Store, k: Key, rate: real, t: real)
    requires rate > 0.0
    ensures Granted(st, [Scope(k, Limits(rate, 1, 0))], t) <==>
            (k !in st.buckets || st.buckets[k].tokens + (t - st.buckets[k].updated) * rate >= 1.0)
  {
    var s := Scope(k, Limits(rate, 1, 0));
    assert [s][1..] == [];
    assert Granted(st, [s], t) <==> !Starved(st, s, t);
    if k in st.buckets {
      var b := st.buckets[k];
      assert Supply(s.limits, t - b.updated) == (t - b.updated) * rate;
      assert Current(st.buckets, s, t) == Bucket(Least(b.tokens + Supply(s.limits, t - b.updated), 1 as real), t);
    }
  }

  lemma EnoughRate(tokens: real, gap: real) returns (rate: real)
    requires gap > 0.0
    ensures rate > 0.0 && tokens + gap * rate >= 1.0
  {
    if tokens >= 1.0 {
      rate := 1.0;
    } else {
      var missing := 1.0 - tokens;
      rate := missing / gap;
      assert gap * rate == missing;
    }
  }

  /** The call that gives a visible refusal away. */
  lemma Revealing(st: Store, scopes: seq<Scope>, now: real) returns (s: Scope, t: real)
    requires !Granted(st, scopes, now) && !Untouching(st, scopes, now)
    requires forall k :: k in st.buckets ==> st.buckets[k].updated <= now
    ensures t >= now && s.limits.requestsPerMinute >= 0.0
    ensures Granted(Admitted(st, scopes, now), [s], t) != Granted(st, [s], t)
  {
    var k := scopes[FirstRefusal(st, scopes, now)].key;
    var left := Admitted(st, scopes, now).buckets[k];
    assert left.tokens < 1.0 && left.updated == now;
    var rate;
    if k !in st.buckets {
      rate, t := 1.0, now;
    } else {
      var b := st.buckets[k];
      if b.updated < now {
        t := now;
        rate := EnoughRate(b.tokens, now - b.updated);
      } else {
        RefillNow(b, scopes[FirstRefusal(st, scopes, now)].limits, now);
        t := now + 1.0;
        rate := if b.tokens < 1.0 then 1.0 - b.tokens else (1.0 - left.tokens) / 2.0;
        assert (t - now) * rate == rate;
      }
    }
    s := Scope(k, Limits(rate, 1, 0));
    SingleGrant(st, k, rate, t);
    SingleGrant(Admitted(st, scopes, now), k, rate, t);
    assert t == now ==> (t - left.updated) * rate == 0.0;
  }

  // ---------------------------------------------------------------------------------------------
  // How many requests a window can admit
  // ---------------------------------------------------------------------------------------------

  /** The granted admissions that list the key. */
  function AdmittedOn(st: Store, ops: seq<Op>, k: Key): nat
    decreases |ops|
  {
    if ops == [] then 0
    else (if Counts(st, ops[0], k) then 1 else 0) + AdmittedOn(Step(st, ops[0]), ops[1..], k)
  }

  predicate Counts(st: Store, op: Op, k: Key) {
    op.Admit? && Lists(op.scopes, k) && Granted(st, op.scopes, op.now)
  }

  function Clears(ops: seq<Op>): nat {
    if ops == [] then 0 else (if ops[0].Clear? then 1 else 0) + Clears(ops[1..])
  }

  predicate AllFix(ops: seq<Op>, k: Key, l: Limits) {
    forall j :: 0 <= j < |ops| && ops[j].Admit? ==> Fixes(ops[j].scopes, k, l)
  }

  /** Wherever the scopes mention `k`, they limit its rate, and no more generously than `l`. */
  predicate Within(scopes: seq<Scope>, k: Key, l: Limits) {
    forall j :: 0 <= j < |scopes| && scopes[j].key == k ==>
      0.0 < scopes[j].limits.requestsPerMinute <= l.requestsPerMinute && 0 <= scopes[j].limits.burst <= l.burst
  }

  predicate AllWithin(ops: seq<Op>, k: Key, l: Limits) {
    forall j :: 0 <= j < |ops| && ops[j].Admit? ==> Within(ops[j].scopes, k, l)
  }

  /** Fixed limits are a case of it. */
  lemma FixedIsWithin(ops: seq<Op>, k: Key, l: Limits)
    requires AllFix(ops, k, l) && l.requestsPerMinute > 0.0 && l.burst >= 0
    ensures AllWithin(ops, k, l)
  {
  }

  /** The bucket of `k`, if there is one, owes nothing and was touched in the past. */
  predicate Settled(st: Store, k: Key, t: real) {
    k in st.buckets ==> 0.0 <= st.buckets[k].tokens && st.buckets[k].updated <= t
  }

  /** The bucket of `k`, if there is one, holds no more than the burst. Older limits may have left it fuller. */
  predicate Capped(st: Store, k: Key, l: Limits) {
    k in st.buckets ==> st.buckets[k].tokens <= l.burst as real
  }

  lemma AtLater(st: Store, k: Key, l: Limits, t: real, t': real)
    requires l.requestsPerMinute >= 0.0 && t <= t'
    ensures At(st, k, l, t').tokens == Least(At(st, k, l, t).tokens + Supply(l, t' - t), l.burst as real)
    ensures At(st, k, l, t').tokens <= l.burst as real
  {
    AtComposes(st, k, l, t, t');
    assert At(st, k, l, t).updated == t;
  }

  lemma AtBounded(st: Store, k: Key, l: Limits, t: real)
    requires Settled(st, k, t) && l.requestsPerMinute >= 0.0 && l.burst >= 0
    ensures 0.0 <= At(st, k, l, t).tokens <= l.burst as real
  {
    if k in st.buckets {
      SupplyGrows(l, t - st.buckets[k].updated);
      assert At(st, k, l, t).tokens == Least(st.buckets[k].tokens + Supply(l, t - st.buckets[k].updated), l.burst as real);
    }
  }

  function TimeOf(op: Op, t: real): real {
    if op.Admit? then op.now else t
  }

  /** One step pays for an admission out of the tokens on hand; only a clear can put more there at once. */
  lemma StepPays(st: Store, op: Op, k: Key, l: Limits, t: real)
    requires Settled(st, k, t) && l.requestsPerMinute > 0.0 && l.burst >= 0
    requires op.Admit? ==> t <= op.now && Within(op.scopes, k, l)
    ensures Settled(Step(st, op), k, TimeOf(op, t))
    ensures Capped(st, k, l) ==> Capped(Step(st, op), k, l)
    ensures (if Counts(st, op, k) then 1.0 else 0.0) + At(Step(st, op), k, l, TimeOf(op, t)).tokens
            <= At(st, k, l, t).tokens + Supply(l, TimeOf(op, t) - t) + (if op.Clear? then l.burst as real else 0.0)
  {
    AtBounded(st, k, l, t);
    SupplyOfNothing(l);
    if op.Admit? {
      AdmitPays(st, op.scopes, op.now, k, l);
      AtBounded(st, k, l, op.now);
      AtLater(st, k, l, t, op.now);
    }
  }

  lemma SupplyOfFaster(l: Limits, m: Limits, d: real)
    requires l.requestsPerMinute <= m.requestsPerMinute && d >= 0.0
    ensures Supply(l, d) <= Supply(m, d)
  {
    assert d * (m.requestsPerMinute - l.requestsPerMinute) >= 0.0;
  }

  /** A scope with tighter limits sees no more tokens. */
  lemma TighterSeesLess(st: Store, s: Scope, l: Limits, now: real)
    requires Settled(st, s.key, now)
    requires s.limits.requestsPerMinute <= l.requestsPerMinute && s.limits.burst <= l.burst
    ensures Current(st.buckets, s, now).tokens <= At(st, s.key, l, now).tokens
    ensures Current(st.buckets, s, now).tokens <= l.burst as real
  {
    if s.key in st.buckets {
      SupplyOfFaster(s.limits, l, now - st.buckets[s.key].updated);
    }
  }

  /** What a stored bucket of the present shows. */
  lemma AtStored(st: Store, k: Key, l: Limits, now: real)
    requires k in st.buckets && st.buckets[k].updated == now
    ensures At(st, k, l, now).tokens <= st.buckets[k].tokens
  {
    RefillNow(st.buckets[k], l, now);
  }

  lemma AdmitPays(st: Store, scopes: seq<Scope>, now: real, k: Key, l: Limits)
    requires Settled(st, k, now) && l.requestsPerMinute > 0.0 && l.burst >= 0
    requires Within(scopes, k, l)
    ensures Settled(Admitted(st, scopes, now), k, now)
    ensures Capped(st, k, l) ==> Capped(Admitted(st, scopes, now), k, l)
    ensures At(Admitted(st, scopes, now), k, l, now).tokens
            <= At(st, k, l, now).tokens - (if Granted(st, scopes, now) && Lists(scopes, k) then 1.0 else 0.0)
  {
    AdmitSettles(st, scopes, now, k);
    if Granted(st, scopes, now) {
      GrantPays(st, scopes, now, k, l);
    } else {
      var s := scopes[FirstRefusal(st, scopes, now)];
      if k == s.key {
        TighterSeesLess(st, s, l, now);
        if !Full(st, s) {
          AtStored(Admitted(st, scopes, now), k, l, now);
        }
      }
    }
  }

  lemma GrantPays(st: Store, scopes: seq<Scope>, now: real, k: Key, l: Limits)
    requires Granted(st, scopes, now) && Settled(st, k, now) && Within(scopes, k, l)
    ensures Capped(st, k, l) ==> Capped(Admitted(st, scopes, now), k, l)
    ensures At(Admitted(st, scopes, now), k, l, now).tokens
            <= At(st, k, l, now).tokens - (if Lists(scopes, k) then 1.0 else 0.0)
  {
    var after, states := Admitted(st, scopes, now), States(st.buckets, scopes, now);
    ChargeAt(st.buckets, states, scopes, k);
    StatesKeys(st.buckets, scopes, now, k);
    hide States, Charge, FirstRefusal;
    if Lists(scopes, k) {
      var i :| 0 <= i < |scopes| && scopes[i].key == k;
      assert Rated(scopes[i]);
      var j := StateSource(st.buckets, scopes, now, k);
      TighterSeesLess(st, scopes[j], l, now);
      AtStored(after, k, l, now);
    }
  }

  /** The bursts that the clears hand out. */
  function Bursts(ops: seq<Op>, l: Limits): real {
    if ops == [] then 0.0 else (if ops[0].Clear? then l.burst as real else 0.0) + Bursts(ops[1..], l)
  }

  lemma {:induction false} BurstsAre(ops: seq<Op>, l: Limits)
    ensures l.burst as real + Bursts(ops, l) == (1 + Clears(ops)) as real * l.burst as real
  {
    if ops != [] {
      BurstsAre(ops[1..], l);
      var c, b := (1 + Clears(ops[1..])) as real, l.burst as real;
      assert (c + 1.0) * b == c * b + b;
    }
  }

  /**
   The window bound. Whatever limits the key had before, and however its limits change within the window, as long as
   they limit its rate and none is more generous than `l`, it admits at most one burst of `l` plus what its rate
   supplies, and every clear in the window adds at most one more burst. What the key can spend never leaves
   [0, burst], nor does its stored bucket once it is inside.
   */
  lemma WindowBound(st: Store, ops: seq<Op>, k: Key, l: Limits, from: real, to: real)
    requires Settled(st, k, from) && l.requestsPerMinute > 0.0 && l.burst >= 0
    requires AllWithin(ops, k, l) && Timely(ops, from, to)
    ensures Settled(Run(st, ops), k, to) && 0.0 <= At(Run(st, ops), k, l, to).tokens <= l.burst as real
    ensures Capped(st, k, l) ==> Capped(Run(st, ops), k, l)
    ensures AdmittedOn(st, ops, k) as real
            <= (1 + Clears(ops)) as real * l.burst as real + Supply(l, to - from)
  {
    SpentWithinSupply(st, ops, k, l, from, to);
    AtBounded(st, k, l, from);
    AtBounded(Run(st, ops), k, l, to);
    BurstsAre(ops, l);
  }

  lemma {:induction false} SpentWithinSupply(st: Store, ops: seq<Op>, k: Key, l: Limits, from: real, to: real)
    requires Settled(st, k, from) && l.requestsPerMinute > 0.0 && l.burst >= 0
    requires AllWithin(ops, k, l) && Timely(ops, from, to)
    ensures Settled(Run(st, ops), k, to)
    ensures Capped(st, k, l) ==> Capped(Run(st, ops), k, l)
    ensures AdmittedOn(st, ops, k) as real + At(Run(st, ops), k, l, to).tokens
            <= At(st, k, l, from).tokens + Bursts(ops, l) + Supply(l, to - from)
    decreases |ops|
  {
    if ops == [] {
      AtLater(st, k, l, from, to);
    } else {
      var mid := TimeOf(ops[0], from);
      StepPays(st, ops[0], k, l, from);
      SpentWithinSupply(Step(st, ops[0]), ops[1..], k, l, mid, to);
      SupplyAdds(l, from, mid, to);
    }
  }

  // ---------------------------------------------------------------------------------------------
  // A history under any limits
  // ---------------------------------------------------------------------------------------------

  /** Wherever the scopes mention `k`, its rate and burst are not negative. */
  predicate Harmless(scopes: seq<Scope>, k: Key) {
    forall j :: 0 <= j < |scopes| && scopes[j].key == k ==> scopes[j].limits.requestsPerMinute >= 0.0 && scopes[j].limits.burst >= 0
  }

  predicate AllHarmless(ops: seq<Op>, k: Key) {
    forall j :: 0 <= j < |ops| && ops[j].Admit? ==> Harmless(ops[j].scopes, k)
  }

  /** The state kept for a key is that of one of its scopes. */
  lemma {:induction false} StateSource(b: map<Key, Bucket>, scopes: seq<Scope>, now: real, k: Key) returns (j: nat)
    requires k in States(b, scopes, now)
    ensures j < |scopes| && scopes[j].key == k && Rated(scopes[j]) && States(b, scopes, now)[k] == Current(b, scopes[j], now)
  {
    var n := |scopes| - 1;
    if Rated(scopes[n]) && scopes[n].key == k {
      j := n;
    } else {
      j := StateSource(b, scopes[..n], now, k);
    }
  }

  lemma CurrentOwesNothing(st: Store, s: Scope, now: real)
    requires Settled(st, s.key, now) && s.limits.requestsPerMinute >= 0.0 && s.limits.burst >= 0
    ensures 0.0 <= Current(st.buckets, s, now).tokens && Current(st.buckets, s, now).updated == now
  {
    assert s == Scope(s.key, s.limits);
    AtBounded(st, s.key, s.limits, now);
  }

  lemma AdmitSettles(st: Store, scopes: seq<Scope>, now: real, k: Key)
    requires Settled(st, k, now) && Harmless(scopes, k)
    ensures Settled(Admitted(st, scopes, now), k, now)
  {
    if Granted(st, scopes, now) {
      var states := States(st.buckets, scopes, now);
      ChargeAt(st.buckets, states, scopes, k);
      GrantedIffNoneRefuses(st, scopes, now);
      if k in states {
        var j := StateSource(st.buckets, scopes, now, k);
        CurrentOwesNothing(st, scopes[j], now);
        assert !Refuses(st, scopes[j], now);
      }
    } else {
      var s := scopes[FirstRefusal(st, scopes, now)];
      if k == s.key {
        CurrentOwesNothing(st, s, now);
      }
    }
  }

  /** Whatever limits a key goes through, its bucket never owes anything and never lies in the future. */
  lemma {:induction false} HistorySettles(st: Store, ops: seq<Op>, k: Key, from: real, to: real)
    requires Settled(st, k, from) && AllHarmless(ops, k) && Timely(ops, from, to)
    ensures Settled(Run(st, ops), k, to)
    decreases |ops|
  {
    if ops != [] {
      var mid := TimeOf(ops[0], from);
      if ops[0].Admit? {
        AdmitSettles(st, ops[0].scopes, mid, k);
      }
      HistorySettles(Step(st, ops[0]), ops[1..], k, mid, to);
    }
  }

  /** `n` calls for one key at one instant. */
  function Volley(n: nat, k: Key, l: Limits, t: real): seq<Op> {
    if n == 0 then [] else [Admit([Scope(k, l)], t)] + Volley(n - 1, k, l, t)
  }

  /** A full volley, then `c` times a clear and another full volley. */
  function Volleys(c: nat, k: Key, l: Limits, t: real): seq<Op>
    requires l.burst >= 0
  {
    Volley(l.burst, k, l, t) + (if c == 0 then [] else [Clear] + Volleys(c - 1, k, l, t))
  }

  lemma OneIsGranted(st: Store, k: Key, l: Limits, t: real)
    requires l.requestsPerMinute > 0.0 && l.maxConcurrent <= 0 && At(st, k, l, t).tokens >= 1.0
    ensures Granted(st, [Scope(k, l)], t)
    ensures At(Admitted(st, [Scope(k, l)], t), k, l, t).tokens == At(st, k, l, t).tokens - 1.0
  {
    var s := [Scope(k, l)];
    assert s[1..] == [] && s[0].key == k;
    assert Lists(s, k);
    GrantCharges(st, s, t, k, l);
    RefillNow(Admitted(st, s, t).buckets[k], l, t);
    AtLater(st, k, l, t, t);
  }

  function AfterVolley(st: Store, n: nat, k: Key, l: Limits, t: real): Store
    decreases n
  {
    if n == 0 then st else AfterVolley(Admitted(st, [Scope(k, l)], t), n - 1, k, l, t)
  }

  lemma AdmittedCons(st: Store, op: Op, ops: seq<Op>, k: Key)
    ensures AdmittedOn(st, [op] + ops, k) == (if Counts(st, op, k) then 1 else 0) + AdmittedOn(Step(st, op), ops, k)
  {
    assert ([op] + ops)[1..] == ops;
  }

  lemma {:induction false} VolleyAdmits(st: Store, n: nat, k: Key, l: Limits, t: real, rest: seq<Op>)
    requires l.requestsPerMinute > 0.0 && l.maxConcurrent <= 0 && At(st, k, l, t).tokens >= n as real
    ensures AdmittedOn(st, Volley(n, k, l, t) + rest, k) == n + AdmittedOn(AfterVolley(st, n, k, l, t), rest, k)
    decreases n
  {
    hide Granted, Admitted, At, AdmittedOn;
    if n == 0 {
      assert Volley(n, k, l, t) + rest == rest;
    } else {
      var op := Admit([Scope(k, l)], t);
      OneIsGranted(st, k, l, t);
      assert op.scopes[0].key == k;
      assert Counts(st, op, k);
      VolleyAdmits(Step(st, op), n - 1, k, l, t, rest);
      AdmittedCons(st, op, Volley(n - 1, k, l, t) + rest, k);
      assert Volley(n, k, l, t) + rest == [op] + (Volley(n - 1, k, l, t) + rest);
    }
  }

  lemma {:induction false} VolleyForm(n: nat, k: Key, l: Limits, t: real, rest: seq<Op>)
    requires Timely(rest, t, t) && AllFix(rest, k, l)
    ensures Timely(Volley(n, k, l, t) + rest, t, t) && AllFix(Volley(n, k, l, t) + rest, k, l)
    ensures Clears(Volley(n, k, l, t) + rest) == Clears(rest)
  {
    if n == 0 {
      assert Volley(n, k, l, t) + rest == rest;
    } else {
      VolleyForm(n - 1, k, l, t, rest);
      OneMoreForm(Admit([Scope(k, l)], t), Volley(n - 1, k, l, t) + rest, k, l, t);
      assert Volley(n, k, l, t) + rest == [Admit([Scope(k, l)], t)] + (Volley(n - 1, k, l, t) + rest);
    }
  }

  lemma OneMoreForm(op: Op, ops: seq<Op>, k: Key, l: Limits, t: real)
    requires Timely(ops, t, t) && AllFix(ops, k, l)
    requires op.Admit? ==> op.now == t && Fixes(op.scopes, k, l)
    ensures Timely([op] + ops, t, t) && AllFix([op] + ops, k, l)
    ensures Clears([op] + ops) == Clears(ops) + (if op.Clear? then 1 else 0)
  {
    var all := [op] + ops;
    assert all[1..] == ops;
    assert forall j :: 0 < j < |all| ==> all[j] == ops[j - 1];
  }

  lemma {:induction false} VolleysForm(c: nat, k: Key, l: Limits, t: real)
    requires l.burst >= 0
    ensures Timely(Volleys(c, k, l, t), t, t) && AllFix(Volleys(c, k, l, t), k, l) && Clears(Volleys(c, k, l, t)) == c
  {
    if c == 0 {
      VolleyForm(l.burst, k, l, t, []);
    } else {
      VolleysForm(c - 1, k, l, t);
      OneMoreForm(Clear, Volleys(c - 1, k, l, t), k, l, t);
      VolleyForm(l.burst, k, l, t, [Clear] + Volleys(c - 1, k, l, t));
    }
  }

  /** The window bound is attained: from a full bucket, `c` clears let exactly (c + 1) bursts through in one instant. */
  lemma WindowBoundIsAttained(st: Store, c: nat, k: Key, l: Limits, t: real)
    requires l.requestsPerMinute > 0.0 && l.maxConcurrent <= 0 && l.burst >= 0
    requires At(st, k, l, t).tokens == l.burst as real
    ensures var ops := Volleys(c, k, l, t);
            && Timely(ops, t, t) && AllFix(ops, k, l) && Clears(ops) == c
            && AdmittedOn(st, ops, k) == (c + 1) * l.burst
  {
    VolleysForm(c, k, l, t);
    VolleysAdmit(st, c, k, l, t);
  }

  lemma {:induction false} VolleysAdmit(st: Store, c: nat, k: Key, l: Limits, t: real)
    requires l.requestsPerMinute > 0.0 && l.maxConcurrent <= 0 && l.burst >= 0
    requires At(st, k, l, t).tokens == l.burst as real
    ensures AdmittedOn(st, Volleys(c, k, l, t), k) == (c + 1) * l.burst
    decreases c
  {
    var rest := if c == 0 then [] else [Clear] + Volleys(c - 1, k, l, t);
    VolleyAdmits(st, l.burst, k, l, t, rest);
    var st' := AfterVolley(st, l.burst, k, l, t);
    if c > 0 {
      AdmittedCons(st', Clear, Volleys(c - 1, k, l, t), k);
      VolleysAdmit(Cleared(st'), c - 1, k, l, t);
      assert (c + 1) * l.burst == l.burst + c * l.burst;
    }
  }

  // ---------------------------------------------------------------------------------------------
  // How many slots a concurrency limit gives
  // ---------------------------------------------------------------------------------------------

  /** Requests that arrive for one key and nothing else. */
  function Arrivals(times: seq<real>, k: Key, l: Limits): seq<Op> {
    if times == [] then [] else [Admit([Scope(k, l)], times[0])] + Arrivals(times[1..], k, l)
  }

  /**
   A concurrency limit of m gives all its slots and no more: where a of them are in use, however many requests arrive
   one after the other, the first m - a are granted.
   */
  lemma {:induction false} SlotsAreGivenOut(st: Store, times: seq<real>, k: Key, l: Limits)
    requires l.maxConcurrent > 0 && l.requestsPerMinute <= 0.0
    ensures var left := l.maxConcurrent - (if k in st.concurrent then st.concurrent[k] else 0);
            AdmittedOn(st, Arrivals(times, k, l), k) == if left <= 0 then 0 else if left <= |times| then left else |times|
    decreases |times|
  {
    if times == [] {
      assert Arrivals(times, k, l) == [];
    } else {
      var op, rest := Admit([Scope(k, l)], times[0]), Arrivals(times[1..], k, l);
      assert Arrivals(times, k, l) == [op] + rest;
      OneSlot(st, times[0], k, l);
      hide Granted, Admitted, AdmittedOn, Arrivals;
      AdmittedCons(st, op, rest, k);
      SlotsAreGivenOut(Step(st, op), times[1..], k, l);
    }
  }

  lemma OneSlot(st: Store, t: real, k: Key, l: Limits)
    requires l.maxConcurrent > 0 && l.requestsPerMinute <= 0.0
    ensures var inUse := if k in st.concurrent then st.concurrent[k] else 0;
            var op := Admit([Scope(k, l)], t);
            && (Counts(st, op, k) <==> inUse < l.maxConcurrent)
            && (if k in Step(st, op).concurrent then Step(st, op).concurrent[k] else 0) == if inUse < l.maxConcurrent then inUse + 1 else inUse
  {
    var scopes := [Scope(k, l)];
    assert scopes[0].key == k && scopes[..0] == [];
    GrantedIff(st, scopes, t);
    assert Lists(scopes, k);
    assert TakeAll(st.concurrent, scopes) == Take(TakeAll(st.concurrent, []), scopes[0]);
    if !Granted(st, scopes, t) {
      assert Admitted(st, scopes, t).concurrent == st.concurrent;
    }
  }

  // ---------------------------------------------------------------------------------------------
  // Admitting greedily is optimal
  // ---------------------------------------------------------------------------------------------

  /** The bucket after one arrival under a policy that may also turn a request away with tokens in hand. */
  function Offered(st: Store, k: Key, l: Limits, t: real, take: bool): Store {
    var b := At(st, k, l, t);
    st.(buckets := st.buckets[k := if take then b.(tokens := b.tokens - 1.0) else b])
  }

  /** A policy respects the bucket when it only admits against a whole token. */
  predicate Respects(st: Store, k: Key, l: Limits, times: seq<real>, choice: seq<bool>)
    requires |choice| == |times|
    decreases |times|
  {
    times == [] ||
    ((choice[0] ==> At(st, k, l, times[0]).tokens >= 1.0)
     && Respects(Offered(st, k, l, times[0], choice[0]), k, l, times[1..], choice[1..]))
  }

  function Taken(choice: seq<bool>): nat {
    if choice == [] then 0 else (if choice[0] then 1 else 0) + Taken(choice[1..])
  }

  predicate Ascending(times: seq<real>, from: real) {
    times == [] || (from <= times[0] && Ascending(times[1..], times[0]))
  }

  /** The bucket after all arrivals under such a policy. */
  function OfferedAll(st: Store, k: Key, l: Limits, times: seq<real>, choice: seq<bool>): Store
    requires |choice| == |times|
    decreases |times|
  {
    if times == [] then st else OfferedAll(Offered(st, k, l, times[0], choice[0]), k, l, times[1..], choice[1..])
  }

  function Latest(times: seq<real>, from: real): real {
    if times == [] then from else Latest(times[1..], times[0])
  }

  /**
   The joint invariant of the greedy store against any policy. From a start at which its lead in admissions makes up
   for its shortfall in tokens, it is never behind in admissions, nor in admissions plus tokens.
   */
  lemma {:induction false} GreedyStaysAhead(g: Store, p: Store, k: Key, l: Limits, times: seq<real>, choice: seq<bool>, from: real, lead: nat)
    requires l.requestsPerMinute > 0.0 && l.maxConcurrent <= 0
    requires |choice| == |times| && Respects(p, k, l, times, choice) && Ascending(times, from)
    requires lead as real + At(g, k, l, from).tokens >= At(p, k, l, from).tokens
    ensures |Decisions(g, Arrivals(times, k, l))| == |times|
    ensures lead + Taken(Decisions(g, Arrivals(times, k, l))) >= Taken(choice)
    ensures var end := Latest(times, from);
            (lead + Taken(Decisions(g, Arrivals(times, k, l)))) as real + At(Run(g, Arrivals(times, k, l)), k, l, end).tokens
            >= Taken(choice) as real + At(OfferedAll(p, k, l, times, choice), k, l, end).tokens
    decreases |times|
  {
    hide Granted, Admitted, At, Offered, Decisions, Run, Arrivals, Supply;
    if times == [] {
      NoArrivals(g, k, l);
    } else {
      var t := times[0];
      AtLater(g, k, l, from, t);
      AtLater(p, k, l, from, t);
      GreedyChoice(g, k, l, t);
      OfferedAt(p, k, l, t, choice[0]);
      ArrivalsSplit(g, k, l, times);
      var grant := Granted(g, [Scope(k, l)], t);
      var lead' := lead + (if grant then 1 else 0) - (if choice[0] then 1 else 0);
      var g', p' := Admitted(g, [Scope(k, l)], t), Offered(p, k, l, t, choice[0]);
      GreedyStaysAhead(g', p', k, l, times[1..], choice[1..], t, lead');
      var rest := Decisions(g', Arrivals(times[1..], k, l));
      assert ([grant] + rest)[1..] == rest;
    }
  }

  lemma NoArrivals(st: Store, k: Key, l: Limits)
    ensures Decisions(st, Arrivals([], k, l)) == [] && Run(st, Arrivals([], k, l)) == st
  {
  }

  lemma ArrivalsSplit(st: Store, k: Key, l: Limits, times: seq<real>)
    requires times != []
    ensures var s := [Scope(k, l)];
            var next, rest := Admitted(st, s, times[0]), Arrivals(times[1..], k, l);
            && Decisions(st, Arrivals(times, k, l)) == [Granted(st, s, times[0])] + Decisions(next, rest)
            && Run(st, Arrivals(times, k, l)) == Run(next, rest)
  {
    var ops := Arrivals(times, k, l);
    assert ops[0] == Admit([Scope(k, l)], times[0]) && ops[1..] == Arrivals(times[1..], k, l);
  }

  /** On one rate-limited key a call is granted exactly against a whole token, which it takes. */
  lemma GreedyChoice(st: Store, k: Key, l: Limits, t: real)
    requires l.requestsPerMinute > 0.0 && l.maxConcurrent <= 0
    ensures var s := [Scope(k, l)];
            && (Granted(st, s, t) <==> At(st, k, l, t).tokens >= 1.0)
            && At(Admitted(st, s, t), k, l, t).tokens == At(st, k, l, t).tokens - (if Granted(st, s, t) then 1.0 else 0.0)
  {
    var s := [Scope(k, l)];
    assert s[1..] == [];
    if Granted(st, s, t) {
      OneIsGranted(st, k, l, t);
    } else {
      AtComposes(st, k, l, t, t);
    }
  }

  lemma OfferedAt(p: Store, k: Key, l: Limits, t: real, take: bool)
    requires l.requestsPerMinute >= 0.0
    ensures At(Offered(p, k, l, t, take), k, l, t).tokens == At(p, k, l, t).tokens - (if take then 1.0 else 0.0)
  {
    RefillNow(Offered(p, k, l, t, take).buckets[k], l, t);
  }

  /**
   Greedy optimality: on one rate-limited key, whatever the arrival times and whatever the bucket holds
   at the start, no policy that respects the same bucket has admitted more requests at any prefix.
   */
  lemma GreedyIsOptimal(st: Store, k: Key, l: Limits, times: seq<real>, choice: seq<bool>, from: real, n: nat)
    requires l.requestsPerMinute > 0.0 && l.maxConcurrent <= 0
    requires |choice| == |times| && Respects(st, k, l, times, choice) && Ascending(times, from)
    requires n <= |times|
    ensures |Decisions(st, Arrivals(times, k, l))| == |times|
    ensures Taken(Decisions(st, Arrivals(times, k, l))[..n]) >= Taken(choice[..n])
  {
    GreedyStaysAhead(st, st, k, l, times, choice, from, 0);
    PrefixRespects(st, k, l, times, choice, from, n);
    GreedyStaysAhead(st, st, k, l, times[..n], choice[..n], from, 0);
    PrefixDecisions(st, k, l, times, n);
  }

  lemma {:induction false} PrefixRespects(st: Store, k: Key, l: Limits, times: seq<real>, choice: seq<bool>, from: real, n: nat)
    requires |choice| == |times| && Respects(st, k, l, times, choice) && Ascending(times, from) && n <= |times|
    ensures Respects(st, k, l, times[..n], choice[..n]) && Ascending(times[..n], from)
    decreases n
  {
    if n > 0 {
      PrefixRespects(Offered(st, k, l, times[0], choice[0]), k, l, times[1..], choice[1..], times[0], n - 1);
      assert times[..n][1..] == times[1..][..n - 1] && choice[..n][1..] == choice[1..][..n - 1];
    }
  }

  lemma {:induction false} PrefixDecisions(st: Store, k: Key, l: Limits, times: seq<real>, n: nat)
    requires n <= |times|
    ensures |Decisions(st, Arrivals(times, k, l))| == |times|
    ensures Decisions(st, Arrivals(times[..n], k, l)) == Decisions(st, Arrivals(times, k, l))[..n]
    decreases |times|
  {
    if times != [] {
      var ops := Arrivals(times, k, l);
      assert ops[1..] == Arrivals(times[1..], k, l);
      var next := Step(st, ops[0]);
      if n > 0 {
        PrefixDecisions(next, k, l, times[1..], n - 1);
        assert times[..n][1..] == times[1..][..n - 1];
        assert Arrivals(times[..n], k, l)[1..] == Arrivals(times[..n][1..], k, l);
      } else {
        PrefixDecisions(next, k, l, times[1..], 0);
      }
    }
  }
}
