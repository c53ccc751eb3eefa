/** Token buckets and concurrency counters over several scopes, all under one lock. */
module Limiter {
  import opened Config

  /** What a limit is kept for. The source writes these as strings with distinct prefixes. */
  datatype Key = Ingress | Client(id: string) | Model(alias: string) | Provider(name: string)

  datatype Scope = Scope(key: Key, limits: Limits)

  /** Tokens left at the time of the last update. Times are in minutes. */
  datatype Bucket = Bucket(tokens: real, updated: real)

  datatype Store = Store(buckets: map<Key, Bucket>, concurrent: map<Key, int>)

  const EMPTY := Store(map[], map[])

  function Least(a: real, b: real): real {
    if a <= b then a else b
  }

  /** A key that is not in the map counts as zero. */
  function Active(concurrent: map<Key, int>, k: Key): int {
    if k in concurrent then concurrent[k] else 0
  }

  /** What the rate supplies in a stretch of time. */
  function Supply(l: Limits, elapsed: real): real {
    elapsed * l.requestsPerMinute
  }

  function Refill(b: Bucket, l: Limits, now: real): Bucket {
    Bucket(Least(b.tokens + Supply(l, now - b.updated), l.burst as real), now)
  }

  /** The bucket of a scope as it stands at `now`; a scope not seen yet starts full. */
  function Current(buckets: map<Key, Bucket>, s: Scope, now: real): Bucket {
    if s.key in buckets then Refill(buckets[s.key], s.limits, now)
    else Bucket(s.limits.burst as real, now)
  }

  predicate Rated(s: Scope) {
    s.limits.requestsPerMinute > 0.0
  }

  predicate Counted(s: Scope) {
    s.limits.maxConcurrent > 0
  }

  predicate Full(st: Store, s: Scope) {
    Counted(s) && Active(st.concurrent, s.key) >= s.limits.maxConcurrent
  }

  predicate Starved(st: Store, s: Scope, now: real) {
    Rated(s) && Current(st.buckets, s, now).tokens < 1.0
  }

  predicate Refuses(st: Store, s: Scope, now: real) {
    Full(st, s) || Starved(st, s, now)
  }

  /** The position of the first scope that refuses, or the number of scopes when none does. */
  function FirstRefusal(st: Store, scopes: seq<Scope>, now: real): (i: nat)
    ensures i <= |scopes|
    ensures forall j :: 0 <= j < i ==> !Refuses(st, scopes[j], now)
    ensures i < |scopes| ==> Refuses(st, scopes[i], now)
  {
    if scopes == [] then 0
    else if Refuses(st, scopes[0], now) then 0
    else 1 + FirstRefusal(st, scopes[1..], now)
  }

  /** The refilled buckets of the rate-limited scopes; of two scopes with one key the later one stays. */
  function States(buckets: map<Key, Bucket>, scopes: seq<Scope>, now: real): map<Key, Bucket> {
    if scopes == [] then map[]
    else
      var s := scopes[|scopes| - 1];
      var rest := States(buckets, scopes[..|scopes| - 1], now);
      if Rated(s) then rest[s.key := Current(buckets, s, now)] else rest
  }

  lemma {:induction false} StatesKeys(buckets: map<Key, Bucket>, scopes: seq<Scope>, now: real, k: Key)
    ensures k in States(buckets, scopes, now) <==> exists j :: 0 <= j < |scopes| && scopes[j].key == k && Rated(scopes[j])
  {
    if scopes != [] {
      StatesKeys(buckets, scopes[..|scopes| - 1], now, k);
    }
  }

  lemma StatesStep(buckets: map<Key, Bucket>, scopes: seq<Scope>, i: nat, now: real)
    requires i < |scopes|
    ensures var rest := States(buckets, scopes[..i], now);
            States(buckets, scopes[..i + 1], now) ==
            if Rated(scopes[i]) then rest[scopes[i].key := Current(buckets, scopes[i], now)] else rest
  {
    assert scopes[..i + 1][..i] == scopes[..i];
  }

  /** Each listed rate-limited key is left with its refilled state less one token. */
  function Charge(buckets: map<Key, Bucket>, states: map<Key, Bucket>, scopes: seq<Scope>): map<Key, Bucket> {
    if scopes == [] then buckets
    else
      var s := scopes[|scopes| - 1];
      var rest := Charge(buckets, states, scopes[..|scopes| - 1]);
      if Rated(s) && s.key in states then rest[s.key := states[s.key].(tokens := states[s.key].tokens - 1.0)] else rest
  }

  function Spend(buckets: map<Key, Bucket>, scopes: seq<Scope>, now: real): map<Key, Bucket> {
    Charge(buckets, States(buckets, scopes, now), scopes)
  }

  function Take(concurrent: map<Key, int>, s: Scope): map<Key, int> {
    if Counted(s) then concurrent[s.key := Active(concurrent, s.key) + 1] else concurrent
  }

  function TakeAll(concurrent: map<Key, int>, scopes: seq<Scope>): map<Key, int> {
    if scopes == [] then concurrent
    else Take(TakeAll(concurrent, scopes[..|scopes| - 1]), scopes[|scopes| - 1])
  }

  /** Gives one slot back; the entry disappears when it reaches zero, and zero is never passed. */
  function GiveBack(concurrent: map<Key, int>, s: Scope): map<Key, int> {
    if Counted(s) && Active(concurrent, s.key) > 0 then
      if concurrent[s.key] == 1 then concurrent - {s.key} else concurrent[s.key := concurrent[s.key] - 1]
    else concurrent
  }

  function GiveBackAll(concurrent: map<Key, int>, scopes: seq<Scope>): map<Key, int> {
    if scopes == [] then concurrent
    else GiveBack(GiveBackAll(concurrent, scopes[..|scopes| - 1]), scopes[|scopes| - 1])
  }

  function Granted(st: Store, scopes: seq<Scope>, now: real): bool {
    FirstRefusal(st, scopes, now) == |scopes|
  }

  /** The store after an admission attempt. A bucket that refuses is written back refilled. */
  function Admitted(st: Store, scopes: seq<Scope>, now: real): Store {
    var i := FirstRefusal(st, scopes, now);
    if i == |scopes| then Store(Spend(st.buckets, scopes, now), TakeAll(st.concurrent, scopes))
    else if Full(st, scopes[i]) then st
    else st.(buckets := st.buckets[scopes[i].key := Current(st.buckets, scopes[i], now)])
  }

  function Released(st: Store, scopes: seq<Scope>): Store {
    st.(concurrent := GiveBackAll(st.concurrent, scopes))
  }

  /** Reservations stay: their owners will still release them. */
  function Cleared(st: Store): Store {
    st.(buckets := map[])
  }

  class LimitStore {
    var buckets: map<Key, Bucket>
    var concurrent: map<Key, int>

    function State(): Store
      reads this
    {
      Store(buckets, concurrent)
    }

    constructor ()
      ensures State() == EMPTY
    {
      buckets := map[];
      concurrent := map[];
    }

    method Clear()
      modifies this
      ensures State() == Cleared(old(State()))
    {
      buckets := map[];
    }

    /** All scopes are checked before any is charged, so a refusal charges none. */
    method Admit(scopes: seq<Scope>, now: real) returns (ok: bool)
      modifies this
      ensures ok == Granted(old(State()), scopes, now)
      ensures State() == Admitted(old(State()), scopes, now)
    {
      hide Charge, TakeAll, FirstRefusal, States, Current;
      ghost var before := State();
      var states: map<Key, Bucket> := map[];
      NoStatesYet(before.buckets, now);
      assert scopes[..0] == [];
      var i := 0;
      while i < |scopes|
        invariant 0 <= i <= |scopes|
        invariant State() == before
        invariant states == States(before.buckets, scopes[..i], now)
        invariant forall j :: 0 <= j < i ==> !Refuses(before, scopes[j], now)
      {
        var scope := scopes[i];
        StatesStep(before.buckets, scopes, i, now);
        if scope.limits.maxConcurrent > 0 && Active(concurrent, scope.key) >= scope.limits.maxConcurrent {
          FirstRefusalIs(before, scopes, now, i);
          return false;
        }
        if scope.limits.requestsPerMinute > 0.0 {
          var state := RefilledBucket(scope, now);
          states := states[scope.key := state];
          if state.tokens < 1.0 {
            buckets := buckets[scope.key := state];
            FirstRefusalIs(before, scopes, now, i);
            return false;
          }
        }
        i := i + 1;
      }
      assert scopes[..i] == scopes;
      FirstRefusalIs(before, scopes, now, |scopes|);
      forall j | 0 <= j < |scopes| && Rated(scopes[j]) ensures scopes[j].key in states {
        StatesKeys(before.buckets, scopes, now, scopes[j].key);
      }
      Consume(scopes, states);
      return true;
    }

    /** The bucket of a rate-limited scope brought up to date, without storing it. */
    method RefilledBucket(scope: Scope, now: real) returns (state: Bucket)
      ensures state == Current(buckets, scope, now)
    {
      if scope.key !in buckets {
        state := Bucket(scope.limits.burst as real, now);
      } else {
        state := buckets[scope.key];
        var elapsed := now - state.updated;
        state := state.(tokens := state.tokens + elapsed * scope.limits.requestsPerMinute);
        if state.tokens > scope.limits.burst as real {
          state := state.(tokens := scope.limits.burst as real);
        }
        state := state.(updated := now);
      }
    }

    /** The second half of an admission: every scope has agreed. */
    method Consume(scopes: seq<Scope>, states: map<Key, Bucket>)
      requires forall j :: 0 <= j < |scopes| && Rated(scopes[j]) ==> scopes[j].key in states
      modifies this
      ensures buckets == Charge(old(buckets), states, scopes)
      ensures concurrent == TakeAll(old(concurrent), scopes)
    {
      var i := 0;
      while i < |scopes|
        invariant 0 <= i <= |scopes|
        invariant concurrent == TakeAll(old(concurrent), scopes[..i])
        invariant buckets == Charge(old(buckets), states, scopes[..i])
      {
        var scope := scopes[i];
        assert scopes[..i + 1][..i] == scopes[..i];
        if scope.limits.requestsPerMinute > 0.0 {
          var state := states[scope.key];
          state := state.(tokens := state.tokens - 1.0);
          buckets := buckets[scope.key := state];
        }
        if scope.limits.maxConcurrent > 0 {
          concurrent := concurrent[scope.key := Active(concurrent, scope.key) + 1];
        }
        i := i + 1;
      }
      assert scopes[..i] == scopes;
    }

    /** The release closure of a granted admission, which captured these scopes. */
    method Release(scopes: seq<Scope>)
      modifies this
      ensures State() == Released(old(State()), scopes)
    {
      var i := 0;
      while i < |scopes|
        invariant 0 <= i <= |scopes|
        invariant buckets == old(buckets)
        invariant concurrent == GiveBackAll(old(concurrent), scopes[..i])
      {
        var scope := scopes[i];
        assert scopes[..i + 1][..i] == scopes[..i];
        if scope.limits.maxConcurrent > 0 && Active(concurrent, scope.key) > 0 {
          concurrent := concurrent[scope.key := concurrent[scope.key] - 1];
          if concurrent[scope.key] == 0 {
            concurrent := concurrent - {scope.key};
          }
        }
        i := i + 1;
      }
      assert scopes[..i] == scopes;
    }
  }

  lemma NoStatesYet(buckets: map<Key, Bucket>, now: real)
    ensures States(buckets, [], now) == map[]
  {
  }

  lemma FirstRefusalIs(st: Store, scopes: seq<Scope>, now: real, i: nat)
    requires i <= |scopes|
    requires forall j :: 0 <= j < i ==> !Refuses(st, scopes[j], now)
    requires i < |scopes| ==> Refuses(st, scopes[i], now)
    ensures FirstRefusal(st, scopes, now) == i
  {
  }
}
