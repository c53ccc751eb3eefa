/** How admissions and releases move the concurrency counters. */
module Reservations {
  import opened Config
  import opened Limiter

  /** The slots that a reservation of these scopes holds on a key. */
  function Slots(scopes: seq<Scope>, k: Key): nat {
    if scopes == [] then 0
    else Slots(scopes[..|scopes| - 1], k) + SlotOf(scopes[|scopes| - 1], k)
  }

  function SlotOf(s: Scope, k: Key): nat {
    if s.key == k && Counted(s) then 1 else 0
  }

  /** The slots among them that were granted under a limit of at most `m`. */
  function SlotsUpTo(scopes: seq<Scope>, k: Key, m: int): nat {
    if scopes == [] then 0
    else
      var s := scopes[|scopes| - 1];
      SlotsUpTo(scopes[..|scopes| - 1], k, m) + (if s.limits.maxConcurrent <= m then SlotOf(s, k) else 0)
  }

  lemma SlotsUpToAtMost(scopes: seq<Scope>, k: Key, m: int)
    ensures SlotsUpTo(scopes, k, m) <= Slots(scopes, k)
  {
  }

  predicate DistinctKeys(scopes: seq<Scope>) {
    forall i, j :: 0 <= i < j < |scopes| ==> scopes[i].key != scopes[j].key
  }

  lemma {:induction false} NoSlot(scopes: seq<Scope>, k: Key)
    requires forall j :: 0 <= j < |scopes| ==> scopes[j].key != k
    ensures Slots(scopes, k) == 0
  {
    if scopes != [] {
      NoSlot(scopes[..|scopes| - 1], k);
    }
  }

  /** Distinct keys take one slot each, and a slot comes from a scope that counts its key. */
  lemma {:induction false} SlotSource(scopes: seq<Scope>, k: Key) returns (j: nat)
    requires DistinctKeys(scopes) && Slots(scopes, k) > 0
    ensures j < |scopes| && scopes[j].key == k && Counted(scopes[j])
    ensures Slots(scopes, k) == 1
    ensures forall m :: SlotsUpTo(scopes, k, m) == if scopes[j].limits.maxConcurrent <= m then 1 else 0
  {
    var n := |scopes| - 1;
    if SlotOf(scopes[n], k) > 0 {
      j := n;
      NoSlot(scopes[..n], k);
      forall m ensures SlotsUpTo(scopes[..n], k, m) == 0 {
        SlotsUpToAtMost(scopes[..n], k, m);
      }
    } else {
      j := SlotSource(scopes[..n], k);
    }
  }

  /** Every entry of the map stands for at least one slot. */
  predicate Proper(concurrent: map<Key, int>) {
    forall k :: k in concurrent ==> concurrent[k] > 0
  }

  lemma {:induction false} TakeAllCounts(c: map<Key, int>, scopes: seq<Scope>, k: Key)
    requires Proper(c)
    ensures Proper(TakeAll(c, scopes))
    ensures Active(TakeAll(c, scopes), k) == Active(c, k) + Slots(scopes, k)
  {
    if scopes != [] {
      TakeAllCounts(c, scopes[..|scopes| - 1], k);
    }
  }

  /** As long as the slots are there, the guard against passing zero never stops a decrement. */
  lemma {:induction false} GiveBackAllCounts(c: map<Key, int>, scopes: seq<Scope>, k: Key)
    requires Proper(c) && forall k' :: Slots(scopes, k') <= Active(c, k')
    ensures Proper(GiveBackAll(c, scopes))
    ensures Active(GiveBackAll(c, scopes), k) == Active(c, k) - Slots(scopes, k)
  {
    if scopes != [] {
      var n := |scopes| - 1;
      var s := scopes[n];
      forall k' ensures Slots(scopes[..n], k') <= Active(c, k') {
        assert Slots(scopes[..n], k') <= Slots(scopes, k');
      }
      GiveBackAllCounts(c, scopes[..n], k);
      GiveBackAllCounts(c, scopes[..n], s.key);
      assert Slots(scopes, s.key) <= Active(c, s.key);
    }
  }

  /** Proper counters are determined by what they count. */
  lemma SameCounters(c: map<Key, int>, d: map<Key, int>)
    requires Proper(c) && Proper(d) && forall k :: Active(c, k) == Active(d, k)
    ensures c == d
  {
    forall k ensures k in c <==> k in d {
      assert Active(c, k) == Active(d, k);
    }
    forall k | k in c ensures c[k] == d[k] {
      assert Active(c, k) == Active(d, k);
    }
  }

  /** A release undoes the counting of its admission exactly, whatever scopes it lists. */
  lemma ReleaseUndoesAdmission(st: Store, scopes: seq<Scope>, now: real)
    requires Proper(st.concurrent) && Granted(st, scopes, now)
    ensures Released(Admitted(st, scopes, now), scopes).concurrent == st.concurrent
  {
    var taken := TakeAll(st.concurrent, scopes);
    forall k ensures Active(taken, k) == Active(st.concurrent, k) + Slots(scopes, k) {
      TakeAllCounts(st.concurrent, scopes, k);
    }
    TakeAllCounts(st.concurrent, scopes, Ingress);
    ActiveIsNatural(st.concurrent);
    var back := GiveBackAll(taken, scopes);
    GiveBackAllCounts(taken, scopes, Ingress);
    forall k ensures Active(back, k) == Active(st.concurrent, k) {
      GiveBackAllCounts(taken, scopes, k);
    }
    SameCounters(back, st.concurrent);
  }

  lemma ActiveIsNatural(c: map<Key, int>)
    requires Proper(c)
    ensures forall k :: Active(c, k) >= 0
  {
  }
}
