/** The client address behind trusted proxies. */
module Acl {
  import opened Wrappers

  type Address = int

  datatype Networks = Networks(list: seq<Address -> bool>)

  /** An empty list admits everyone, even an address that could not be read. */
  predicate Contains(n: Networks, ip: Option<Address>) {
    n.list == [] || (ip.Some? && exists i :: 0 <= i < |n.list| && n.list[i](ip.value))
  }

  predicate Untrusted(trusted: Networks, hop: Option<Address>) {
    hop.Some? && !Contains(trusted, hop)
  }

  /** The nearest hop that is readable and not trusted, looking back from the last; the peer if there is none. */
  function Nearest(peer: Option<Address>, hops: seq<Option<Address>>, trusted: Networks): Option<Address> {
    if hops == [] then peer
    else if Untrusted(trusted, hops[|hops| - 1]) then hops[|hops| - 1]
    else Nearest(peer, hops[..|hops| - 1], trusted)
  }

  function Client(peer: Option<Address>, hops: seq<Option<Address>>, trusted: Option<Networks>): Option<Address> {
    if trusted.None? || !Contains(trusted.value, peer) then peer else Nearest(peer, hops, trusted.value)
  }

  method ForwardedClientIP(peer: Option<Address>, hops: seq<Option<Address>>, trusted: Option<Networks>) returns (ip: Option<Address>)
    ensures ip == Client(peer, hops, trusted)
  {
    if trusted.None? || !Contains(trusted.value, peer) {
      return peer;
    }
    assert hops[..|hops|] == hops;
    for i := |hops| downto 0
      invariant Nearest(peer, hops[..i], trusted.value) == Nearest(peer, hops, trusted.value)
    {
      var candidate := hops[i];
      assert hops[..i + 1][..i] == hops[..i];
      if candidate.None? {
        continue;
      }
      if !Contains(trusted.value, candidate) {
        return candidate;
      }
    }
    return peer;
  }

  /** A list of networks holds an address if it is empty or one of them does; it must be empty to hold an unreadable one. */
  lemma ContainsMeans(n: Networks, ip: Option<Address>)
    ensures n.list == [] ==> Contains(n, ip)
    ensures n.list != [] && ip.None? ==> !Contains(n, ip)
    ensures n.list != [] && ip.Some? ==> (Contains(n, ip) <==> exists i :: 0 <= i < |n.list| && n.list[i](ip.value))
  {
  }

  /** The address is readable and in none of the networks, of which there are some. */
  predicate Outside(networks: seq<Address -> bool>, hop: Option<Address>) {
    networks != [] && hop.Some? && forall i :: 0 <= i < |networks| ==> !networks[i](hop.value)
  }

  /**
   The client address in full. Without trusted networks, or behind a peer that is in none of them, it is the peer.
   Otherwise it is the last hop that is readable and in none of them, and the peer if there is no such hop.
   */
  lemma {:induction false} ClientMeans(peer: Option<Address>, hops: seq<Option<Address>>, networks: seq<Address -> bool>)
    ensures Client(peer, hops, None) == peer
    ensures networks != [] && (peer.None? || Outside(networks, peer)) ==> Client(peer, hops, Some(Networks(networks))) == peer
    ensures networks == [] || (peer.Some? && !Outside(networks, peer)) ==>
              var ip := Client(peer, hops, Some(Networks(networks)));
              if exists j :: 0 <= j < |hops| && Outside(networks, hops[j]) then
                exists j :: 0 <= j < |hops| && Outside(networks, hops[j]) && ip == hops[j]
                            && forall k :: j < k < |hops| ==> !Outside(networks, hops[k])
              else ip == peer
    decreases |hops|
  {
    if hops != [] {
      var n := |hops| - 1;
      ClientMeans(peer, hops[..n], networks);
      assert forall k :: 0 <= k < n ==> hops[..n][k] == hops[k];
      assert Untrusted(Networks(networks), hops[n]) <==> Outside(networks, hops[n]);
      if !Outside(networks, hops[n]) && (exists j :: 0 <= j < n && Outside(networks, hops[..n][j])) {
        assert exists j :: 0 <= j < |hops| && Outside(networks, hops[j]);
      }
    }
  }

  /** Behind a trusted peer the nearest untrusted hop decides; whatever a client wrote to the left of it does not matter. */
  lemma {:induction false} LeftOfTheBoundaryIsIrrelevant(peer: Option<Address>, left: seq<Option<Address>>, left': seq<Option<Address>>,
                                                         hop: Option<Address>, right: seq<Option<Address>>, trusted: Networks)
    requires Contains(trusted, peer) && Untrusted(trusted, hop)
    requires forall i :: 0 <= i < |right| ==> !Untrusted(trusted, right[i])
    ensures Client(peer, left + [hop] + right, Some(trusted)) == Client(peer, left' + [hop] + right, Some(trusted)) == hop
  {
    var hops, hops' := left + [hop] + right, left' + [hop] + right;
    if right != [] {
      var n := |right| - 1;
      LeftOfTheBoundaryIsIrrelevant(peer, left, left', hop, right[..n], trusted);
      assert hops[..|hops| - 1] == left + [hop] + right[..n];
      assert hops'[..|hops'| - 1] == left' + [hop] + right[..n];
    }
  }

  /** The forwarded header counts for nothing exactly when no proxy is trusted, the peer is not, or every address is. */
  lemma HeaderIsVoidIff(peer: Option<Address>, trusted: Option<Networks>)
    ensures (forall hops :: Client(peer, hops, trusted) == peer) <==>
            trusted.None? || !Contains(trusted.value, peer) || forall a :: !Untrusted(trusted.value, Some(a))
  {
    if trusted.Some? && Contains(trusted.value, peer) {
      if a :| Untrusted(trusted.value, Some(a)) {
        assert Client(peer, [Some(a)], trusted) == Some(a);
      } else {
        forall hops ensures Client(peer, hops, trusted) == peer {
          NearestIsPeer(peer, hops, trusted.value);
        }
      }
    }
  }

  lemma {:induction false} NearestIsPeer(peer: Option<Address>, hops: seq<Option<Address>>, trusted: Networks)
    requires forall a :: !Untrusted(trusted, Some(a))
    ensures Nearest(peer, hops, trusted) == peer
  {
    if hops != [] {
      var last := hops[|hops| - 1];
      assert last.Some? ==> last == Some(last.value);
      NearestIsPeer(peer, hops[..|hops| - 1], trusted);
    }
  }
}
