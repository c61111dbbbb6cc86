/** What a configured interface holds, told entry by entry on the kernel's tables and the configuration's lists. */
module WireGuardTables {
  import opened Options
  import opened WireGuard

  predicate Lists(peer: PeerConfig, net: Net) {
    exists j :: 0 <= j < |peer.allowed| && peer.allowed[j] == Some(net)
  }

  /** The last peer to list a subnet is the one that has it. */
  predicate IsLastToList(peers: seq<PeerConfig>, m: nat, net: Net) {
    m < |peers| && Lists(peers[m], net) && forall n :: m < n < |peers| ==> !Lists(peers[n], net)
  }

  predicate SomeoneLists(peers: seq<PeerConfig>, net: Net) {
    exists m :: 0 <= m < |peers| && Lists(peers[m], net)
  }

  lemma NetsAre(peer: PeerConfig, net: Net)
    ensures net in Nets(peer.allowed) <==> Lists(peer, net)
  {
  }

  lemma {:induction false} SubnetsAre(peers: seq<PeerConfig>, net: Net)
    ensures net in Subnets(peers) <==> SomeoneLists(peers, net)
  {
    if peers != [] {
      var earlier, last := peers[..|peers| - 1], peers[|peers| - 1];
      assert peers == earlier + [last];
      SubnetsAre(earlier, net);
      NetsAre(last, net);
      hide Nets, Lists;
      assert SomeoneLists(peers, net) <==> SomeoneLists(earlier, net) || Lists(last, net) by {
        assert Lists(last, net) ==> Lists(peers[|earlier|], net);
        if m :| 0 <= m < |earlier| && Lists(earlier[m], net) {
          assert Lists(peers[m], net);
        }
      }
    }
  }

  /** The peers are those configured, by their keys, each with its keepalive and the subnets it is the last to list. */
  lemma PeersAre(held: map<Key, Peer>, peers: seq<PeerConfig>)
    requires DistinctKeys(peers) && PeersMatch(held, peers)
    ensures forall key: Key :: key in held <==> exists m :: 0 <= m < |peers| && peers[m].key == Some(key)
    ensures forall m: nat :: m < |peers| ==>
              && peers[m].key.value in held
              && held[peers[m].key.value].keepalive == peers[m].keepalive
              && forall net: Net :: net in held[peers[m].key.value].allowed <==> IsLastToList(peers, m, net)
  {
    forall key: Key
      ensures key in held <==> exists m :: 0 <= m < |peers| && peers[m].key == Some(key)
    {
      assert key in held <==> key in Keys(peers);
    }
    forall m: nat | m < |peers|
      ensures peers[m].key.value in held
      ensures held[peers[m].key.value].keepalive == peers[m].keepalive
      ensures forall net: Net :: net in held[peers[m].key.value].allowed <==> IsLastToList(peers, m, net)
    {
      assert peers[m].key.value in Keys(peers);
      forall net: Net
        ensures net in held[peers[m].key.value].allowed <==> IsLastToList(peers, m, net)
      {
        AllowedIs(peers, m, net);
      }
    }
  }

  lemma AllowedIs(peers: seq<PeerConfig>, m: nat, net: Net)
    requires m < |peers|
    ensures net in Nets(peers[m].allowed) - ListedLater(peers, m, |peers|) <==> IsLastToList(peers, m, net)
  {
    ListedLaterHolds(peers, m, |peers|, net);
    NetsAre(peers[m], net);
    forall n | m < n < |peers|
      ensures net in Nets(peers[n].allowed) <==> Lists(peers[n], net)
    {
      NetsAre(peers[n], net);
    }
    hide Nets, Lists, ListedLater;
  }

  /** No destination, or the interface's own network: such a route is the kernel's or the operator's. */
  predicate NotOurs(route: Route, connected: Net) {
    route.dst == None || route.dst == Some(connected)
  }

  /** Of the other routes there is exactly one for each subnet some peer lists, and none for any other. */
  lemma RoutesAre(routes: set<Route>, peers: seq<PeerConfig>, connected: Net)
    requires RoutesMatch(routes, Subnets(peers), connected)
    ensures forall r :: r in routes && !NotOurs(r, connected) ==> SomeoneLists(peers, r.dst.value)
    ensures forall net: Net :: SomeoneLists(peers, net) ==> exists r :: r in routes && r.dst == Some(net)
    ensures forall r, s :: r in routes && s in routes && !NotOurs(r, connected) && r.dst == s.dst ==> r == s
  {
    forall net: Net
      ensures net in Subnets(peers) <==> SomeoneLists(peers, net)
    {
      SubnetsAre(peers, net);
    }
    hide Subnets, SomeoneLists;
  }
}
