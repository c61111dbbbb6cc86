/**
 Bringing the kernel's WireGuard interface to a configuration. The kernel's tables are state; any call on it may fail,
 and a call that fails changes nothing.
 */
module WireGuard {
  import opened Options

  type Key = nat
  type Net = nat

  /** An interface address with the network it is connected to. */
  datatype Addr = Addr(ip: nat, net: Net)

  /** A route out of the interface; the default route has no destination. */
  datatype Route = Route(dst: Option<Net>, metric: nat)

  /** A peer as the kernel holds it; its session is what a site behind NAT cannot easily get back. */
  datatype Peer = Peer(allowed: set<Net>, keepalive: nat, session: nat)

  /** What the configuration asks for; None stands for text that does not parse. */
  datatype PeerConfig = PeerConfig(key: Option<Key>, allowed: seq<Option<Net>>, keepalive: nat)

  datatype Config = Config(address: Option<Addr>, privateKey: Option<Key>, peers: seq<PeerConfig>)

  /** One entry of a device configuration. */
  datatype Update = Set(key: Key, allowed: set<Net>, keepalive: nat) | Remove(key: Key)

  /** An allowed IP belongs to one peer: giving it to one takes it from the others. */
  function Without(peers: map<Key, Peer>, nets: set<Net>): map<Key, Peer> {
    map key | key in peers :: peers[key].(allowed := peers[key].allowed - nets)
  }

  function SessionOf(peers: map<Key, Peer>, key: Key): nat {
    if key in peers then peers[key].session else 0
  }

  function Updated(peers: map<Key, Peer>, update: Update): map<Key, Peer> {
    match update
    case Set(key, allowed, keepalive) =>
      Without(peers, allowed)[key := Peer(allowed, keepalive, SessionOf(peers, key))]
    case Remove(key) => peers - {key}
  }

  function Configured(peers: map<Key, Peer>, updates: seq<Update>): map<Key, Peer> {
    if updates == [] then peers
    else Updated(Configured(peers, updates[..|updates| - 1]), updates[|updates| - 1])
  }

  function ConnectedRoutes(addresses: set<Addr>): set<Route> {
    set addr | addr in addresses :: Route(Some(addr.net), 0)
  }

  lemma ConnectedOfUnion(a: set<Addr>, b: set<Addr>)
    ensures ConnectedRoutes(a + b) == ConnectedRoutes(a) + ConnectedRoutes(b)
  {
    forall addr | addr in a
      ensures Route(Some(addr.net), 0) in ConnectedRoutes(a + b)
    {
      assert addr in a + b;
    }
    forall addr | addr in b
      ensures Route(Some(addr.net), 0) in ConnectedRoutes(a + b)
    {
      assert addr in a + b;
    }
  }

  /** The routes once an address is the only one: those to the others' networks go, and a new one brings its own. */
  function Readdressed(up: bool, routes: set<Route>, addresses: set<Addr>, addr: Addr): set<Route> {
    var own := ConnectedRoutes({addr});
    if !up then routes
    else routes - (ConnectedRoutes(addresses) - own) + if addr in addresses then {} else own
  }

  /** The routes once the link is up under that address, before any peer's are looked at. */
  function Linked(up: bool, routes: set<Route>, addresses: set<Addr>, addr: Addr): set<Route> {
    Readdressed(up, routes, addresses, addr) + if up then {} else ConnectedRoutes({addr})
  }

  class Kernel {
    const fails: nat -> bool
    /** Routes of other interfaces, which a new route must not collide with. */
    const hostRoutes: set<Route>
    var calls: nat
    /** How often an address or a route was added or removed. */
    var changes: nat
    var addresses: set<Addr>
    var peers: map<Key, Peer>
    var routes: set<Route>
    var up: bool

    constructor (fails: nat -> bool, hostRoutes: set<Route>, addresses: set<Addr>, peers: map<Key, Peer>,
                 routes: set<Route>, up: bool)
      ensures this.fails == fails && this.hostRoutes == hostRoutes && calls == 0 && changes == 0
      ensures this.addresses == addresses && this.peers == peers && this.routes == routes && this.up == up
    {
      this.fails, this.hostRoutes := fails, hostRoutes;
      calls, changes := 0, 0;
      this.addresses, this.peers, this.routes, this.up := addresses, peers, routes, up;
    }

    ghost predicate Healthy() {
      forall n :: !fails(n)
    }

    /** While the link is up, every address has the route to its network that the kernel gave it. */
    predicate Connected()
      reads this
    {
      up ==> ConnectedRoutes(addresses) <= routes
    }

    /** A call that only reads, or whose failure is all that matters. */
    method Call() returns (ok: bool)
      modifies this`calls
      ensures Healthy() ==> ok
    {
      ok := !fails(calls);
      calls := calls + 1;
    }

    /** A link that comes up gets a route to each network its addresses are connected to. */
    method LinkSetUp() returns (ok: bool)
      modifies this`calls, this`routes, this`up
      ensures Healthy() ==> ok
      ensures up == (ok || old(up))
      ensures routes == if ok && !old(up) then old(routes) + ConnectedRoutes(addresses) else old(routes)
    {
      ok := Call();
      if ok {
        if !up {
          routes := routes + ConnectedRoutes(addresses);
        }
        up := true;
      }
    }

    /** An address takes the route to its network with it, unless another address is connected to the same. */
    method AddrDel(addr: Addr) returns (ok: bool)
      requires addr in addresses
      modifies this`calls, this`changes, this`addresses, this`routes
      ensures Healthy() ==> ok
      ensures addresses == if ok then old(addresses) - {addr} else old(addresses)
      ensures routes == if ok && up
                        then old(routes) - (ConnectedRoutes({addr}) - ConnectedRoutes(addresses))
                        else old(routes)
    {
      ok := Call();
      if ok {
        addresses, changes := addresses - {addr}, changes + 1;
        if up {
          routes := routes - (ConnectedRoutes({addr}) - ConnectedRoutes(addresses));
        }
      }
    }

    method AddrAdd(addr: Addr) returns (ok: bool)
      modifies this`calls, this`changes, this`addresses, this`routes
      ensures Healthy() ==> ok
      ensures addresses == if ok then old(addresses) + {addr} else old(addresses)
      ensures routes == if ok && up then old(routes) + ConnectedRoutes({addr}) else old(routes)
    {
      ok := Call();
      if ok {
        addresses, changes := addresses + {addr}, changes + 1;
        if up {
          routes := routes + ConnectedRoutes({addr});
        }
      }
    }

    method RouteDel(route: Route) returns (ok: bool)
      requires route in routes
      modifies this`calls, this`changes, this`routes
      ensures Healthy() ==> ok
      ensures routes == if ok then old(routes) - {route} else old(routes)
    {
      ok := Call();
      if ok {
        routes, changes := routes - {route}, changes + 1;
      }
    }

    /** Adds, never replaces: a route that is already there makes it fail. */
    method RouteAdd(route: Route) returns (ok: bool)
      modifies this`calls, this`changes, this`routes
      ensures ok ==> route !in old(routes) && route !in hostRoutes
      ensures Healthy() && route !in old(routes) && route !in hostRoutes ==> ok
      ensures routes == if ok then old(routes) + {route} else old(routes)
    {
      ok := Call();
      if route in routes || route in hostRoutes {
        ok := false;
      }
      if ok {
        routes, changes := routes + {route}, changes + 1;
      }
    }

    method ConfigureDevice(updates: seq<Update>) returns (ok: bool)
      modifies this`calls, this`peers
      ensures Healthy() ==> ok
      ensures peers == if ok then Configured(old(peers), updates) else old(peers)
    {
      ok := Call();
      if ok {
        ghost var before := peers;
        for n := 0 to |updates|
          invariant peers == Configured(before, updates[..n])
        {
          assert updates[..n + 1][..n] == updates[..n];
          peers := Updated(peers, updates[n]);
        }
        assert updates[..|updates|] == updates;
      }
    }
  }

  // ----- addresses -----

  method EnsureAddress(k: Kernel, address: Option<Addr>) returns (ok: bool)
    modifies k`calls, k`changes, k`addresses, k`routes
    ensures ok ==> address.Some? && k.addresses == {address.value}
    ensures old(k.Connected()) ==> k.Connected()
    ensures address.Some? && address.value in old(k.addresses) ==> address.value in k.addresses
    ensures address.Some? && old(k.addresses) == {address.value} ==>
              k.changes == old(k.changes) && k.addresses == old(k.addresses) && k.routes == old(k.routes)
    ensures k.Healthy() ==> ok == address.Some?
    ensures ok ==> k.routes == Readdressed(k.up, old(k.routes), old(k.addresses), address.value)
  {
    if address.None? {
      return false;
    }
    var addr := address.value;
    var listed := k.Call();
    if !listed {
      return false;
    }
    var found := false;
    var left := k.addresses;
    while left != {}
      invariant left <= old(k.addresses)
      invariant addr in old(k.addresses) ==> addr in k.addresses
      invariant k.addresses == left + if found then {addr} else {}
      invariant found <==> addr in old(k.addresses) && addr !in left
      invariant old(k.addresses) == {addr} ==> k.changes == old(k.changes) && k.routes == old(k.routes)
      invariant old(k.Connected()) ==> k.Connected()
      invariant k.routes == if k.up
                            then old(k.routes) - (ConnectedRoutes(old(k.addresses)) - ConnectedRoutes(k.addresses))
                            else old(k.routes)
      decreases left
    {
      var existing :| existing in left;
      left := left - {existing};
      if existing == addr {
        found := true;
        continue;
      }
      ghost var before := k.addresses;
      var deleted := k.AddrDel(existing);
      if !deleted {
        return false;
      }
      assert before == k.addresses + {existing};
      ConnectedOfUnion(k.addresses, {existing});
    }
    if found {
      return true;
    }
    ok := k.AddrAdd(addr);
  }

  // ----- peers -----

  predicate AllParse(entries: seq<Option<Net>>) {
    forall n :: 0 <= n < |entries| ==> entries[n].Some?
  }

  function Nets(entries: seq<Option<Net>>): set<Net> {
    set n | 0 <= n < |entries| && entries[n].Some? :: entries[n].value
  }

  predicate WellFormed(cfg: Config) {
    && cfg.address.Some? && cfg.privateKey.Some?
    && forall n :: 0 <= n < |cfg.peers| ==> cfg.peers[n].key.Some? && AllParse(cfg.peers[n].allowed)
  }

  function Updates(peers: seq<PeerConfig>): seq<Update>
    requires forall n :: 0 <= n < |peers| ==> peers[n].key.Some?
  {
    seq(|peers|, (n: nat) requires n < |peers| && peers[n].key.Some? =>
      Set(peers[n].key.value, Nets(peers[n].allowed), peers[n].keepalive))
  }

  function Keys(peers: seq<PeerConfig>): set<Key> {
    set n | 0 <= n < |peers| && peers[n].key.Some? :: peers[n].key.value
  }

  method ParseAllowedIPs(entries: seq<Option<Net>>) returns (nets: Option<set<Net>>)
    ensures nets == if AllParse(entries) then Some(Nets(entries)) else None
  {
    var all: set<Net> := {};
    for n := 0 to |entries|
      invariant AllParse(entries[..n])
      invariant all == Nets(entries[..n])
    {
      if entries[n].None? {
        return None;
      }
      assert Nets(entries[..n + 1]) == Nets(entries[..n]) + {entries[n].value} by {
        assert entries[..n + 1] == entries[..n] + [entries[n]];
        forall net | net in Nets(entries[..n + 1])
          ensures net in Nets(entries[..n]) + {entries[n].value}
        {
          var i :| 0 <= i < n + 1 && entries[..n + 1][i].Some? && entries[..n + 1][i].value == net;
          if i < n {
            assert entries[..n][i].value == net;
          }
        }
        forall net | net in Nets(entries[..n]) + {entries[n].value}
          ensures net in Nets(entries[..n + 1])
        {
          if net in Nets(entries[..n]) {
            var i :| 0 <= i < n && entries[..n][i].Some? && entries[..n][i].value == net;
            assert entries[..n + 1][i].value == net;
          } else {
            assert entries[..n + 1][n].value == net;
          }
        }
      }
      all := all + {entries[n].value};
    }
    assert entries[..|entries|] == entries;
    return Some(all);
  }

  /** The removals for peers the device holds that nobody wants: one each, in any order. */
  predicate Removals(updates: seq<Update>, stale: set<Key>) {
    && (forall n :: 0 <= n < |updates| ==> updates[n].Remove? && updates[n].key in stale)
    && (forall key :: key in stale ==> Remove(key) in updates)
  }

  method PeersToRemove(k: Kernel, wanted: set<Key>) returns (removals: Option<seq<Update>>)
    modifies k`calls
    ensures removals.Some? ==> Removals(removals.value, k.peers.Keys - wanted)
    ensures k.Healthy() ==> removals.Some?
  {
    var read := k.Call();
    if !read {
      return None;
    }
    var updates: seq<Update> := [];
    var left := k.peers.Keys;
    while left != {}
      invariant left <= k.peers.Keys
      invariant Removals(updates, k.peers.Keys - wanted - left)
      decreases left
    {
      var key :| key in left;
      left := left - {key};
      if key in wanted {
        continue;
      }
      updates := updates + [Remove(key)];
    }
    return Some(updates);
  }

  method ApplyPeers(k: Kernel, cfg: Config) returns (ok: bool, ghost removals: seq<Update>)
    modifies k`calls, k`peers
    ensures ok ==> cfg.privateKey.Some? && forall n :: 0 <= n < |cfg.peers| ==>
            cfg.peers[n].key.Some? && AllParse(cfg.peers[n].allowed)
    ensures ok ==> Removals(removals, old(k.peers.Keys) - Keys(cfg.peers))
    ensures ok ==> k.peers == Configured(old(k.peers), Updates(cfg.peers) + removals)
    ensures !ok ==> k.peers == old(k.peers)
    ensures k.Healthy() && WellFormed(cfg) ==> ok
  {
    removals := [];
    if cfg.privateKey.None? {
      return false, [];
    }
    var updates: seq<Update> := [];
    var wanted: set<Key> := {};
    for n := 0 to |cfg.peers|
      invariant forall m :: 0 <= m < n ==> cfg.peers[m].key.Some? && AllParse(cfg.peers[m].allowed)
      invariant updates == Updates(cfg.peers[..n])
      invariant wanted == Keys(cfg.peers[..n])
      invariant k.peers == old(k.peers)
    {
      var peer := cfg.peers[n];
      if peer.key.None? {
        return false, [];
      }
      var allowed := ParseAllowedIPs(peer.allowed);
      if allowed.None? {
        return false, [];
      }
      KeysOfNext(cfg.peers, n);
      wanted := wanted + {peer.key.value};
      updates := updates + [Set(peer.key.value, allowed.value, peer.keepalive)];
    }
    assert cfg.peers[..|cfg.peers|] == cfg.peers;
    var stale := PeersToRemove(k, wanted);
    if stale.None? {
      return false, [];
    }
    removals := stale.value;
    ok := k.ConfigureDevice(updates + stale.value);
  }

  lemma KeysOfNext(peers: seq<PeerConfig>, n: nat)
    requires n < |peers| && peers[n].key.Some?
    ensures Keys(peers[..n + 1]) == Keys(peers[..n]) + {peers[n].key.value}
  {
    forall key | key in Keys(peers[..n + 1])
      ensures key in Keys(peers[..n]) + {peers[n].key.value}
    {
      var i :| 0 <= i < n + 1 && peers[..n + 1][i].key.Some? && peers[..n + 1][i].key.value == key;
      if i < n {
        assert peers[..n][i].key.value == key;
      }
    }
    forall key | key in Keys(peers[..n]) + {peers[n].key.value}
      ensures key in Keys(peers[..n + 1])
    {
      if key in Keys(peers[..n]) {
        var i :| 0 <= i < n && peers[..n][i].key.Some? && peers[..n][i].key.value == key;
        assert peers[..n + 1][i].key.value == key;
      } else {
        assert peers[..n + 1][n].key.value == key;
      }
    }
  }

  // ----- routes -----

  /** Every subnet some peer is allowed. */
  function Subnets(peers: seq<PeerConfig>): set<Net> {
    if peers == [] then {} else Subnets(peers[..|peers| - 1]) + Nets(peers[|peers| - 1].allowed)
  }

  /** Routes that are nobody's to remove: the default route and the connected one. */
  predicate Untouched(route: Route, connected: Net) {
    route.dst == None || route.dst == Some(connected)
  }

  /** The routes are the wanted subnets', one each, and those that are left alone. */
  predicate RoutesMatch(routes: set<Route>, wanted: set<Net>, connected: Net) {
    && (forall r :: r in routes ==> Untouched(r, connected) || r.dst.value in wanted)
    && (forall net :: net in wanted ==> exists r :: r in routes && r.dst == Some(net))
    && (forall r, s :: r in routes && s in routes && !Untouched(r, connected) && r.dst == s.dst ==> r == s)
  }

  /** Nothing stands in the way of a route to `net`: it has one already, or its place is free. */
  predicate Routable(net: Net, routes: set<Route>, hostRoutes: set<Route>, connected: Net) {
    || (net != connected && exists r :: r in routes && r.dst == Some(net))
    || (Route(Some(net), 0) !in routes && Route(Some(net), 0) !in hostRoutes)
  }

  predicate Holds(routes: set<Route>, net: Net, connected: Net) {
    net != connected && exists r :: r in routes && r.dst == Some(net)
  }

  /** What removing the stale routes leaves: of each wanted subnet's routes one, and all that is left alone. */
  predicate Pruned(routes: set<Route>, before: set<Route>, wanted: set<Net>, connected: Net) {
    && routes <= before
    && (forall r :: r in routes ==> Untouched(r, connected) || r.dst.value in wanted)
    && (forall r :: r in before && Untouched(r, connected) ==> r in routes)
    && (forall r, s :: r in routes && s in routes && !Untouched(r, connected) && r.dst == s.dst ==> r == s)
    && (forall net :: net in wanted && Holds(before, net, connected) ==> Holds(routes, net, connected))
  }

  /** Removes stale routes; `missing` is what is left of the wanted subnets. */
  method RemoveStale(k: Kernel, wanted: set<Net>, connected: Net) returns (ok: bool, missing: set<Net>)
    modifies k`calls, k`changes, k`routes
    ensures ok ==> Pruned(k.routes, old(k.routes), wanted, connected)
    ensures ok ==> forall net :: net in missing <==> net in wanted && !Holds(k.routes, net, connected)
    ensures RoutesMatch(old(k.routes), wanted, connected) ==> k.routes == old(k.routes) && k.changes == old(k.changes)
    ensures k.Healthy() ==> ok
  {
    missing := wanted;
    ghost var before := k.routes;
    ghost var kept: set<Route> := {};
    var left := k.routes;
    while left != {}
      invariant left + kept == k.routes <= before && left !! kept
      invariant forall r :: r in kept ==> Untouched(r, connected) || r.dst.value in wanted
      invariant forall r :: r in before && Untouched(r, connected) ==> r in k.routes
      invariant forall r, s :: r in kept && s in kept && !Untouched(r, connected) && r.dst == s.dst ==> r == s
      invariant forall net :: net in missing <==> net in wanted && !Holds(kept, net, connected)
      invariant forall net :: net in wanted && Holds(before, net, connected) ==> Holds(k.routes, net, connected)
      invariant RoutesMatch(before, wanted, connected) ==> k.routes == before && k.changes == old(k.changes)
      decreases left
    {
      var route :| route in left;
      left := left - {route};
      if route.dst == None || route.dst == Some(connected) {
        kept := kept + {route};
        HoldsGrows(kept - {route}, route, connected);
        continue;
      }
      var net := route.dst.value;
      if net in missing {
        missing := missing - {net};
        kept := kept + {route};
        HoldsGrows(kept - {route}, route, connected);
        continue;
      }
      ghost var routes := k.routes;
      assert !RoutesMatch(before, wanted, connected);
      var deleted := k.RouteDel(route);
      if !deleted {
        return false, missing;
      }
      forall other | other in wanted && Holds(before, other, connected)
        ensures Holds(k.routes, other, connected)
      {
        var r :| r in routes && r.dst == Some(other);
        if r == route {
          var twin :| twin in kept && twin.dst == Some(net);
          assert twin in k.routes;
        } else {
          assert r in k.routes;
        }
      }
    }
    return true, missing;
  }

  lemma HoldsGrows(routes: set<Route>, route: Route, connected: Net)
    ensures forall net :: Holds(routes + {route}, net, connected)
                          <==> Holds(routes, net, connected) || (route.dst == Some(net) && net != connected)
  {
    forall net: Net | Holds(routes, net, connected)
      ensures Holds(routes + {route}, net, connected)
    {
      var r :| r in routes && r.dst == Some(net);
      assert r in routes + {route};
    }
    assert route in routes + {route};
  }

  /** Adds a route for each missing subnet. */
  method AddMissing(k: Kernel, missing: set<Net>) returns (ok: bool)
    modifies k`calls, k`changes, k`routes
    ensures ok ==> k.routes == old(k.routes) + (set net | net in missing :: Route(Some(net), 0))
    ensures ok ==> forall net :: net in missing ==>
            Route(Some(net), 0) !in old(k.routes) && Route(Some(net), 0) !in k.hostRoutes
    ensures missing == {} ==> k.routes == old(k.routes) && k.changes == old(k.changes)
    ensures k.Healthy() ==>
              (ok <==> forall net :: net in missing ==>
                         Route(Some(net), 0) !in old(k.routes) && Route(Some(net), 0) !in k.hostRoutes)
  {
    var left := missing;
    ghost var before := k.routes;
    while left != {}
      invariant left <= missing
      invariant k.routes == before + (set net | net in missing - left :: Route(Some(net), 0))
      invariant forall net :: net in missing - left ==>
              Route(Some(net), 0) !in before && Route(Some(net), 0) !in k.hostRoutes
      invariant missing == {} ==> k.changes == old(k.changes)
      decreases left
    {
      var net :| net in left;
      ghost var done := missing - left;
      left := left - {net};
      assert missing - left == done + {net};
      var added := k.RouteAdd(Route(Some(net), 0));
      if !added {
        return false;
      }
    }
    assert missing - left == missing;
    return true;
  }

  method SyncRoutes(k: Kernel, cfg: Config) returns (ok: bool)
    modifies k`calls, k`changes, k`routes
    ensures ok ==> cfg.address.Some? && RoutesMatch(k.routes, Subnets(cfg.peers), cfg.address.value.net)
    ensures ok ==> forall r :: r in old(k.routes) && Untouched(r, cfg.address.value.net) ==> r in k.routes
    ensures ok ==> forall r :: r in k.routes && r !in old(k.routes) ==>
            r.dst.Some? && r.metric == 0 && r !in k.hostRoutes
    ensures (&& cfg.address.Some? && cfg.address.value.net !in Subnets(cfg.peers)
             && RoutesMatch(old(k.routes), Subnets(cfg.peers), cfg.address.value.net)) ==>
              k.routes == old(k.routes) && k.changes == old(k.changes)
    ensures k.Healthy() && WellFormed(cfg) ==>
              (ok <==> forall net :: net in Subnets(cfg.peers) ==>
                         Routable(net, old(k.routes), k.hostRoutes, cfg.address.value.net))
  {
    var wanted: set<Net> := {};
    for n := 0 to |cfg.peers|
      invariant wanted == Subnets(cfg.peers[..n])
      invariant k.routes == old(k.routes) && k.changes == old(k.changes)
    {
      var nets := ParseAllowedIPs(cfg.peers[n].allowed);
      if nets.None? {
        return false;
      }
      assert cfg.peers[..n + 1][..n] == cfg.peers[..n];
      wanted := wanted + nets.value;
    }
    assert cfg.peers[..|cfg.peers|] == cfg.peers;
    if cfg.address.None? {
      return false;
    }
    var connected := cfg.address.value.net;
    var listed := k.Call();
    if !listed {
      return false;
    }
    var missing;
    ok, missing := RemoveStale(k, wanted, connected);
    if !ok {
      return false;
    }
    ghost var pruned := k.routes;
    FreePlaces(pruned, old(k.routes), wanted, connected, missing, k.hostRoutes);
    NothingMissing(old(k.routes), wanted, connected, missing, pruned);
    ok := AddMissing(k, missing);
    if ok {
      PrunedAndFilled(pruned, old(k.routes), wanted, connected, missing);
    }
  }

  /** Whether the missing subnets' places are free was already decided before anything was removed. */
  lemma FreePlaces(
    pruned: set<Route>, before: set<Route>, wanted: set<Net>, connected: Net, missing: set<Net>, hostRoutes: set<Route>)
    requires Pruned(pruned, before, wanted, connected)
    requires forall net :: net in missing <==> net in wanted && !Holds(pruned, net, connected)
    ensures (forall net :: net in missing ==> Route(Some(net), 0) !in pruned && Route(Some(net), 0) !in hostRoutes)
            <==> forall net :: net in wanted ==> Routable(net, before, hostRoutes, connected)
  {
    forall net | net in wanted
      ensures (net in missing ==> Route(Some(net), 0) !in pruned && Route(Some(net), 0) !in hostRoutes)
              <==> Routable(net, before, hostRoutes, connected)
    {
      var route := Route(Some(net), 0);
      if net != connected {
        if exists r :: r in before && r.dst == Some(net) {
          assert Holds(before, net, connected);
        } else {
          assert route !in before;
          assert !Holds(before, net, connected);
          assert !Holds(pruned, net, connected);
        }
      } else {
        assert Untouched(route, connected);
      }
    }
  }

  lemma NothingMissing(before: set<Route>, wanted: set<Net>, connected: Net, missing: set<Net>, pruned: set<Route>)
    requires Pruned(pruned, before, wanted, connected)
    requires forall net :: net in missing <==> net in wanted && !Holds(pruned, net, connected)
    ensures connected !in wanted && RoutesMatch(before, wanted, connected) ==> missing == {}
  {
    if connected !in wanted && RoutesMatch(before, wanted, connected) {
      forall net | net in wanted
        ensures net !in missing
      {
        var r :| r in before && r.dst == Some(net);
        assert Holds(before, net, connected);
      }
    }
  }

  lemma PrunedAndFilled(pruned: set<Route>, before: set<Route>, wanted: set<Net>, connected: Net, missing: set<Net>)
    requires Pruned(pruned, before, wanted, connected)
    requires forall net :: net in missing <==> net in wanted && !Holds(pruned, net, connected)
    ensures RoutesMatch(pruned + (set net | net in missing :: Route(Some(net), 0)), wanted, connected)
  {
    var added := set net | net in missing :: Route(Some(net), 0);
    var routes := pruned + added;
    forall net | net in wanted
      ensures exists r :: r in routes && r.dst == Some(net)
    {
      if net in missing {
        assert Route(Some(net), 0) in added;
      } else {
        var r :| r in pruned && r.dst == Some(net);
        assert r in routes;
      }
    }
    forall r | r in pruned && !Untouched(r, connected)
      ensures Holds(pruned, r.dst.value, connected)
    {
    }
    assert forall r :: r in added ==> r.dst.Some? && r.dst.value in missing && r == Route(r.dst, 0);
  }

  // ----- the peers that result -----

  predicate DistinctKeys(peers: seq<PeerConfig>) {
    && (forall n :: 0 <= n < |peers| ==> peers[n].key.Some?)
    && (forall m, n :: 0 <= m < n < |peers| ==> peers[m].key != peers[n].key)
  }

  /** The subnets that the first n peers but those up to m list. */
  function ListedLater(peers: seq<PeerConfig>, m: nat, n: nat): set<Net>
    requires n <= |peers|
  {
    if n <= m + 1 then {} else ListedLater(peers, m, n - 1) + Nets(peers[n - 1].allowed)
  }

  /** What the m-th peer has after the first n updates: a subnet listed again by a later peer goes to that one. */
  function Held(peers: seq<PeerConfig>, m: nat, n: nat, session: nat): Peer
    requires m < n <= |peers|
  {
    Peer(Nets(peers[m].allowed) - ListedLater(peers, m, n), peers[m].keepalive, session)
  }

  /** The device holds exactly the configured peers. */
  predicate PeersMatch(held: map<Key, Peer>, peers: seq<PeerConfig>) {
    && held.Keys == Keys(peers)
    && forall m :: 0 <= m < |peers| && peers[m].key.Some? && peers[m].key.value in held ==>
         held[peers[m].key.value] == Held(peers, m, |peers|, held[peers[m].key.value].session)
  }

  lemma UpdatedHolds(held: map<Key, Peer>, update: Update, key: Key)
    requires update.Set?
    ensures var held' := Updated(held, update);
            && held'.Keys == held.Keys + {update.key}
            && (key in held && key != update.key ==>
                  held'[key] == held[key].(allowed := held[key].allowed - update.allowed))
            && held'[update.key] == Peer(update.allowed, update.keepalive, SessionOf(held, update.key))
  {
  }

  lemma UpdatesPrefix(peers: seq<PeerConfig>, n: nat)
    requires DistinctKeys(peers) && n < |peers|
    ensures Updates(peers[..n + 1])
         == Updates(peers[..n]) + [Set(peers[n].key.value, Nets(peers[n].allowed), peers[n].keepalive)]
  {
  }

  lemma ConfiguredAppend(held: map<Key, Peer>, updates: seq<Update>, update: Update)
    ensures Configured(held, updates + [update]) == Updated(Configured(held, updates), update)
  {
    assert (updates + [update])[..|updates|] == updates;
  }

  lemma HeldFollows(peers: seq<PeerConfig>, m: nat, n: nat, session: nat)
    requires m < n < |peers|
    ensures Held(peers, m, n + 1, session)
         == Held(peers, m, n, session).(allowed := Held(peers, m, n, session).allowed - Nets(peers[n].allowed))
  {
  }

  /** What the first n updates make of the m-th peer. */
  predicate UpdatedTo(held: map<Key, Peer>, held': map<Key, Peer>, peers: seq<PeerConfig>, n: nat, m: nat)
    requires DistinctKeys(peers) && m < |peers| && n <= |peers|
  {
    var key := peers[m].key.value;
    && held'.Keys == held.Keys + Keys(peers[..n])
    && (m < n ==> key in held' && held'[key] == Held(peers, m, n, SessionOf(held, key)))
    && (m >= n ==> SessionOf(held', key) == SessionOf(held, key))
  }

  lemma UpdatedOnce(
    held: map<Key, Peer>, held': map<Key, Peer>, peers: seq<PeerConfig>, n: nat, m: nat, update: Update)
    requires DistinctKeys(peers) && m < |peers| && n < |peers|
    requires update == Set(peers[n].key.value, Nets(peers[n].allowed), peers[n].keepalive)
    requires UpdatedTo(held, held', peers, n, m) && UpdatedTo(held, held', peers, n, n)
    ensures UpdatedTo(held, Updated(held', update), peers, n + 1, m)
  {
    var key := peers[m].key.value;
    UpdatedHolds(held', update, key);
    KeysOfNext(peers, n);
    hide Updated, Keys;
    if m < n {
      HeldFollows(peers, m, n, SessionOf(held, key));
      assert peers[m].key != peers[n].key;
    } else if m > n {
      assert peers[n].key != peers[m].key;
    }
  }

  lemma BeforeUpdates(held: map<Key, Peer>, peers: seq<PeerConfig>, m: nat)
    requires DistinctKeys(peers) && m < |peers|
    ensures UpdatedTo(held, Configured(held, Updates(peers[..0])), peers, 0, m)
  {
    assert Updates(peers[..0]) == [] && Keys(peers[..0]) == {};
  }

  lemma {:induction false} AfterUpdates(held: map<Key, Peer>, peers: seq<PeerConfig>, n: nat, m: nat)
    requires DistinctKeys(peers) && m < |peers| && n <= |peers|
    ensures UpdatedTo(held, Configured(held, Updates(peers[..n])), peers, n, m)
    decreases n
  {
    hide UpdatedTo, Updated, Updates, Keys, Configured;
    if n == 0 {
      BeforeUpdates(held, peers, m);
    } else {
      var last := Set(peers[n - 1].key.value, Nets(peers[n - 1].allowed), peers[n - 1].keepalive);
      AfterUpdates(held, peers, n - 1, m);
      AfterUpdates(held, peers, n - 1, n - 1);
      UpdatesPrefix(peers, n - 1);
      ConfiguredAppend(held, Updates(peers[..n - 1]), last);
      UpdatedOnce(held, Configured(held, Updates(peers[..n - 1])), peers, n - 1, m, last);
    }
  }

  lemma {:induction false} AfterRemovals(held: map<Key, Peer>, updates: seq<Update>, removals: seq<Update>)
    requires forall n :: 0 <= n < |removals| ==> removals[n].Remove?
    ensures var before := Configured(held, updates);
            Configured(held, updates + removals)
            == map key | key in before && Remove(key) !in removals :: before[key]
    decreases |removals|
  {
    hide Configured;
    var before := Configured(held, updates);
    if removals == [] {
      assert updates + removals == updates;
    } else {
      var earlier, last := removals[..|removals| - 1], removals[|removals| - 1];
      assert removals == earlier + [last];
      assert updates + removals == (updates + earlier) + [last];
      AfterRemovals(held, updates, earlier);
      ConfiguredAppend(held, updates + earlier, last);
      assert forall key :: Remove(key) in removals <==> Remove(key) in earlier || Remove(key) == last;
    }
  }

  /**
   Configuring leaves exactly the configured peers, whatever the device held: those it held keep their session, the
   others it held are gone.
   */
  lemma ConfiguredPeers(held: map<Key, Peer>, peers: seq<PeerConfig>, removals: seq<Update>)
    requires DistinctKeys(peers) && Removals(removals, held.Keys - Keys(peers))
    ensures var held' := Configured(held, Updates(peers) + removals);
            && PeersMatch(held', peers)
            && forall key :: key in held && key in held' ==> held'[key].session == held[key].session
  {
    var updated := Configured(held, Updates(peers));
    var held' := Configured(held, Updates(peers) + removals);
    AfterRemovals(held, Updates(peers), removals);
    assert peers[..|peers|] == peers;
    forall m | 0 <= m < |peers|
      ensures peers[m].key.value in updated
      ensures updated[peers[m].key.value] == Held(peers, m, |peers|, SessionOf(held, peers[m].key.value))
      ensures Remove(peers[m].key.value) !in removals
    {
      AfterUpdates(held, peers, |peers|, m);
      assert peers[m].key.value in Keys(peers);
    }
    UpdatedKeys(held, peers);
    hide Configured, Updates, Held;
    assert forall key :: key in held.Keys - Keys(peers) ==> Remove(key) in removals;
    assert held'.Keys == Keys(peers);
    forall key | key in held && key in held'
      ensures held'[key].session == held[key].session
    {
      var m :| 0 <= m < |peers| && peers[m].key.Some? && peers[m].key.value == key;
      HeldSession(peers, m, |peers|, SessionOf(held, key));
    }
    forall m | 0 <= m < |peers| && peers[m].key.value in held'
      ensures held'[peers[m].key.value] == Held(peers, m, |peers|, held'[peers[m].key.value].session)
    {
      HeldSession(peers, m, |peers|, SessionOf(held, peers[m].key.value));
    }
  }

  lemma HeldSession(peers: seq<PeerConfig>, m: nat, n: nat, session: nat)
    requires m < n <= |peers|
    ensures Held(peers, m, n, session).session == session
  {
  }

  lemma UpdatedKeys(held: map<Key, Peer>, peers: seq<PeerConfig>)
    requires DistinctKeys(peers)
    ensures Configured(held, Updates(peers)).Keys == held.Keys + Keys(peers)
  {
    assert peers[..|peers|] == peers;
    if peers == [] {
      assert Updates(peers) == [];
      assert Keys(peers) == {};
    } else {
      AfterUpdates(held, peers, |peers|, 0);
    }
  }

  /** Configuring a device that already matches changes nothing, sessions included. */
  lemma ConfiguringAgain(held: map<Key, Peer>, peers: seq<PeerConfig>, removals: seq<Update>)
    requires DistinctKeys(peers) && PeersMatch(held, peers) && Removals(removals, held.Keys - Keys(peers))
    ensures Configured(held, Updates(peers) + removals) == held
  {
    ConfiguredPeers(held, peers, removals);
    var held' := Configured(held, Updates(peers) + removals);
    hide Configured, Updates;
    forall key | key in held
      ensures key in held' && held'[key] == held[key]
    {
      var m :| 0 <= m < |peers| && peers[m].key.Some? && peers[m].key.value == key;
    }
  }

  predicate DisjointSubnets(peers: seq<PeerConfig>) {
    forall m, n :: 0 <= m < n < |peers| ==> Nets(peers[m].allowed) !! Nets(peers[n].allowed)
  }

  lemma {:induction false} ListedLaterHolds(peers: seq<PeerConfig>, m: nat, n: nat, net: Net)
    requires n <= |peers|
    ensures net in ListedLater(peers, m, n) <==> exists j :: m < j < n && net in Nets(peers[j].allowed)
    decreases n
  {
    if n <= m + 1 {
    } else {
      ListedLaterHolds(peers, m, n - 1, net);
    }
  }

  /** Every peer gets all the subnets it lists if and only if no two list the same one. */
  lemma AllowedIPsAreExact(held: map<Key, Peer>, peers: seq<PeerConfig>)
    requires DistinctKeys(peers) && PeersMatch(held, peers)
    ensures (forall m :: 0 <= m < |peers| ==>
               peers[m].key.value in held && held[peers[m].key.value].allowed == Nets(peers[m].allowed))
            <==> DisjointSubnets(peers)
  {
    forall m | 0 <= m < |peers|
      ensures peers[m].key.value in held
      ensures held[peers[m].key.value].allowed == Nets(peers[m].allowed) - ListedLater(peers, m, |peers|)
    {
      assert peers[m].key.value in Keys(peers);
    }
    if DisjointSubnets(peers) {
      forall m | 0 <= m < |peers|
        ensures held[peers[m].key.value].allowed == Nets(peers[m].allowed)
      {
        forall net | net in Nets(peers[m].allowed)
          ensures net !in ListedLater(peers, m, |peers|)
        {
          ListedLaterHolds(peers, m, |peers|, net);
        }
      }
    } else {
      var m, n :| 0 <= m < n < |peers| && !(Nets(peers[m].allowed) !! Nets(peers[n].allowed));
      var net :| net in Nets(peers[m].allowed) && net in Nets(peers[n].allowed);
      ListedLaterHolds(peers, m, |peers|, net);
      assert net !in held[peers[m].key.value].allowed;
    }
  }

  // ----- the whole of it -----

  /** The kernel is as the configuration wants it. */
  predicate InPlace(k: Kernel, cfg: Config)
    reads k
  {
    && k.up
    && cfg.address.Some? && k.addresses == {cfg.address.value}
    && PeersMatch(k.peers, cfg.peers)
    && RoutesMatch(k.routes, Subnets(cfg.peers), cfg.address.value.net)
  }

  lemma AlreadyRouted(routes: set<Route>, wanted: set<Net>, hostRoutes: set<Route>, connected: Net)
    requires connected !in wanted && RoutesMatch(routes, wanted, connected)
    ensures forall net :: net in wanted ==> Routable(net, routes, hostRoutes, connected)
  {
  }

  method Apply(k: Kernel, cfg: Config) returns (ok: bool)
    modifies k
    ensures ok && DistinctKeys(cfg.peers) ==> InPlace(k, cfg)
    ensures ok ==> cfg.address.Some?
    ensures ok && old(k.Connected()) ==> Route(Some(cfg.address.value.net), 0) in k.routes
    ensures ok && DistinctKeys(cfg.peers) ==> forall key :: key in old(k.peers) && key in k.peers ==>
            k.peers[key].session == old(k.peers)[key].session
    ensures (old(InPlace(k, cfg)) && DistinctKeys(cfg.peers) && cfg.address.value.net !in Subnets(cfg.peers)) ==>
              && InPlace(k, cfg) && k.changes == old(k.changes)
              && k.addresses == old(k.addresses) && k.peers == old(k.peers) && k.routes == old(k.routes)
              && (k.Healthy() && WellFormed(cfg) ==> ok)
    ensures k.Healthy() && WellFormed(cfg) ==>
              (ok <==> forall net :: net in Subnets(cfg.peers) ==>
                         Routable(net, Linked(old(k.up), old(k.routes), old(k.addresses), cfg.address.value),
                                  k.hostRoutes, cfg.address.value.net))
  {
    hide PeersMatch, RoutesMatch, Routable, Configured, Updates, Subnets, Keys, Removals, DistinctKeys;
    if InPlace(k, cfg) && cfg.address.value.net !in Subnets(cfg.peers) {
      AlreadyRouted(k.routes, Subnets(cfg.peers), k.hostRoutes, cfg.address.value.net);
    }
    var linked := k.Call();
    if !linked {
      return false;
    }
    ok := EnsureAddress(k, cfg.address);
    if !ok {
      return false;
    }
    ok := k.LinkSetUp();
    if !ok {
      return false;
    }
    ghost var held := k.peers;
    ghost var removals;
    ok, removals := ApplyPeers(k, cfg);
    if !ok {
      return false;
    }
    if DistinctKeys(cfg.peers) {
      ConfiguredPeers(held, cfg.peers, removals);
      if PeersMatch(held, cfg.peers) {
        ConfiguringAgain(held, cfg.peers, removals);
      }
    }
    assert Route(Some(cfg.address.value.net), 0) in ConnectedRoutes(k.addresses);
    assert k.routes == Linked(old(k.up), old(k.routes), old(k.addresses), cfg.address.value);
    ok := SyncRoutes(k, cfg);
  }
}
