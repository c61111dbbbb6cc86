/**
 Which addresses may speak for a client: the subnet the default route leaves through, minus its gateway, written as
 CIDR blocks (prefix notation: section 3.1 of RFC 4632). Addresses are 32-bit numbers; shifting and or-ing bits are
 defined by halving and doubling.
 */
module TrustedProxies {
  import opened Options

  type Address = x: nat | x < 0x1_0000_0000

  function Shr(x: nat, k: nat): nat
    decreases k
  {
    if k == 0 then x else Shr(x / 2, k - 1)
  }

  function Shl(x: nat, k: nat): nat {
    if k == 0 then x else 2 * Shl(x, k - 1)
  }

  function Xor(a: nat, b: nat): nat {
    if a == 0 && b == 0 then 0 else 2 * Xor(a / 2, b / 2) + (a % 2 + b % 2) % 2
  }

  type Length = bits: nat | bits <= 32

  datatype Prefix = Prefix(base: nat, bits: Length) {
    predicate Contains(x: nat) {
      Shr(x, 32 - bits) == Shr(base, 32 - bits)
    }
  }

  /** netip's Masked: the bits past the prefix are cleared. */
  function Masked(x: nat, bits: Length): Prefix {
    Prefix(Shl(Shr(x, 32 - bits), 32 - bits), bits)
  }

  // ----- the blocks -----

  function Octets(v: Address): seq<nat> {
    [v / 0x100_0000, v / 0x1_0000 % 0x100, v / 0x100 % 0x100, v % 0x100]
  }

  function Uint32(octets: seq<nat>): nat
    requires |octets| == 4
  {
    octets[0] * 0x100_0000 + octets[1] * 0x1_0000 + octets[2] * 0x100 + octets[3]
  }

  method PutUint32(octets: array<nat>, v: Address)
    requires octets.Length == 4
    modifies octets
    ensures octets[..] == Octets(v) && Uint32(octets[..]) == v
  {
    octets[0], octets[1], octets[2], octets[3] := v / 0x100_0000, v / 0x1_0000 % 0x100, v / 0x100 % 0x100, v % 0x100;
    assert octets[..] == Octets(v);
    OctetsSpell(v);
  }

  lemma OctetsSpell(v: Address)
    ensures Uint32(Octets(v)) == v
  {
    assert v / 0x1_0000 == v / 0x100_0000 * 0x100 + v / 0x1_0000 % 0x100;
    assert v / 0x100 == v / 0x1_0000 * 0x100 + v / 0x100 % 0x100;
  }

  /** The other half at one prefix length: the block of that length that agrees with addr on all bits but the last. */
  function Sibling(addr: Address, bits: nat): Prefix
    requires 1 <= bits <= 32
  {
    Masked(Xor(addr, Shl(1, 32 - bits)), bits)
  }

  function Blocks(subnet: Prefix, addr: Address): (blocks: seq<Prefix>)
    ensures |blocks| == 32 - subnet.bits
  {
    seq(32 - subnet.bits, (j: nat) requires j < 32 - subnet.bits => Sibling(addr, subnet.bits + 1 + j))
  }

  method ExcludeAddress(subnet: Prefix, addr: Address) returns (blocks: seq<Prefix>)
    ensures blocks == Blocks(subnet, addr)
  {
    var octets := new nat[4];
    PutUint32(octets, addr);
    var value := Uint32(octets[..]);
    blocks := [];
    var bits := subnet.bits + 1;
    while bits <= 32
      invariant subnet.bits + 1 <= bits <= 33
      invariant value == addr
      invariant blocks == Blocks(subnet, addr)[..bits - subnet.bits - 1]
    {
      FlipFits(value, 32 - bits);
      PutUint32(octets, Xor(value, Shl(1, 32 - bits)));
      var block := Masked(Uint32(octets[..]), bits);
      ghost var j := bits - subnet.bits - 1;
      assert block == Sibling(addr, bits) == Sibling(addr, subnet.bits + 1 + j);
      assert Blocks(subnet, addr)[j] == block;
      blocks := blocks + [block];
      bits := bits + 1;
    }
  }

  // ----- the routes -----

  datatype Route = Route(iface: string, network: Prefix, gateway: Address)

  datatype Refusal = NoDefaultRoute | NoLinkSubnet | OutsideRange

  datatype Trust = Trusted(blocks: seq<Prefix>) | Refused(why: Refusal)

  /** 172.16.0.0/12. */
  const DOCKER_RANGE := Prefix(0xAC10_0000, 12)

  predicate IsDefault(route: Route) {
    route.network.bits == 0 && route.gateway != 0
  }

  predicate IsLinkTo(route: Route, defaultRoute: Route) {
    && route.iface == defaultRoute.iface
    && route.gateway == 0
    && route.network.bits > 0
    && route.network.Contains(defaultRoute.gateway)
  }

  predicate InRange(subnet: Prefix) {
    subnet.bits >= DOCKER_RANGE.bits && DOCKER_RANGE.Contains(subnet.base)
  }

  function FirstDefault(routes: seq<Route>): Option<Route> {
    if routes == [] then None
    else if IsDefault(routes[0]) then Some(routes[0])
    else FirstDefault(routes[1..])
  }

  function FirstLink(routes: seq<Route>, defaultRoute: Route): Option<Prefix> {
    if routes == [] then None
    else if IsLinkTo(routes[0], defaultRoute) then Some(routes[0].network)
    else FirstLink(routes[1..], defaultRoute)
  }

  function Decide(routes: seq<Route>): Trust {
    match FirstDefault(routes)
    case None => Refused(NoDefaultRoute)
    case Some(defaultRoute) =>
      match FirstLink(routes, defaultRoute)
      case None => Refused(NoLinkSubnet)
      case Some(subnet) =>
        if InRange(subnet) then Trusted(Blocks(subnet, defaultRoute.gateway)) else Refused(OutsideRange)
  }

  method FindDefaultRoute(routes: seq<Route>) returns (found: Option<Route>)
    ensures found == FirstDefault(routes)
  {
    for n := 0 to |routes|
      invariant FirstDefault(routes) == FirstDefault(routes[n..])
    {
      if routes[n].network.bits == 0 && routes[n].gateway != 0 {
        return Some(routes[n]);
      }
    }
    return None;
  }

  method FindLinkSubnet(routes: seq<Route>, defaultRoute: Route) returns (found: Option<Prefix>)
    ensures found == FirstLink(routes, defaultRoute)
  {
    for n := 0 to |routes|
      invariant FirstLink(routes, defaultRoute) == FirstLink(routes[n..], defaultRoute)
    {
      var route := routes[n];
      if route.iface == defaultRoute.iface && route.gateway == 0 && route.network.bits > 0
         && route.network.Contains(defaultRoute.gateway) {
        return Some(route.network);
      }
    }
    return None;
  }

  method TrustedFromRoutes(routes: seq<Route>) returns (trust: Trust)
    ensures trust == Decide(routes)
  {
    var defaultRoute := FindDefaultRoute(routes);
    if defaultRoute.None? {
      return Refused(NoDefaultRoute);
    }
    var subnet := FindLinkSubnet(routes, defaultRoute.value);
    if subnet.None? {
      return Refused(NoLinkSubnet);
    }
    if subnet.value.bits < DOCKER_RANGE.bits || !DOCKER_RANGE.Contains(subnet.value.base) {
      return Refused(OutsideRange);
    }
    var blocks := ExcludeAddress(subnet.value, defaultRoute.value.gateway);
    return Trusted(blocks);
  }

  predicate Covers(blocks: seq<Prefix>, x: Address) {
    exists j :: 0 <= j < |blocks| && blocks[j].Contains(x)
  }

  // ----- the bits -----

  lemma {:induction false} ShrLast(x: nat, k: nat)
    ensures Shr(x, k + 1) == Shr(x, k) / 2
    decreases k
  {
    if k == 0 {
    } else {
      ShrLast(x / 2, k - 1);
    }
  }

  lemma {:induction false} ShrShl(x: nat, k: nat)
    ensures Shr(Shl(x, k), k) == x
  {
    if k == 0 {
    } else {
      assert Shl(x, k) / 2 == Shl(x, k - 1);
      ShrShl(x, k - 1);
    }
  }

  lemma {:induction false} XorZero(a: nat)
    ensures Xor(a, 0) == a
  {
    if a == 0 {
    } else {
      XorZero(a / 2);
    }
  }

  /** Xor with the k-th bit flips the lowest bit of what is left after shifting k bits out. */
  lemma {:induction false} FlipAbove(x: nat, k: nat)
    ensures Shr(Xor(x, Shl(1, k)), k) == (if Shr(x, k) % 2 == 0 then Shr(x, k) + 1 else Shr(x, k) - 1)
    decreases k
  {
    var b := Shl(1, k);
    if k == 0 {
      XorZero(x / 2);
    } else {
      assert b == 2 * Shl(1, k - 1);
      FlipAbove(x / 2, k - 1);
      assert Xor(x, b) / 2 == Xor(x / 2, b / 2);
    }
  }

  lemma {:induction false} XorFits(a: nat, b: nat, k: nat)
    requires a < Shl(1, k) && b < Shl(1, k)
    ensures Xor(a, b) < Shl(1, k)
    decreases k
  {
    if k == 0 {
    } else {
      XorFits(a / 2, b / 2, k - 1);
    }
  }

  lemma ShlOf32()
    ensures Shl(1, 32) == 0x1_0000_0000
  {
    assert Shl(1, 8) == 0x100;
    assert Shl(1, 16) == 0x1_0000;
    assert Shl(1, 24) == 0x100_0000;
  }

  lemma {:induction false} ShlGrows(j: nat, k: nat)
    requires j <= k
    ensures 1 <= Shl(1, j) <= Shl(1, k)
    ensures j < k ==> Shl(1, j) < Shl(1, k)
    decreases k
  {
    if j < k {
      ShlGrows(j, k - 1);
    } else if k > 0 {
      ShlGrows(j - 1, k - 1);
    }
  }

  lemma FlipFits(x: Address, k: nat)
    requires k < 32
    ensures Xor(x, Shl(1, k)) < 0x1_0000_0000
  {
    ShlOf32();
    ShlGrows(k, 32);
    XorFits(x, Shl(1, k), 32);
  }

  lemma {:induction false} CoarserAgrees(x: nat, y: nat, j: nat, k: nat)
    requires j <= k && Shr(x, j) == Shr(y, j)
    ensures Shr(x, k) == Shr(y, k)
    decreases k - j
  {
    if j == k {
    } else {
      ShrLast(x, j);
      ShrLast(y, j);
      CoarserAgrees(x, y, j + 1, k);
    }
  }

  // ----- the partition -----

  /** A sibling holds the addresses that leave addr at exactly that bit. */
  lemma SiblingHolds(addr: Address, bits: nat, x: Address)
    requires 1 <= bits <= 32
    ensures Sibling(addr, bits).Contains(x)
            <==> Shr(x, 33 - bits) == Shr(addr, 33 - bits) && Shr(x, 32 - bits) != Shr(addr, 32 - bits)
  {
    var k := 32 - bits;
    ShrShl(Shr(Xor(addr, Shl(1, k)), k), k);
    FlipAbove(addr, k);
    ShrLast(x, k);
    ShrLast(addr, k);
  }

  lemma {:induction false} FirstDifference(x: Address, addr: Address, from: nat) returns (bits: nat)
    requires from <= 32 && x != addr && Shr(x, 32 - from) == Shr(addr, 32 - from)
    ensures from < bits <= 32
    ensures Shr(x, 33 - bits) == Shr(addr, 33 - bits) && Shr(x, 32 - bits) != Shr(addr, 32 - bits)
    decreases 32 - from
  {
    if Shr(x, 31 - from) != Shr(addr, 31 - from) {
      bits := from + 1;
    } else {
      bits := FirstDifference(x, addr, from + 1);
    }
  }

  /** The blocks hold every address of the subnet but addr, and none outside it. */
  lemma BlocksCoverAllButOne(subnet: Prefix, addr: Address, x: Address)
    requires subnet.Contains(addr)
    ensures Covers(Blocks(subnet, addr), x) <==> subnet.Contains(x) && x != addr
  {
    var blocks := Blocks(subnet, addr);
    if subnet.Contains(x) && x != addr {
      var bits := FirstDifference(x, addr, subnet.bits);
      SiblingHolds(addr, bits, x);
      assert blocks[bits - subnet.bits - 1].Contains(x);
    }
    if Covers(blocks, x) {
      var j :| 0 <= j < |blocks| && blocks[j].Contains(x);
      var bits := subnet.bits + 1 + j;
      SiblingHolds(addr, bits, x);
      CoarserAgrees(x, addr, 33 - bits, 32 - subnet.bits);
    }
  }

  /** No two blocks share an address. */
  lemma BlocksAreDisjoint(subnet: Prefix, addr: Address, i: nat, j: nat, x: Address)
    requires i < j < |Blocks(subnet, addr)|
    ensures !(Blocks(subnet, addr)[i].Contains(x) && Blocks(subnet, addr)[j].Contains(x))
  {
    var b, c := subnet.bits + 1 + i, subnet.bits + 1 + j;
    SiblingHolds(addr, b, x);
    SiblingHolds(addr, c, x);
    if Shr(x, 33 - c) == Shr(addr, 33 - c) {
      CoarserAgrees(x, addr, 33 - c, 32 - b);
    }
  }

  lemma NarrowerIsInside(narrow: Prefix, wide: Prefix, x: Address)
    requires narrow.bits >= wide.bits
    requires wide.Contains(narrow.base) && narrow.Contains(x)
    ensures wide.Contains(x)
  {
    CoarserAgrees(x, narrow.base, 32 - narrow.bits, 32 - wide.bits);
  }

  // ----- who is trusted -----

  /** The first default route, and the first subnet of its own link that its gateway is in. */
  predicate TakenFrom(routes: seq<Route>, i: nat, j: nat) {
    && i < |routes| && j < |routes|
    && IsDefault(routes[i]) && (forall m :: 0 <= m < i ==> !IsDefault(routes[m]))
    && IsLinkTo(routes[j], routes[i]) && (forall m :: 0 <= m < j ==> !IsLinkTo(routes[m], routes[i]))
  }

  lemma {:induction false} FirstDefaultIsFirst(routes: seq<Route>) returns (i: nat)
    ensures FirstDefault(routes).None? ==> forall m :: 0 <= m < |routes| ==> !IsDefault(routes[m])
    ensures FirstDefault(routes).Some? ==>
              && i < |routes| && routes[i] == FirstDefault(routes).value && IsDefault(routes[i])
              && forall m :: 0 <= m < i ==> !IsDefault(routes[m])
  {
    i := 0;
    if routes != [] && !IsDefault(routes[0]) {
      i := FirstDefaultIsFirst(routes[1..]);
      i := i + 1;
    }
  }

  lemma {:induction false} FirstLinkIsFirst(routes: seq<Route>, defaultRoute: Route) returns (j: nat)
    ensures FirstLink(routes, defaultRoute).None? ==> forall m :: 0 <= m < |routes| ==>
            !IsLinkTo(routes[m], defaultRoute)
    ensures FirstLink(routes, defaultRoute).Some? ==>
              && j < |routes| && routes[j].network == FirstLink(routes, defaultRoute).value
              && IsLinkTo(routes[j], defaultRoute)
              && forall m :: 0 <= m < j ==> !IsLinkTo(routes[m], defaultRoute)
  {
    j := 0;
    if routes != [] && !IsLinkTo(routes[0], defaultRoute) {
      j := FirstLinkIsFirst(routes[1..], defaultRoute);
      j := j + 1;
    }
  }

  lemma {:induction false} FirstDefaultIs(routes: seq<Route>, i: nat)
    requires i < |routes| && IsDefault(routes[i]) && forall m :: 0 <= m < i ==> !IsDefault(routes[m])
    ensures FirstDefault(routes) == Some(routes[i])
  {
    if i == 0 {
    } else {
      assert routes[1..][i - 1] == routes[i];
      forall m | 0 <= m < i - 1
        ensures !IsDefault(routes[1..][m])
      {
        assert routes[1..][m] == routes[m + 1];
      }
      FirstDefaultIs(routes[1..], i - 1);
    }
  }

  lemma {:induction false} FirstLinkIs(routes: seq<Route>, defaultRoute: Route, j: nat)
    requires j < |routes| && IsLinkTo(routes[j], defaultRoute)
    requires forall m :: 0 <= m < j ==> !IsLinkTo(routes[m], defaultRoute)
    ensures FirstLink(routes, defaultRoute) == Some(routes[j].network)
  {
    if j == 0 {
    } else {
      assert routes[1..][j - 1] == routes[j];
      forall m | 0 <= m < j - 1
        ensures !IsLinkTo(routes[1..][m], defaultRoute)
      {
        assert routes[1..][m] == routes[m + 1];
      }
      FirstLinkIs(routes[1..], defaultRoute, j - 1);
    }
  }

  /**
   When the default route's link subnet lies in 172.16.0.0/12, exactly its addresses other than the gateway are
   trusted, and every one of them is in that range.
   */
  lemma TrustIsTheSubnetButTheGateway(routes: seq<Route>, i: nat, j: nat, x: Address)
    requires TakenFrom(routes, i, j) && InRange(routes[j].network)
    ensures Decide(routes).Trusted?
    ensures Covers(Decide(routes).blocks, x) <==> routes[j].network.Contains(x) && x != routes[i].gateway
    ensures Covers(Decide(routes).blocks, x) ==> DOCKER_RANGE.Contains(x)
  {
    FirstDefaultIs(routes, i);
    FirstLinkIs(routes, routes[i], j);
    BlocksCoverAllButOne(routes[j].network, routes[i].gateway, x);
    if routes[j].network.Contains(x) {
      NarrowerIsInside(routes[j].network, DOCKER_RANGE, x);
    }
  }

  /** Otherwise nobody is: trust is given only where such a subnet was found. */
  lemma TrustNeedsTheSubnet(routes: seq<Route>) returns (i: nat, j: nat)
    requires Decide(routes).Trusted?
    ensures TakenFrom(routes, i, j) && InRange(routes[j].network)
  {
    i := FirstDefaultIsFirst(routes);
    j := FirstLinkIsFirst(routes, routes[i]);
  }
}
