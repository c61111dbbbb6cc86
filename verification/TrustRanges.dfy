/** Who is trusted, told on the numbers of the route table: addresses, divisions and powers of two. */
module TrustRanges {
  import opened Options
  import opened TrustedProxies

  function TwoTo(k: nat): (p: nat)
    ensures 0 < p
  {
    if k == 0 then 1 else 2 * TwoTo(k - 1)
  }

  lemma FarApart(d: int, n: int)
    requires 0 < d
    ensures 1 <= n ==> d <= d * n
    ensures n <= -1 ==> d * n <= -d
  {
  }

  lemma Quotient(x: nat, d: nat, q: nat, r: nat)
    requires r < d && x == d * q + r
    ensures x / d == q
  {
    var n := x / d - q;
    assert x == d * (x / d) + x % d;
    assert d * n == r - x % d;
    FarApart(d, n);
  }

  lemma HalvesFirst(x: nat, d: nat)
    requires 0 < d
    ensures x / (2 * d) == x / 2 / d
  {
    var q, r := x / 2 / d, x / 2 % d;
    assert x / 2 == d * q + r;
    assert x == 2 * d * q + (2 * r + x % 2);
    Quotient(x, 2 * d, q, 2 * r + x % 2);
  }

  lemma {:induction false} ShrIsDivision(x: nat, k: nat)
    ensures Shr(x, k) == x / TwoTo(k)
    decreases k
  {
    if k != 0 {
      ShrIsDivision(x / 2, k - 1);
      HalvesFirst(x, TwoTo(k - 1));
    }
  }

  lemma {:induction false} ShlIsMultiplication(x: nat, k: nat)
    ensures Shl(x, k) == x * TwoTo(k)
  {
    if k != 0 {
      ShlIsMultiplication(x, k - 1);
    }
  }

  /** The address lies in the block: it agrees with the base on everything above the block's size. */
  predicate In(block: Prefix, x: nat) {
    x / TwoTo(32 - block.bits) == block.base / TwoTo(32 - block.bits)
  }

  lemma ContainsIs(block: Prefix, x: nat)
    ensures block.Contains(x) <==> In(block, x)
  {
    ShrIsDivision(x, 32 - block.bits);
    ShrIsDivision(block.base, 32 - block.bits);
  }

  /** A block is written with its lowest address. */
  lemma MaskedIsAligned(x: nat, bits: Length)
    ensures var block := Masked(x, bits);
            block.bits == bits && block.base <= x < block.base + TwoTo(32 - bits) && block.base % TwoTo(32 - bits) == 0
  {
    ShrIsDivision(x, 32 - bits);
    ShlIsMultiplication(x / TwoTo(32 - bits), 32 - bits);
    Aligned(x, TwoTo(32 - bits), Masked(x, bits).base);
  }

  lemma Aligned(x: nat, d: nat, base: nat)
    requires 0 < d && base == x / d * d
    ensures base <= x < base + d && base % d == 0
  {
    assert x == d * (x / d) + x % d;
    Quotient(base, d, x / d, 0);
    assert base == d * (base / d) + base % d;
  }

  lemma TwentyBits()
    ensures TwoTo(20) == 0x10_0000
  {
    assert TwoTo(10) == 0x400;
  }

  /** 172.16.0.0 up to 172.31.255.255. */
  lemma DockerRangeIs(x: nat)
    ensures DOCKER_RANGE.Contains(x) <==> 0xAC10_0000 <= x < 0xAC20_0000
    ensures DOCKER_RANGE.bits == 12
  {
    ContainsIs(DOCKER_RANGE, x);
    TwentyBits();
  }

  /** A way out: it leads everywhere, through a gateway. */
  predicate LeadsOut(route: Route) {
    route.network.bits == 0 && route.gateway != 0
  }

  /** The link the way out leaves through: no gateway of its own, not everywhere, and the other's gateway is on it. */
  predicate OnLink(route: Route, out: Route) {
    && route.iface == out.iface && route.gateway == 0 && 0 < route.network.bits
    && In(route.network, out.gateway)
  }

  predicate IsFirstOut(routes: seq<Route>, i: nat) {
    i < |routes| && LeadsOut(routes[i]) && forall m :: 0 <= m < i ==> !LeadsOut(routes[m])
  }

  predicate IsFirstLink(routes: seq<Route>, j: nat, out: Route) {
    j < |routes| && OnLink(routes[j], out) && forall m :: 0 <= m < j ==> !OnLink(routes[m], out)
  }

  /** Whether some block of the answer holds the address. */
  predicate Trusts(trust: Trust, x: nat) {
    trust.Trusted? && exists n :: 0 <= n < |trust.blocks| && In(trust.blocks[n], x)
  }

  lemma LinkIs(route: Route, out: Route)
    ensures IsLinkTo(route, out) <==> OnLink(route, out)
  {
    ContainsIs(route.network, out.gateway);
  }

  lemma TrustsIs(blocks: seq<Prefix>, x: Address)
    ensures Trusts(Trusted(blocks), x) <==> Covers(blocks, x)
  {
    hide Prefix.Contains, In;
    forall n | 0 <= n < |blocks|
      ensures blocks[n].Contains(x) <==> In(blocks[n], x)
    {
      ContainsIs(blocks[n], x);
    }
  }

  /** Without a way out nobody is trusted, and that is the reason given. */
  lemma NoWayOut(routes: seq<Route>)
    requires forall m :: 0 <= m < |routes| ==> !LeadsOut(routes[m])
    ensures Decide(routes) == Refused(NoDefaultRoute)
  {
    var i := FirstDefaultIsFirst(routes);
    if FirstDefault(routes).Some? {
      assert LeadsOut(routes[i]);
    }
  }

  lemma OutIs(routes: seq<Route>, i: nat)
    requires IsFirstOut(routes, i)
    ensures FirstDefault(routes) == Some(routes[i])
  {
    forall m | 0 <= m < i
      ensures !IsDefault(routes[m])
    {
      assert !LeadsOut(routes[m]);
    }
    FirstDefaultIs(routes, i);
  }

  /** Nor without a subnet on its link. */
  lemma NoLink(routes: seq<Route>, i: nat)
    requires IsFirstOut(routes, i)
    requires forall m :: 0 <= m < |routes| ==> !OnLink(routes[m], routes[i])
    ensures Decide(routes) == Refused(NoLinkSubnet)
  {
    OutIs(routes, i);
    var j := FirstLinkIsFirst(routes, routes[i]);
    if FirstLink(routes, routes[i]).Some? {
      LinkIs(routes[j], routes[i]);
    }
  }

  /**
   With both, the addresses of the subnet but the gateway are trusted if the subnet is 172.16.0.0/12 or lies in it,
   and nobody otherwise.
   */
  lemma TrustInNumbers(routes: seq<Route>, i: nat, j: nat, x: Address)
    requires IsFirstOut(routes, i) && IsFirstLink(routes, j, routes[i])
    ensures var subnet := routes[j].network;
            if 12 <= subnet.bits && 0xAC10_0000 <= subnet.base < 0xAC20_0000 then
              && Decide(routes).Trusted?
              && (Trusts(Decide(routes), x) <==> In(subnet, x) && x != routes[i].gateway)
              && (Trusts(Decide(routes), x) ==> 0xAC10_0000 <= x < 0xAC20_0000)
            else Decide(routes) == Refused(OutsideRange)
  {
    var subnet := routes[j].network;
    OutIs(routes, i);
    forall m | 0 <= m <= j
      ensures IsLinkTo(routes[m], routes[i]) <==> OnLink(routes[m], routes[i])
    {
      LinkIs(routes[m], routes[i]);
    }
    hide Prefix.Contains, OnLink, IsLinkTo, LeadsOut;
    FirstLinkIs(routes, routes[i], j);
    DockerRangeIs(subnet.base);
    if 12 <= subnet.bits && 0xAC10_0000 <= subnet.base < 0xAC20_0000 {
      InNumbers(routes, i, j, x);
    }
  }

  lemma InNumbers(routes: seq<Route>, i: nat, j: nat, x: Address)
    requires i < |routes| && j < |routes|
    requires FirstDefault(routes) == Some(routes[i]) && FirstLink(routes, routes[i]) == Some(routes[j].network)
    requires OnLink(routes[j], routes[i])
    requires InRange(routes[j].network)
    ensures Decide(routes).Trusted?
    ensures Trusts(Decide(routes), x) <==> In(routes[j].network, x) && x != routes[i].gateway
    ensures Trusts(Decide(routes), x) ==> 0xAC10_0000 <= x < 0xAC20_0000
  {
    var subnet, gateway := routes[j].network, routes[i].gateway;
    ContainsIs(subnet, gateway);
    ContainsIs(subnet, x);
    DockerRangeIs(x);
    TrustsIs(Blocks(subnet, gateway), x);
    BlocksCoverAllButOne(subnet, gateway, x);
    hide Blocks, Covers, In, Trusts;
    if subnet.Contains(x) {
      NarrowerIsInside(subnet, DOCKER_RANGE, x);
    }
  }

  /** Each block of the answer is written with its lowest address. */
  lemma BlocksAreAligned(routes: seq<Route>, n: nat)
    requires Decide(routes).Trusted? && n < |Decide(routes).blocks|
    ensures var block := Decide(routes).blocks[n]; block.base % TwoTo(32 - block.bits) == 0
  {
    hide Masked, Xor;
    var gateway, subnet := FirstDefault(routes).value.gateway, FirstLink(routes, FirstDefault(routes).value).value;
    var bits := subnet.bits + 1 + n;
    MaskedIsAligned(Xor(gateway, Shl(1, 32 - bits)), bits);
    assert Decide(routes).blocks[n] == Sibling(gateway, bits);
  }
}
