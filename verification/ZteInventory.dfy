/** What the ZTE driver knows of each ONU's identity, read for a list of ONUs or reported one PON port at a time. */
module ZteInventory {
  import opened BatchReads
  import opened Locations
  import opened OidSpace
  import opened Options
  import opened ZteReads

  datatype InventoryColumn =
    SerialNumber | Name | Description | DeviceType | HardwareVersion | IPAddress | MACAddress

  const INVENTORY_COLUMNS :=
    [SerialNumber, Name, Description, DeviceType, HardwareVersion, IPAddress, MACAddress]

  function InventoryOid(loc: Location, column: InventoryColumn): string {
    var onuSpace, typeSpace := OnuIdIndex(loc.slot, loc.port), TypeIndex(loc.slot, loc.port);
    match column
    case SerialNumber => Instance(ZTE_ONU_ID + ".500.10.2.3.3.1.18", onuSpace, loc.ont, "")
    case Name => Instance(ZTE_TYPE + ".3.28.1.1.2", typeSpace, loc.ont, "")
    case Description => Instance(ZTE_TYPE + ".3.28.1.1.3", typeSpace, loc.ont, "")
    case DeviceType => Instance(ZTE_TYPE + ".3.28.1.1.5", typeSpace, loc.ont, "")
    case HardwareVersion => Instance(ZTE_TYPE + ".3.50.11.2.1.2", typeSpace, loc.ont, "")
    case IPAddress => Instance(ZTE_TYPE + ".3.50.16.1.1.10", typeSpace, loc.ont, ".1")
    case MACAddress => Instance(ZTE_TYPE + ".3.50.16.1.1.3", typeSpace, loc.ont, ".1")
  }

  /** The conversions of values to text, whatever they are. */
  datatype Readers = Readers(serial: Pdu -> string, name: Pdu -> string, address: Pdu -> string, mac: Pdu -> string)

  /** Text fields: one that holds the empty text is one that is not set. An empty serial number is not even stored. */
  function TextEffect(readers: Readers, column: InventoryColumn, pdu: Pdu): Effect<string> {
    if pdu.Missing? then Keep
    else
      var text := match column
        case SerialNumber => readers.serial(pdu)
        case IPAddress => readers.address(pdu)
        case MACAddress => readers.mac(pdu)
        case _ => readers.name(pdu);
      if text != "" then Put(text) else if column.SerialNumber? then Keep else Clear
  }

  function InventoryEffect(readers: Readers): (InventoryColumn, Pdu) -> Effect<string> {
    (column: InventoryColumn, pdu: Pdu) => TextEffect(readers, column, pdu)
  }

  type Inventory = map<Location, Record<InventoryColumn, string>>

  function InventoryOf(locations: seq<Location>, get: Exchange, n: nat, readers: Readers): Inventory {
    SweptRecords(locations, INVENTORY_COLUMNS, InventoryOid, InventoryEffect(readers), INVENTORY_BATCH_SIZE, get, n)
  }

  /** How many GETs the inventory of these ONUs takes. */
  function GetsFor(locations: seq<Location>): nat {
    |Batches(Oids(RequestsFor(locations, INVENTORY_COLUMNS, InventoryOid)), INVENTORY_BATCH_SIZE)|
  }

  method FetchInventory(locations: seq<Location>, get: Exchange, n: nat, readers: Readers)
    returns (inventory: Inventory, gets: nat)
    ensures inventory == InventoryOf(locations, get, n, readers)
    ensures gets == GetsFor(locations)
  {
    var table, pending := Prepare<InventoryColumn, string>(locations, INVENTORY_COLUMNS, InventoryOid);
    var sent: seq<seq<string>>;
    inventory, sent := Sweep(table, pending, INVENTORY_BATCH_SIZE, get, n, Absorber(InventoryEffect(readers)));
    gets := |sent|;
  }

  // ----- one PON port at a time -----

  datatype Instalment = Instalment(locations: seq<Location>, inventory: Inventory)

  function PortOf(loc: Location): Location {
    Location(loc.slot, loc.port, 0)
  }

  /** The ports in the order they first appear. */
  function PortsSeen(locations: seq<Location>): seq<Location> {
    if locations == [] then []
    else
      var before, port := PortsSeen(locations[..|locations| - 1]), PortOf(locations[|locations| - 1]);
      if port in before then before else before + [port]
  }

  /** The locations on a port, in their order. */
  function OnPort(locations: seq<Location>, port: Location): seq<Location> {
    if locations == [] then []
    else
      var last := locations[|locations| - 1];
      OnPort(locations[..|locations| - 1], port) + if PortOf(last) == port then [last] else []
  }

  /** One report for each port, the GETs numbered on from one to the next. */
  function Instalments(ports: seq<Location>, locations: seq<Location>, get: Exchange, n: nat, readers: Readers)
    : seq<Instalment>
  {
    if ports == [] then []
    else
      var own := OnPort(locations, ports[0]);
      [Instalment(own, InventoryOf(own, get, n, readers))]
      + Instalments(ports[1..], locations, get, n + GetsFor(own), readers)
  }

  lemma {:induction false} PortsAreThose(locations: seq<Location>, port: Location)
    ensures port in PortsSeen(locations) <==> OnPort(locations, port) != []
    ensures forall m, n :: 0 <= m < n < |PortsSeen(locations)| ==> PortsSeen(locations)[m] != PortsSeen(locations)[n]
  {
    if locations == [] {
    } else {
      PortsAreThose(locations[..|locations| - 1], port);
    }
  }

  /** What stands under each port once a prefix of the locations was seen. */
  ghost predicate Grouped(byPort: map<Location, seq<Location>>, locations: seq<Location>) {
    && (forall key :: key in byPort <==> key in PortsSeen(locations))
    && (forall key :: key in byPort ==> byPort[key] == OnPort(locations, key))
  }

  lemma OnPortStep(locations: seq<Location>, i: nat, port: Location)
    requires i < |locations|
    ensures OnPort(locations[..i + 1], port)
         == OnPort(locations[..i], port) + if PortOf(locations[i]) == port then [locations[i]] else []
    ensures var own := PortOf(locations[i]);
            PortsSeen(locations[..i + 1])
            == PortsSeen(locations[..i]) + if own in PortsSeen(locations[..i]) then [] else [own]
  {
    assert locations[..i + 1][..i] == locations[..i];
  }

  lemma GroupOneMore(byPort: map<Location, seq<Location>>, locations: seq<Location>, i: nat)
    requires i < |locations| && Grouped(byPort, locations[..i])
    ensures var key := PortOf(locations[i]);
            var own := if key in byPort then byPort[key] else [];
            && Grouped(byPort[key := own + [locations[i]]], locations[..i + 1])
            && PortsSeen(locations[..i + 1]) == PortsSeen(locations[..i]) + if key in byPort then [] else [key]
  {
    hide OnPort, PortsSeen, PortOf;
    var key := PortOf(locations[i]);
    PortsAreThose(locations[..i], key);
    var own := if key in byPort then byPort[key] else [];
    var after := byPort[key := own + [locations[i]]];
    OnPortStep(locations, i, key);
    forall port
      ensures port in after <==> port in PortsSeen(locations[..i + 1])
      ensures port in after ==> after[port] == OnPort(locations[..i + 1], port)
    {
      OnPortStep(locations, i, port);
    }
  }

  method GroupByPort(locations: seq<Location>) returns (byPort: map<Location, seq<Location>>, order: seq<Location>)
    ensures order == PortsSeen(locations)
    ensures Grouped(byPort, locations)
  {
    byPort, order := map[], [];
    for i := 0 to |locations|
      invariant order == PortsSeen(locations[..i])
      invariant Grouped(byPort, locations[..i])
    {
      hide Grouped, PortsSeen;
      var key := PortOf(locations[i]);
      GroupOneMore(byPort, locations, i);
      if key !in byPort {
        order := order + [key];
      }
      byPort := byPort[key := (if key in byPort then byPort[key] else []) + [locations[i]]];
    }
    assert locations[..|locations|] == locations;
  }

  lemma NextInstalment(done: seq<Instalment>, order: seq<Location>, i: nat, locations: seq<Location>, get: Exchange,
                       n: nat, readers: Readers)
    requires i < |order|
    ensures var own := OnPort(locations, order[i]);
            done + Instalments(order[i..], locations, get, n, readers)
            == done + [Instalment(own, InventoryOf(own, get, n, readers))]
               + Instalments(order[i + 1..], locations, get, n + GetsFor(own), readers)
  {
    hide OnPort, InventoryOf, GetsFor;
    assert order[i..][0] == order[i] && order[i..][1..] == order[i + 1..];
  }

  method InventoryByPort(locations: seq<Location>, dialled: bool, get: Exchange, readers: Readers)
    returns (reports: Option<seq<Instalment>>)
    ensures reports == if locations == [] then Some([])
                       else if dialled then Some(Instalments(PortsSeen(locations), locations, get, 0, readers))
                       else None
  {
    if locations == [] {
      return Some([]);
    }
    if !dialled {
      return None;
    }
    var byPort, order := GroupByPort(locations);
    GroupsAreOnPort(byPort, locations);
    var done := ReportEach(byPort, order, locations, get, readers);
    reports := Some(done);
  }

  lemma GroupsAreOnPort(byPort: map<Location, seq<Location>>, locations: seq<Location>)
    requires Grouped(byPort, locations)
    ensures var order := PortsSeen(locations);
            forall i :: 0 <= i < |order| ==> order[i] in byPort && byPort[order[i]] == OnPort(locations, order[i])
  {
  }

  method ReportEach(byPort: map<Location, seq<Location>>, order: seq<Location>, ghost locations: seq<Location>,
                    get: Exchange, readers: Readers) returns (reports: seq<Instalment>)
    requires forall i :: 0 <= i < |order| ==> order[i] in byPort && byPort[order[i]] == OnPort(locations, order[i])
    ensures reports == Instalments(order, locations, get, 0, readers)
  {
    hide OnPort, InventoryOf, GetsFor, Instalments;
    var gets := 0;
    reports := [];
    assert order[0..] == order;
    for i := 0 to |order|
      invariant reports + Instalments(order[i..], locations, get, gets, readers)
             == Instalments(order, locations, get, 0, readers)
    {
      NextInstalment(reports, order, i, locations, get, gets, readers);
      var inventory, more := FetchInventory(byPort[order[i]], get, gets, readers);
      reports := reports + [Instalment(byPort[order[i]], inventory)];
      gets := gets + more;
    }
    NoInstalments(order[|order|..], locations, get, gets, readers);
  }

  lemma NoInstalments(ports: seq<Location>, locations: seq<Location>, get: Exchange, n: nat, readers: Readers)
    requires ports == []
    ensures Instalments(ports, locations, get, n, readers) == []
  {
  }

  // ----- the instalments are the whole -----

  /** All the locations reported, in the order of the reports. */
  function Reported(reports: seq<Instalment>): seq<Location> {
    if reports == [] then [] else reports[0].locations + Reported(reports[1..])
  }

  lemma {:induction false} CountOnPort(locations: seq<Location>, port: Location, loc: Location)
    ensures multiset(OnPort(locations, port))[loc] == if PortOf(loc) == port then multiset(locations)[loc] else 0
  {
    if locations == [] {
    } else {
      var last := |locations| - 1;
      CountOnPort(locations[..last], port, loc);
      assert locations == locations[..last] + [locations[last]];
    }
  }

  lemma {:induction false} CountReported(ports: seq<Location>, locations: seq<Location>, get: Exchange, n: nat,
                                         readers: Readers, loc: Location)
    requires forall a, b :: 0 <= a < b < |ports| ==> ports[a] != ports[b]
    ensures multiset(Reported(Instalments(ports, locations, get, n, readers)))[loc]
         == if PortOf(loc) in ports then multiset(locations)[loc] else 0
  {
    hide InventoryOf, GetsFor, OnPort;
    if ports == [] {
    } else {
      var own := OnPort(locations, ports[0]);
      CountOnPort(locations, ports[0], loc);
      CountReported(ports[1..], locations, get, n + GetsFor(own), readers, loc);
      assert ports == [ports[0]] + ports[1..];
      var reports := Instalments(ports, locations, get, n, readers);
      assert reports[0].locations == own
          && reports[1..] == Instalments(ports[1..], locations, get, n + GetsFor(own), readers);
    }
  }

  lemma CountOfAbsent(locations: seq<Location>, loc: Location)
    requires PortOf(loc) !in PortsSeen(locations)
    ensures multiset(locations)[loc] == 0
  {
    PortsAreThose(locations, PortOf(loc));
    CountOnPort(locations, PortOf(loc), loc);
  }

  /** Reporting by port reports every ONU asked for as often as it was asked for, and no other. */
  lemma InstalmentsAreAPermutation(locations: seq<Location>, get: Exchange, readers: Readers)
    ensures multiset(Reported(Instalments(PortsSeen(locations), locations, get, 0, readers))) == multiset(locations)
  {
    hide Instalments, PortsSeen, Reported;
    PortsAreThose(locations, Location(0, 0, 0));
    var ports := PortsSeen(locations);
    forall loc: Location
      ensures multiset(Reported(Instalments(ports, locations, get, 0, readers)))[loc] == multiset(locations)[loc]
    {
      CountReported(ports, locations, get, 0, readers, loc);
      if PortOf(loc) !in ports {
        CountOfAbsent(locations, loc);
      }
    }
  }

  /** Each report is of one port, and holds the ONUs of that port in the order they were asked for. */
  lemma {:induction false} EachReportIsItsPort(ports: seq<Location>, locations: seq<Location>, get: Exchange, n: nat,
                                               readers: Readers, k: nat) returns (m: nat)
    requires k < |ports|
    ensures var reports := Instalments(ports, locations, get, n, readers);
            && |reports| == |ports|
            && reports[k] == Instalment(OnPort(locations, ports[k]),
                                        InventoryOf(OnPort(locations, ports[k]), get, m, readers))
  {
    hide InventoryOf, GetsFor, OnPort;
    var next := n + GetsFor(OnPort(locations, ports[0]));
    if k == 0 {
      m := n;
      if 1 < |ports| {
        var unused := EachReportIsItsPort(ports[1..], locations, get, next, readers, 0);
      }
    } else {
      m := EachReportIsItsPort(ports[1..], locations, get, next, readers, k - 1);
    }
  }

  lemma OnPortHolds(locations: seq<Location>, loc: Location)
    ensures loc in OnPort(locations, PortOf(loc)) <==> loc in locations
  {
    CountOnPort(locations, PortOf(loc), loc);
    assert loc in multiset(OnPort(locations, PortOf(loc))) <==> loc in multiset(locations);
  }

  /**
   The union of the reports is the inventory read in one go: with an agent that answers in order, an ONU asked for is in
   the report of its own port, with the record the whole inventory has for it.
   */
  lemma ReportsMakeTheInventory(locations: seq<Location>, get: Exchange, get': Exchange, readers: Readers,
                                agent: string -> Pdu, loc: Location) returns (k: nat)
    requires loc in locations && Complete(get, agent) && Complete(get', agent)
    ensures var reports := Instalments(PortsSeen(locations), locations, get, 0, readers);
            && k < |reports| == |PortsSeen(locations)| && PortsSeen(locations)[k] == PortOf(loc)
            && loc in reports[k].locations && loc in reports[k].inventory
            && loc in InventoryOf(locations, get', 0, readers)
            && reports[k].inventory[loc] == InventoryOf(locations, get', 0, readers)[loc]
  {
    hide Instalments, OnPort, PortsSeen, Complete;
    var port := PortOf(loc);
    OnPortHolds(locations, loc);
    PortsAreThose(locations, port);
    k :| 0 <= k < |PortsSeen(locations)| && PortsSeen(locations)[k] == port;
    var m := EachReportIsItsPort(PortsSeen(locations), locations, get, 0, readers, k);
    BatchingIsInvisible(OnPort(locations, port), locations, INVENTORY_COLUMNS, InventoryOid, InventoryEffect(readers),
                        INVENTORY_BATCH_SIZE, INVENTORY_BATCH_SIZE, get, get', m, 0, agent, loc);
  }

  lemma InventoryColumnsDiffer()
    ensures forall a, b :: 0 <= a < b < |INVENTORY_COLUMNS| ==> INVENTORY_COLUMNS[a] != INVENTORY_COLUMNS[b]
  {
  }

  /** Whether the GET that carries this column of the k-th location came back that far. */
  predicate FieldAnswered(locations: seq<Location>, get: Exchange, n: nat, k: nat, c: nat) {
    Answered(locations, INVENTORY_COLUMNS, InventoryOid, INVENTORY_BATCH_SIZE, get, n, k, c)
  }

  /**
   With failing GETs, each field is what its own variable says if the GET that carried it answered it, and unset
   otherwise.
   */
  lemma FailedBatchUnsetsItsOwnFields(locations: seq<Location>, get: Exchange, n: nat, readers: Readers,
                                      agent: string -> Pdu, loc: Location, c: nat)
    requires loc in locations && c < |INVENTORY_COLUMNS| && InOrder(get, agent)
    ensures loc in InventoryOf(locations, get, n, readers)
    ensures var column := INVENTORY_COLUMNS[c];
            Settled(InventoryOf(locations, get, n, readers)[loc], column,
                    TextEffect(readers, column, agent(InventoryOid(loc, column))),
                    exists k: nat :: k < |locations| && locations[k] == loc && FieldAnswered(locations, get, n, k, c))
  {
    hide SweptRecords, WasHeard, InventoryOid, Answered;
    var column := INVENTORY_COLUMNS[c];
    EachColumnStandsAlone(locations, INVENTORY_COLUMNS, InventoryOid, InventoryEffect(readers), INVENTORY_BATCH_SIZE,
                          get, n, agent, loc, column);
    InventoryColumnsDiffer();
    HeardByItsOwnGet(locations, INVENTORY_COLUMNS, InventoryOid, INVENTORY_BATCH_SIZE, get, n, loc, c);
  }
}
