/** The three batched reads of the ZTE driver, and the inventory it reports one PON port at a time. */
module ZteReads {
  import opened BatchReads
  import opened Locations
  import opened OidSpace
  import opened Options

  const ZTE_ONU_ID := ".1.3.6.1.4.1.3902.1082"
  const ZTE_TYPE := ".1.3.6.1.4.1.3902.1012"

  // ----- optical metrics -----

  datatype MetricColumn = RxPower | TxPower | Temperature | Voltage | TxBiasCurrent | Distance

  const METRIC_COLUMNS := [RxPower, TxPower, Temperature, Voltage, TxBiasCurrent, Distance]

  function MetricTable(column: MetricColumn): string {
    match column
    case RxPower => ZTE_TYPE + ".3.50.12.1.1.10"
    case TxPower => ZTE_TYPE + ".3.50.12.1.1.14"
    case Temperature => ZTE_TYPE + ".3.50.12.1.1.1"
    case Voltage => ZTE_TYPE + ".3.50.12.1.1.2"
    case TxBiasCurrent => ZTE_TYPE + ".3.50.12.1.1.3"
    case Distance => ZTE_TYPE + ".3.11.4.1.2"
  }

  function MetricTail(column: MetricColumn): string {
    if column.Distance? then "" else ".1"
  }

  function MetricOid(loc: Location, column: MetricColumn): string {
    Instance(MetricTable(column), TypeIndex(loc.slot, loc.port), loc.ont, MetricTail(column))
  }

  /** Raw readings; the power columns have no reading at their sentinels and hold a signed 16-bit figure otherwise. */
  function MetricEffect(column: MetricColumn, pdu: Pdu): Effect<int> {
    if !pdu.Number? then Keep
    else if !column.RxPower? && !column.TxPower? then Put(pdu.n)
    else if pdu.n == 65535 || 30000 <= pdu.n < 32768 then Clear
    else if 32768 <= pdu.n < 65536 then Put(pdu.n - 65536)
    else Put(pdu.n)
  }

  /** A power reading is a signed 16-bit figure; -1 and 30000 upwards mean there is no light. */
  lemma PowerIsSigned(column: MetricColumn, raw: int)
    requires column.RxPower? || column.TxPower?
    requires 0 <= raw < 0x1_0000
    ensures var signed := if raw < 0x8000 then raw else raw - 0x1_0000;
            MetricEffect(column, Number(raw)) == if signed == -1 || 30000 <= signed then Clear else Put(signed)
  {
  }

  // ----- requests: every column of every location, in order -----

  function ColumnsOf<C>(loc: Location, columns: seq<C>, oid: (Location, C) -> string): seq<Request<C>> {
    seq(|columns|, i requires 0 <= i < |columns| => Request(loc, columns[i], oid(loc, columns[i])))
  }

  function RequestsFor<C>(locations: seq<Location>, columns: seq<C>, oid: (Location, C) -> string): seq<Request<C>> {
    if locations == [] then []
    else RequestsFor(locations[..|locations| - 1], columns, oid) + ColumnsOf(locations[|locations| - 1], columns, oid)
  }

  /** The loop that asks for every column of every location and sets out a blank record for each. */
  method Prepare<C, V>(locations: seq<Location>, columns: seq<C>, oid: (Location, C) -> string)
    returns (table: map<Location, Record<C, V>>, pending: seq<Request<C>>)
    ensures table == Blank(locations)
    ensures pending == RequestsFor(locations, columns, oid)
  {
    table, pending := map[], [];
    for i := 0 to |locations|
      invariant table == Blank(locations[..i])
      invariant pending == RequestsFor(locations[..i], columns, oid)
    {
      table := table[locations[i] := map[]];
      pending := pending + ColumnsOf(locations[i], columns, oid);
      assert locations[..i + 1][..i] == locations[..i];
      assert locations[..i + 1] == locations[..i] + [locations[i]];
    }
    assert locations[..|locations|] == locations;
  }

  lemma {:induction false} RequestsAreNamed<C>(locations: seq<Location>, columns: seq<C>, oid: (Location, C) -> string)
    ensures Named(RequestsFor(locations, columns, oid), oid)
  {
    if locations == [] {
    } else {
      RequestsAreNamed(locations[..|locations| - 1], columns, oid);
    }
  }

  /** A location among those asked for has each of its columns among the requests. */
  lemma {:induction false} EveryColumnIsAsked<C>(locations: seq<Location>, columns: seq<C>,
                                                 oid: (Location, C) -> string, loc: Location, c: nat) returns (j: nat)
    requires loc in locations && c < |columns|
    ensures j < |RequestsFor(locations, columns, oid)|
    ensures RequestsFor(locations, columns, oid)[j] == Request(loc, columns[c], oid(loc, columns[c]))
  {
    var last := |locations| - 1;
    var before := RequestsFor(locations[..last], columns, oid);
    if locations[last] == loc {
      j := |before| + c;
    } else {
      j := EveryColumnIsAsked(locations[..last], columns, oid, loc, c);
    }
  }

  // ----- what a sweep over records leaves -----

  function SweptRecords<C(!new), V>(locations: seq<Location>, columns: seq<C>, oid: (Location, C) -> string,
                                    effect: (C, Pdu) -> Effect<V>, size: nat, get: Exchange, n: nat)
    : map<Location, Record<C, V>>
    requires 0 < size
  {
    var pending := RequestsFor(locations, columns, oid);
    Absorbed(Blank(locations), pending, HeardOf(pending, size, get, n), Absorber(effect))
  }

  /** Whether the reply that carried a column of a location came. */
  predicate WasHeard<C(==)>(locations: seq<Location>, columns: seq<C>, oid: (Location, C) -> string, size: nat,
                            get: Exchange, n: nat, loc: Location, column: C)
    requires 0 < size
  {
    var pending := RequestsFor(locations, columns, oid);
    Reached(pending, HeardOf(pending, size, get, n), loc, column)
  }

  /**
   Whatever is asked with an ONU and however its columns fall into batches, a column whose reply came holds what its own
   variable makes of it and one whose reply did not come is unset.
   */
  lemma EachColumnStandsAlone<C(!new), V>(
    locations: seq<Location>, columns: seq<C>, oid: (Location, C) -> string, effect: (C, Pdu) -> Effect<V>,
    size: nat, get: Exchange, n: nat, agent: string -> Pdu, loc: Location, column: C)
    requires 0 < size && InOrder(get, agent) && loc in locations
    ensures var table := SweptRecords(locations, columns, oid, effect, size, get, n);
            && loc in table
            && Settled(table[loc], column, effect(column, agent(oid(loc, column))),
                       WasHeard(locations, columns, oid, size, get, n, loc, column))
  {
    hide InOrder, RequestsFor, Reached, HeardOf, Settled, Absorbed;
    var pending := RequestsFor(locations, columns, oid);
    SweepIsTruthful(pending, size, get, n, agent);
    RequestsAreNamed(locations, columns, oid);
    ColumnIsItsOwnVariable(locations, pending, HeardOf(pending, size, get, n), effect, oid, agent, loc, column);
  }

  lemma SweptOnus<C(!new), V>(locations: seq<Location>, columns: seq<C>, oid: (Location, C) -> string,
                              effect: (C, Pdu) -> Effect<V>, size: nat, get: Exchange, n: nat)
    requires 0 < size
    ensures SweptRecords(locations, columns, oid, effect, size, get, n).Keys == (set l | l in locations)
  {
    var pending := RequestsFor(locations, columns, oid);
    RecordsAreThoseAskedFor(locations, pending, HeardOf(pending, size, get, n), effect);
  }

  lemma AllIsHeard<C(!new)>(locations: seq<Location>, columns: seq<C>, oid: (Location, C) -> string, size: nat,
                            get: Exchange, n: nat, agent: string -> Pdu, loc: Location, column: C)
    requires 0 < size && Complete(get, agent) && loc in locations && column in columns
    ensures WasHeard(locations, columns, oid, size, get, n, loc, column)
  {
    hide RequestsFor, HeardOf;
    var pending := RequestsFor(locations, columns, oid);
    SweepIsTruthful(pending, size, get, n, agent);
    var c :| 0 <= c < |columns| && columns[c] == column;
    var j := EveryColumnIsAsked(locations, columns, oid, loc, c);
  }

  /** The requests of the k-th location start at k times as many as there are columns. */
  lemma {:induction false} RequestAt<C>(locations: seq<Location>, columns: seq<C>, oid: (Location, C) -> string, k: nat,
                                        c: nat)
    requires k < |locations| && c < |columns|
    ensures |RequestsFor(locations, columns, oid)| == |locations| * |columns|
    ensures k * |columns| + c < |RequestsFor(locations, columns, oid)|
    ensures RequestsFor(locations, columns, oid)[k * |columns| + c]
         == Request(locations[k], columns[c], oid(locations[k], columns[c]))
  {
    var last := |locations| - 1;
    NextMultiple(last, |columns|);
    if last == 0 {
      assert RequestsFor(locations[..0], columns, oid) == [];
    } else {
      RequestAt(locations[..last], columns, oid, if k < last then k else 0, c);
    }
  }

  lemma RequestIsAt<C>(locations: seq<Location>, columns: seq<C>, oid: (Location, C) -> string, j: nat)
    returns (k: nat, c: nat)
    requires j < |RequestsFor(locations, columns, oid)|
    ensures k < |locations| && c < |columns| && j == k * |columns| + c
  {
    hide RequestsFor;
    SomeAreAsked(locations, columns, oid);
    RequestAt(locations, columns, oid, 0, 0);
    k, c := j / |columns|, j % |columns|;
    if |locations| <= k {
      if |locations| < k {
        Multiples(|locations|, k, |columns|);
      }
      assert false;
    }
  }

  lemma {:induction false} SomeAreAsked<C>(locations: seq<Location>, columns: seq<C>, oid: (Location, C) -> string)
    ensures RequestsFor(locations, columns, oid) != [] ==> locations != [] && columns != []
  {
    if locations == [] {
    } else {
      SomeAreAsked(locations[..|locations| - 1], columns, oid);
    }
  }

  /** Whether the GET that carries the c-th column of the k-th location answers it. */
  predicate Answered<C>(locations: seq<Location>, columns: seq<C>, oid: (Location, C) -> string, size: nat,
                        get: Exchange, n: nat, k: nat, c: nat)
    requires 0 < size
  {
    var oids := Oids(RequestsFor(locations, columns, oid));
    k * |columns| + c < |oids| && Carried(oids, size, get, n, k * |columns| + c)
  }

  /**
   A column was heard exactly when a GET it was itself in came back that far: for the k-th location and the c-th of m
   columns, that is place p % size of GET n + p / size, with p = k * m + c.
   */
  lemma HeardByItsOwnGet<C>(locations: seq<Location>, columns: seq<C>, oid: (Location, C) -> string, size: nat,
                            get: Exchange, n: nat, loc: Location, c: nat)
    requires 0 < size && c < |columns|
    requires forall a, b :: 0 <= a < b < |columns| ==> columns[a] != columns[b]
    ensures WasHeard(locations, columns, oid, size, get, n, loc, columns[c])
            <==> exists k: nat :: k < |locations| && locations[k] == loc
                                  && Answered(locations, columns, oid, size, get, n, k, c)
  {
    hide RequestsFor, Batches, Heard, Carried;
    var pending := RequestsFor(locations, columns, oid);
    var oids, heard := Oids(pending), HeardOf(pending, size, get, n);
    if WasHeard(locations, columns, oid, size, get, n, loc, columns[c]) {
      var j: nat :| j < |pending| && heard[j].Some? && pending[j].loc == loc && pending[j].column == columns[c];
      var k, d := RequestIsAt(locations, columns, oid, j);
      RequestAt(locations, columns, oid, k, d);
      HeardIsItsOwnGet(oids, size, get, n, j);
      assert d == c;
      assert Answered(locations, columns, oid, size, get, n, k, c);
    }
    forall k: nat | k < |locations| && locations[k] == loc && Answered(locations, columns, oid, size, get, n, k, c)
      ensures WasHeard(locations, columns, oid, size, get, n, loc, columns[c])
    {
      RequestAt(locations, columns, oid, k, c);
      HeardIsItsOwnGet(oids, size, get, n, k * |columns| + c);
    }
  }

  /** Columns that nobody asks for stay unset. */
  lemma {:induction false} NothingElseIsAsked<C>(locations: seq<Location>, columns: seq<C>,
                                                 oid: (Location, C) -> string)
    ensures forall j :: 0 <= j < |RequestsFor(locations, columns, oid)| ==>
              RequestsFor(locations, columns, oid)[j].column in columns
  {
    if locations == [] {
    } else {
      NothingElseIsAsked(locations[..|locations| - 1], columns, oid);
    }
  }

  lemma HeardIsAsked<C>(locations: seq<Location>, columns: seq<C>, oid: (Location, C) -> string, size: nat,
                        get: Exchange, n: nat, loc: Location, column: C)
    requires 0 < size && column !in columns
    ensures !WasHeard(locations, columns, oid, size, get, n, loc, column)
  {
    hide RequestsFor, HeardOf;
    NothingElseIsAsked(locations, columns, oid);
  }

  /**
   Batching is invisible: with an agent that answers every GET in order and in full, an ONU's record is the same in any
   two sweeps over its columns, whatever the company it is read in and the sizes of the batches.
   */
  lemma BatchingIsInvisible<C(!new), V>(
    locations: seq<Location>, others: seq<Location>, columns: seq<C>, oid: (Location, C) -> string,
    effect: (C, Pdu) -> Effect<V>, size: nat, size': nat, get: Exchange, get': Exchange, n: nat, n': nat,
    agent: string -> Pdu, loc: Location)
    requires 0 < size && 0 < size' && Complete(get, agent) && Complete(get', agent)
    requires loc in locations && loc in others
    ensures loc in SweptRecords(locations, columns, oid, effect, size, get, n)
    ensures loc in SweptRecords(others, columns, oid, effect, size', get', n')
    ensures SweptRecords(locations, columns, oid, effect, size, get, n)[loc]
         == SweptRecords(others, columns, oid, effect, size', get', n')[loc]
  {
    hide SweptRecords, WasHeard;
    var a := SweptRecords(locations, columns, oid, effect, size, get, n);
    var b := SweptRecords(others, columns, oid, effect, size', get', n');
    SweptOnus(locations, columns, oid, effect, size, get, n);
    SweptOnus(others, columns, oid, effect, size', get', n');
    forall column: C
      ensures column in a[loc] <==> column in b[loc]
      ensures column in a[loc] ==> a[loc][column] == b[loc][column]
    {
      EachColumnStandsAlone(locations, columns, oid, effect, size, get, n, agent, loc, column);
      EachColumnStandsAlone(others, columns, oid, effect, size', get', n', agent, loc, column);
      if column in columns {
        AllIsHeard(locations, columns, oid, size, get, n, agent, loc, column);
        AllIsHeard(others, columns, oid, size', get', n', agent, loc, column);
      } else {
        HeardIsAsked(locations, columns, oid, size, get, n, loc, column);
        HeardIsAsked(others, columns, oid, size', get', n', loc, column);
      }
    }
  }

  // ----- QueryMetricsFor -----

  function Metrics(locations: seq<Location>, get: Exchange): map<Location, Record<MetricColumn, int>> {
    SweptRecords(locations, METRIC_COLUMNS, MetricOid, MetricEffect, GET_BATCH_SIZE, get, 0)
  }

  /** None is the error of a client that could not be opened. */
  method QueryMetricsFor(locations: seq<Location>, dialled: bool, get: Exchange)
    returns (metrics: Option<map<Location, Record<MetricColumn, int>>>, sent: seq<seq<string>>)
    ensures metrics == (if locations == [] then Some(map[])
                        else if dialled then Some(Metrics(locations, get))
                        else None)
    ensures sent == if locations == [] || !dialled then []
                    else Batches(Oids(RequestsFor(locations, METRIC_COLUMNS, MetricOid)), GET_BATCH_SIZE)
  {
    if locations == [] {
      return Some(map[]), [];
    }
    if !dialled {
      return None, [];
    }
    var table, pending := Prepare<MetricColumn, int>(locations, METRIC_COLUMNS, MetricOid);
    table, sent := Sweep(table, pending, GET_BATCH_SIZE, get, 0, Absorber(MetricEffect));
    metrics := Some(table);
  }

  /** Each ONU's metrics are those it would have read alone, from an agent that answers in order. */
  lemma MetricsAreThoseReadAlone(locations: seq<Location>, get: Exchange, get': Exchange, agent: string -> Pdu,
                                 loc: Location)
    requires loc in locations && Complete(get, agent) && Complete(get', agent)
    ensures loc in Metrics(locations, get) && loc in Metrics([loc], get')
    ensures Metrics(locations, get)[loc] == Metrics([loc], get')[loc]
  {
    BatchingIsInvisible(locations, [loc], METRIC_COLUMNS, MetricOid, MetricEffect, GET_BATCH_SIZE, GET_BATCH_SIZE,
                        get, get', 0, 0, agent, loc);
  }

  lemma MetricColumnsDiffer()
    ensures forall a, b :: 0 <= a < b < |METRIC_COLUMNS| ==> METRIC_COLUMNS[a] != METRIC_COLUMNS[b]
  {
  }

  /** Whether the GET that carries this column of the k-th location came back that far. */
  predicate MetricAnswered(locations: seq<Location>, get: Exchange, k: nat, c: nat) {
    Answered(locations, METRIC_COLUMNS, MetricOid, GET_BATCH_SIZE, get, 0, k, c)
  }

  /**
   With failing GETs, each reading is the one read alone if the GET that carried it answered it, and unset otherwise.
   */
  lemma FailedBatchUnsetsItsOwnMetrics(locations: seq<Location>, get: Exchange, get': Exchange,
                                       agent: string -> Pdu, loc: Location, c: nat)
    requires loc in locations && c < |METRIC_COLUMNS| && InOrder(get, agent) && Complete(get', agent)
    ensures loc in Metrics(locations, get) && loc in Metrics([loc], get')
    ensures var reading, alone, column := Metrics(locations, get)[loc], Metrics([loc], get')[loc], METRIC_COLUMNS[c];
            if (exists k: nat :: k < |locations| && locations[k] == loc && MetricAnswered(locations, get, k, c))
               && column in alone
            then column in reading && reading[column] == alone[column]
            else column !in reading
  {
    hide SweptRecords, WasHeard, Answered, MetricOid;
    var column := METRIC_COLUMNS[c];
    EachColumnStandsAlone(locations, METRIC_COLUMNS, MetricOid, MetricEffect, GET_BATCH_SIZE, get, 0, agent, loc,
                          column);
    EachColumnStandsAlone([loc], METRIC_COLUMNS, MetricOid, MetricEffect, GET_BATCH_SIZE, get', 0, agent, loc,
                          column);
    AllIsHeard([loc], METRIC_COLUMNS, MetricOid, GET_BATCH_SIZE, get', 0, agent, loc, column);
    MetricColumnsDiffer();
    HeardByItsOwnGet(locations, METRIC_COLUMNS, MetricOid, GET_BATCH_SIZE, get, 0, loc, c);
  }

  // ----- QueryStatusFor -----

  datatype StatusColumn = PhaseState

  const STATUS_TABLE := ZTE_TYPE + ".3.28.2.1.4"

  function StatusOid(loc: Location, column: StatusColumn): string {
    Instance(STATUS_TABLE, TypeIndex(loc.slot, loc.port), loc.ont, "")
  }

  /** Readings of 30000 and above mean the OLT holds no state. */
  predicate IsPhase(pdu: Pdu) {
    pdu.Number? && pdu.n < 30000
  }

  function StatusAbsorber(): (map<Location, int>, Request<StatusColumn>, Pdu) -> map<Location, int> {
    (statuses: map<Location, int>, request: Request<StatusColumn>, pdu: Pdu) =>
      if IsPhase(pdu) then statuses[request.loc := pdu.n] else statuses
  }

  function StatusRequests(locations: seq<Location>): seq<Request<StatusColumn>> {
    seq(|locations|, i requires 0 <= i < |locations| =>
      Request(locations[i], PhaseState, StatusOid(locations[i], PhaseState)))
  }

  function Statuses(locations: seq<Location>, get: Exchange): map<Location, int> {
    var pending := StatusRequests(locations);
    Absorbed(map[], pending, HeardOf(pending, GET_BATCH_SIZE, get, 0), StatusAbsorber())
  }

  method QueryStatusFor(locations: seq<Location>, dialled: bool, get: Exchange)
    returns (statuses: Option<map<Location, int>>, sent: seq<seq<string>>)
    ensures statuses == (if locations == [] then Some(map[])
                         else if dialled then Some(Statuses(locations, get))
                         else None)
    ensures sent == if locations == [] || !dialled then []
                    else Batches(Oids(StatusRequests(locations)), GET_BATCH_SIZE)
  {
    if locations == [] {
      return Some(map[]), [];
    }
    if !dialled {
      return None, [];
    }
    var found: map<Location, int>;
    found, sent := Sweep(map[], StatusRequests(locations), GET_BATCH_SIZE, get, 0, StatusAbsorber());
    statuses := Some(found);
  }

  lemma {:induction false} StatusIsItsOwnVariable(
    pending: seq<Request<StatusColumn>>, heard: seq<Option<Pdu>>, oid: (Location, StatusColumn) -> string,
    agent: string -> Pdu, loc: Location)
    requires |pending| == |heard| && Named(pending, oid) && Truthful(pending, heard, agent)
    ensures var statuses := Absorbed(map[], pending, heard, StatusAbsorber());
            var own := agent(oid(loc, PhaseState));
            if Reached(pending, heard, loc, PhaseState) && IsPhase(own)
            then loc in statuses && statuses[loc] == own.n
            else loc !in statuses
  {
    hide Reached, Absorbed, StatusAbsorber;
    if pending == [] {
      NothingReached(pending, heard, loc, PhaseState);
      AbsorbedNothing(map[], pending, heard, StatusAbsorber());
    } else {
      var last := |pending| - 1;
      StatusIsItsOwnVariable(pending[..last], heard[..last], oid, agent, loc);
      ReachedStep(pending, heard, loc, PhaseState);
      StatusStep(pending, heard);
      var request := pending[last];
      assert request.column == PhaseState && request.oid == oid(request.loc, request.column);
      assert heard[last].Some? ==> heard[last].value == agent(oid(request.loc, PhaseState));
    }
  }

  lemma StatusStep(pending: seq<Request<StatusColumn>>, heard: seq<Option<Pdu>>)
    requires |pending| == |heard| && pending != []
    ensures var last := |pending| - 1;
            var before := Absorbed(map[], pending[..last], heard[..last], StatusAbsorber());
            Absorbed(map[], pending, heard, StatusAbsorber())
            == if heard[last].Some? && IsPhase(heard[last].value)
               then before[pending[last].loc := heard[last].value.n]
               else before
  {
  }

  lemma NothingReached<C>(pending: seq<Request<C>>, heard: seq<Option<Pdu>>, loc: Location, column: C)
    requires pending == [] && heard == []
    ensures !Reached(pending, heard, loc, column)
  {
  }

  /** Whether the GET that carries the j-th location came back that far. */
  predicate StatusAnswered(locations: seq<Location>, get: Exchange, j: nat) {
    var oids := Oids(StatusRequests(locations));
    j < |oids| && Carried(oids, GET_BATCH_SIZE, get, 0, j)
  }

  lemma StatusHeardByItsOwnGet(locations: seq<Location>, get: Exchange, loc: Location)
    ensures var pending := StatusRequests(locations);
            Reached(pending, HeardOf(pending, GET_BATCH_SIZE, get, 0), loc, PhaseState)
            <==> exists j: nat :: j < |locations| && locations[j] == loc && StatusAnswered(locations, get, j)
  {
    hide Batches, Heard, Carried, StatusOid;
    var pending := StatusRequests(locations);
    var oids, heard := Oids(pending), HeardOf(pending, GET_BATCH_SIZE, get, 0);
    if Reached(pending, heard, loc, PhaseState) {
      var j: nat :| j < |pending| && heard[j].Some? && pending[j].loc == loc;
      HeardIsItsOwnGet(oids, GET_BATCH_SIZE, get, 0, j);
      assert StatusAnswered(locations, get, j);
    }
    forall j: nat | j < |locations| && locations[j] == loc && StatusAnswered(locations, get, j)
      ensures Reached(pending, heard, loc, PhaseState)
    {
      HeardIsItsOwnGet(oids, GET_BATCH_SIZE, get, 0, j);
      assert pending[j].loc == loc && pending[j].column == PhaseState;
    }
  }

  /**
   An ONU has a status exactly when it was asked for, the GET that carried it answered it and the OLT holds a phase
   state for it; an agent that answers everything answers every location.
   */
  lemma StatusIsThatReadAlone(locations: seq<Location>, get: Exchange, agent: string -> Pdu, loc: Location)
    requires InOrder(get, agent)
    ensures var own := agent(StatusOid(loc, PhaseState));
            var answered :=
              exists j: nat :: j < |locations| && locations[j] == loc && StatusAnswered(locations, get, j);
            && (if answered && own.Number? && own.n < 30000
                then loc in Statuses(locations, get) && Statuses(locations, get)[loc] == own.n
                else loc !in Statuses(locations, get))
            && (Complete(get, agent) ==> (answered <==> loc in locations))
  {
    hide HeardOf, InOrder, Complete, StatusAnswered, StatusOid;
    var pending := StatusRequests(locations);
    var heard := HeardOf(pending, GET_BATCH_SIZE, get, 0);
    SweepIsTruthful(pending, GET_BATCH_SIZE, get, 0, agent);
    StatusIsItsOwnVariable(pending, heard, StatusOid, agent, loc);
    StatusHeardByItsOwnGet(locations, get, loc);
    if Complete(get, agent) && loc in locations {
      var i :| 0 <= i < |locations| && locations[i] == loc;
      assert pending[i].loc == loc && heard[i].Some?;
    }
  }

  /** A walk of a table files the instance a GET names under the ONU the GET was for, if that ONU is addressable. */
  lemma GetsAndWalksAgree(loc: Location, column: MetricColumn)
    ensures ParseZxGpon(MetricOid(loc, column), MetricTable(column)) == Some(loc) <==> TypeAddressable(loc)
    ensures ParseZxGpon(StatusOid(loc, PhaseState), STATUS_TABLE) == Some(loc) <==> TypeAddressable(loc)
  {
    hide ParseZxGpon, Instance, TypeAddressable;
    TypeInstanceParsesBack(MetricTable(column), loc, MetricTail(column));
    TypeInstanceParsesBack(STATUS_TABLE, loc, "");
  }
}
