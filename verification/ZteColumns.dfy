/**
 What the ZTE reads ask for and what they make of the answers, spelled out: the object identifiers as texts, the batches
 and readings as numbers.
 */
module ZteColumns {
  import opened BatchReads
  import opened Locations
  import opened OidSpace
  import opened Options
  import opened Text
  import opened ZteInventory
  import opened ZteReads

  // ----- decimal texts -----

  /** A number prints as its digits, a negative one behind a minus sign. */
  lemma DecimalIs(n: int)
    ensures 0 <= n < 10 ==> Decimal(n) == ["0123456789"[n]]
    ensures 10 <= n ==> Decimal(n) == Decimal(n / 10) + ["0123456789"[n % 10]]
    ensures n < 0 ==> Decimal(n) == "-" + Decimal(-n)
  {
  }

  function Zeros(k: nat): string {
    if k == 0 then "" else Zeros(k - 1) + "0"
  }

  lemma {:induction false} ZerosAreDigits(k: nat)
    ensures AllDigits(Zeros(k)) && ValueOf(Zeros(k)) == 0
  {
    if k != 0 {
      ZerosAreDigits(k - 1);
      assert Zeros(k)[..|Zeros(k)| - 1] == Zeros(k - 1);
    }
  }

  lemma {:induction false} ZerosInFront(k: nat, n: nat)
    ensures AllDigits(Zeros(k) + Digits(n)) && ValueOf(Zeros(k) + Digits(n)) == n
    decreases n
  {
    ZerosAreDigits(k);
    DigitsAreRead(n);
    var s := Zeros(k) + Digits(n);
    if n < 10 {
      assert s[..|s| - 1] == Zeros(k);
    } else {
      ZerosInFront(k, n / 10);
      assert s[..|s| - 1] == Zeros(k) + Digits(n / 10);
    }
  }

  /** Digits are those of their value, behind some zeros. */
  lemma {:induction false} DigitsBehindZeros(s: string) returns (k: nat)
    requires s != "" && AllDigits(s)
    ensures s == Zeros(k) + Digits(ValueOf(s))
  {
    var earlier, last := s[..|s| - 1], s[|s| - 1];
    assert s == earlier + [last] && IsDigit(last);
    assert [Digit(last as int - '0' as int)] == [last];
    if earlier == "" {
      k := 0;
      assert ValueOf(earlier) == 0;
    } else {
      k := DigitsBehindZeros(earlier);
      if ValueOf(earlier) == 0 {
        assert Digits(0) == "0";
        k := k + 1;
      } else {
        var n, d := ValueOf(earlier), last as int - '0' as int;
        assert ValueOf(s) == n * 10 + d && (n * 10 + d) / 10 == n && (n * 10 + d) % 10 == d;
        assert Zeros(k) + Digits(n) + [last] == Zeros(k) + (Digits(n) + [last]);
      }
    }
  }

  /** An index is read from its decimal text, with any zeros in front, and from nothing else. */
  lemma IndexTexts(s: string, n: nat)
    ensures ParseUint32(s) == Some(n) <==> n < 0x1_0000_0000 && exists k: nat :: s == Zeros(k) + Decimal(n)
  {
    hide ValueOf, Digits, Zeros;
    DigitsAreRead(n);
    if ParseUint32(s) == Some(n) {
      var k := DigitsBehindZeros(s);
      assert s == Zeros(k) + Decimal(n);
    }
    forall k: nat | s == Zeros(k) + Decimal(n)
      ensures s != "" && AllDigits(s) && ValueOf(s) == n
    {
      ZerosInFront(k, n);
    }
  }

  /** An ONU number may carry a sign too. */
  lemma NumberTexts(s: string, n: int)
    ensures Atoi(s) == Some(n) <==>
              && -0x8000_0000_0000_0000 <= n < 0x8000_0000_0000_0000
              && exists k: nat ::
                   || (0 <= n && s == Zeros(k) + Decimal(n))
                   || (0 <= n && s == "+" + (Zeros(k) + Decimal(n)))
                   || (n <= 0 && s == "-" + (Zeros(k) + Decimal(-n)))
  {
    hide ValueOf, Digits, Zeros;
    var signed := s != "" && (s[0] == '-' || s[0] == '+');
    var rest := if signed then s[1..] else s;
    assert signed ==> s == [s[0]] + rest;
    var m: nat := if n < 0 then -n else n;
    DigitsAreRead(m);
    if Atoi(s) == Some(n) {
      var k := DigitsBehindZeros(rest);
      assert rest == Zeros(k) + Digits(m);
    }
    forall k: nat
      ensures rest == Zeros(k) + Digits(m) ==> rest != "" && AllDigits(rest) && ValueOf(rest) == m
      ensures s == Zeros(k) + Digits(m) ==> !signed
    {
      ZerosInFront(k, m);
      assert s != "" && AllDigits(s) ==> IsDigit(s[0]);
    }
  }

  // ----- what is read back -----

  /** An index is a place in the TYPE space if it is within 255 above that of a slot and a port from 1 to 255. */
  lemma TypePlacesAre(index: nat, slot: int, port: int)
    requires index < 0x1_0000_0000
    ensures DecodeZxGpon(index) == Some((slot, port)) <==>
              && 1 <= slot <= 255 && 1 <= port <= 255
              && 0 <= index - (268435456 + slot * 65536 + port * 256) <= 255
  {
    var f, s, p, l := BytesOf(index);
    OidSpace.Bytes(index, f, s, p, l);
    assert f < 0x100;
    if 1 <= slot <= 255 && 1 <= port <= 255 && 0 <= index - (268435456 + slot * 65536 + port * 256) <= 255 {
      OidSpace.Bytes(index, 0x10, slot, port, index - (268435456 + slot * 65536 + port * 256));
    }
  }

  lemma OnuIdPlacesAre(index: nat, slot: int, port: int)
    ensures DecodeOnuId(index) == Some((slot, port)) <==>
              1 <= slot && 1 <= port <= 255 && index == 285278208 + slot * 256 + port
  {
    if 285278208 <= index {
      var offset := index - 285278208;
      assert offset == 256 * (offset / 256) + offset % 256;
    }
  }

  /** A suffix that gives an index and an ONU number is the text of both with a dot between, and maybe more behind. */
  lemma ArcsAreThere(suffix: string) returns (first: string, second: string, tail: string)
    requires Arcs(suffix).Some?
    ensures suffix == first + "." + second + tail && IsTail(tail)
    ensures ParseUint32(first) == Some(Arcs(suffix).value.0) && Atoi(second) == Some(Arcs(suffix).value.1)
  {
    hide ParseUint32, Atoi;
    var rest: string;
    first, rest := Cut(suffix, '.').0, Cut(suffix, '.').1.value;
    second := Cut(rest, '.').0;
    tail := if Cut(rest, '.').1.Some? then "." + Cut(rest, '.').1.value else "";
    assert rest == second + tail;
    assert suffix == first + "." + (second + tail);
  }

  /** And every such text gives them. */
  lemma ArcsAreFound(first: string, second: string, tail: string)
    requires ParseUint32(first).Some? && Atoi(second).Some? && IsTail(tail)
    ensures Arcs(first + "." + second + tail) == Some((ParseUint32(first).value, Atoi(second).value))
  {
    NoDots(first, second);
    hide ParseUint32, Atoi;
    assert first + "." + second + tail == first + "." + (second + tail);
    CutAtSeparator(first, '.', second + tail);
    if tail == "" {
      assert second + tail == second;
      CutWithoutSeparator(second, '.');
    } else {
      assert second + tail == second + "." + tail[1..];
      CutAtSeparator(second, '.', tail[1..]);
    }
  }

  lemma NoDots(first: string, second: string)
    requires ParseUint32(first).Some? && Atoi(second).Some?
    ensures '.' !in first && '.' !in second
  {
    hide ValueOf;
    assert second != "";
    var signed := second[0] == '-' || second[0] == '+';
    assert second == if signed then [second[0]] + second[1..] else second;
  }

  /** What follows the table is what stands behind it and a dot, with or without a dot in front of either. */
  lemma SuffixesAre(table: string, suffix: string)
    requires table != "" && table[0] != '.'
    ensures SuffixOf(table + "." + suffix, table) == Some(suffix)
    ensures SuffixOf("." + (table + "." + suffix), table) == Some(suffix)
    ensures SuffixOf(table + "." + suffix, "." + table) == Some(suffix)
    ensures SuffixOf("." + (table + "." + suffix), "." + table) == Some(suffix)
  {
    assert ("." + (table + "." + suffix))[1..] == table + "." + suffix && ("." + table)[1..] == table;
    assert table + "." <= table + "." + suffix;
  }

  // ----- what is asked for -----

  /** The interface of a PON port in the TYPE space, as the texts of the GETs have it. */
  function TypePlace(loc: Location): string {
    Decimal(268435456 + loc.slot * 65536 + loc.port * 256) + "." + Decimal(loc.ont)
  }

  function OnuIdPlace(loc: Location): string {
    Decimal(285278208 + loc.slot * 256 + loc.port) + "." + Decimal(loc.ont)
  }

  lemma InstanceIs(table: string, loc: Location, tail: string, dotted: string)
    requires dotted == table + "."
    ensures Instance(table, TypeIndex(loc.slot, loc.port), loc.ont, tail) == dotted + TypePlace(loc) + tail
    ensures Instance(table, OnuIdIndex(loc.slot, loc.port), loc.ont, tail) == dotted + OnuIdPlace(loc) + tail
  {
    hide Decimal;
    var i, j, d := Decimal(TypeIndex(loc.slot, loc.port)), Decimal(OnuIdIndex(loc.slot, loc.port)), Decimal(loc.ont);
    assert table + "." + i + "." + d + tail == dotted + (i + "." + d) + tail;
    assert table + "." + j + "." + d + tail == dotted + (j + "." + d) + tail;
  }

  /** The identifiers of the optical readings, up to the place. */
  function MetricPrefix(column: MetricColumn): string {
    match column
    case RxPower => ".1.3.6.1.4.1.3902.1012.3.50.12.1.1.10."
    case TxPower => ".1.3.6.1.4.1.3902.1012.3.50.12.1.1.14."
    case Temperature => ".1.3.6.1.4.1.3902.1012.3.50.12.1.1.1."
    case Voltage => ".1.3.6.1.4.1.3902.1012.3.50.12.1.1.2."
    case TxBiasCurrent => ".1.3.6.1.4.1.3902.1012.3.50.12.1.1.3."
    case Distance => ".1.3.6.1.4.1.3902.1012.3.11.4.1.2."
  }

  lemma PowerPrefixIs(column: MetricColumn)
    requires column.RxPower? || column.TxPower?
    ensures MetricPrefix(column) == MetricTable(column) + "."
  {
  }

  lemma SensorPrefixIs(column: MetricColumn)
    requires column.Temperature? || column.Voltage? || column.TxBiasCurrent?
    ensures MetricPrefix(column) == MetricTable(column) + "."
  {
  }

  lemma DistancePrefixIs()
    ensures MetricPrefix(Distance) == MetricTable(Distance) + "."
  {
  }

  lemma StatusPrefixIs()
    ensures ".1.3.6.1.4.1.3902.1012.3.28.2.1.4." == STATUS_TABLE + "."
  {
  }

  lemma NothingBehind(s: string)
    ensures s + "" == s
  {
  }

  /** Each optical reading and the phase state have their own identifier. */
  lemma MetricOidsAre(loc: Location, column: MetricColumn)
    ensures MetricOid(loc, column) == MetricPrefix(column) + TypePlace(loc) + if column.Distance? then "" else ".1"
    ensures StatusOid(loc, PhaseState) == ".1.3.6.1.4.1.3902.1012.3.28.2.1.4." + TypePlace(loc)
  {
    hide Instance, TypePlace, OnuIdPlace, TypeIndex, OnuIdIndex, MetricPrefix, MetricTable;
    match column {
      case RxPower | TxPower => PowerPrefixIs(column);
      case Temperature | Voltage | TxBiasCurrent => SensorPrefixIs(column);
      case Distance => DistancePrefixIs();
    }
    InstanceIs(MetricTable(column), loc, MetricTail(column), MetricPrefix(column));
    StatusPrefixIs();
    var status := ".1.3.6.1.4.1.3902.1012.3.28.2.1.4.";
    InstanceIs(STATUS_TABLE, loc, "", status);
    NothingBehind(status + TypePlace(loc));
  }

  function InventoryPrefix(column: InventoryColumn): string {
    match column
    case SerialNumber => ".1.3.6.1.4.1.3902.1082.500.10.2.3.3.1.18."
    case Name => ".1.3.6.1.4.1.3902.1012.3.28.1.1.2."
    case Description => ".1.3.6.1.4.1.3902.1012.3.28.1.1.3."
    case DeviceType => ".1.3.6.1.4.1.3902.1012.3.28.1.1.5."
    case HardwareVersion => ".1.3.6.1.4.1.3902.1012.3.50.11.2.1.2."
    case IPAddress => ".1.3.6.1.4.1.3902.1012.3.50.16.1.1.10."
    case MACAddress => ".1.3.6.1.4.1.3902.1012.3.50.16.1.1.3."
  }

  /** What the driver's tables are, with the dot that ends them. */
  function InventoryTable(column: InventoryColumn): string {
    match column
    case SerialNumber => ZTE_ONU_ID + ".500.10.2.3.3.1.18"
    case Name => ZTE_TYPE + ".3.28.1.1.2"
    case Description => ZTE_TYPE + ".3.28.1.1.3"
    case DeviceType => ZTE_TYPE + ".3.28.1.1.5"
    case HardwareVersion => ZTE_TYPE + ".3.50.11.2.1.2"
    case IPAddress => ZTE_TYPE + ".3.50.16.1.1.10"
    case MACAddress => ZTE_TYPE + ".3.50.16.1.1.3"
  }

  lemma SerialPrefixIs()
    ensures InventoryPrefix(SerialNumber) == InventoryTable(SerialNumber) + "."
  {
  }

  lemma NamePrefixIs(column: InventoryColumn)
    requires column.Name? || column.Description?
    ensures InventoryPrefix(column) == InventoryTable(column) + "."
  {
  }

  lemma TypePrefixIs(column: InventoryColumn)
    requires column.DeviceType? || column.HardwareVersion?
    ensures InventoryPrefix(column) == InventoryTable(column) + "."
  {
  }

  lemma AddressPrefixIs(column: InventoryColumn)
    requires column.IPAddress? || column.MACAddress?
    ensures InventoryPrefix(column) == InventoryTable(column) + "."
  {
  }

  lemma InventoryInstanceIs(loc: Location, column: InventoryColumn)
    ensures InventoryOid(loc, column) == Instance(
              InventoryTable(column),
              if column.SerialNumber? then OnuIdIndex(loc.slot, loc.port) else TypeIndex(loc.slot, loc.port),
              loc.ont, if column.IPAddress? || column.MACAddress? then ".1" else "")
  {
    hide Instance, OnuIdIndex, TypeIndex;
  }

  /** So has each field of the inventory, the serial number in the other index space. */
  lemma InventoryOidsAre(loc: Location, column: InventoryColumn)
    ensures InventoryOid(loc, column)
         == InventoryPrefix(column) + (if column.SerialNumber? then OnuIdPlace(loc) else TypePlace(loc))
            + if column.IPAddress? || column.MACAddress? then ".1" else ""
  {
    InventoryInstanceIs(loc, column);
    hide Instance, TypePlace, OnuIdPlace, TypeIndex, OnuIdIndex, InventoryOid, InventoryPrefix, InventoryTable;
    match column {
      case SerialNumber => SerialPrefixIs();
      case Name | Description => NamePrefixIs(column);
      case DeviceType | HardwareVersion => TypePrefixIs(column);
      case IPAddress | MACAddress => AddressPrefixIs(column);
    }
    InstanceIs(InventoryTable(column), loc, if column.IPAddress? || column.MACAddress? then ".1" else "",
               InventoryPrefix(column));
  }

  /** Nothing there is to read is left out. */
  lemma EveryColumnIsThere(metric: MetricColumn, field: InventoryColumn)
    ensures metric in METRIC_COLUMNS && field in INVENTORY_COLUMNS
  {
    assert METRIC_COLUMNS[0] == RxPower && METRIC_COLUMNS[1] == TxPower && METRIC_COLUMNS[2] == Temperature;
    assert METRIC_COLUMNS[3] == Voltage && METRIC_COLUMNS[4] == TxBiasCurrent && METRIC_COLUMNS[5] == Distance;
    assert INVENTORY_COLUMNS[0] == SerialNumber && INVENTORY_COLUMNS[1] == Name && INVENTORY_COLUMNS[2] == Description;
    assert INVENTORY_COLUMNS[3] == DeviceType && INVENTORY_COLUMNS[4] == HardwareVersion;
    assert INVENTORY_COLUMNS[5] == IPAddress && INVENTORY_COLUMNS[6] == MACAddress;
  }

  /** Metrics and states go out forty to a GET, the texts of the inventory ten. */
  lemma BatchesInNumbers(oids: seq<string>, j: nat)
    requires j < |oids|
    ensures var forties, tens := Batches(oids, GET_BATCH_SIZE), Batches(oids, INVENTORY_BATCH_SIZE);
            && j / 40 < |forties| && j % 40 < |forties[j / 40]| <= 40 && forties[j / 40][j % 40] == oids[j]
            && j / 10 < |tens| && j % 10 < |tens[j / 10]| <= 10 && tens[j / 10][j % 10] == oids[j]
  {
    hide Batches, Heard;
    var get: Exchange := (n, asked) => None;
    HeardIsItsOwnGet(oids, 40, get, 0, j);
    HeardIsItsOwnGet(oids, 10, get, 0, j);
    EveryRequestGoesOutOnce(oids, 40);
    EveryRequestGoesOutOnce(oids, 10);
  }

  // ----- what is made of an answer -----

  /** A number is the reading as it stands, but for the powers; anything else is no reading. */
  lemma ReadingsAre(column: MetricColumn, pdu: Pdu)
    ensures !pdu.Number? ==> MetricEffect(column, pdu) == Keep
    ensures pdu.Number? && column in [Temperature, Voltage, TxBiasCurrent, Distance] ==>
              MetricEffect(column, pdu) == Put(pdu.n)
    ensures pdu.Number? && column in [RxPower, TxPower] && !(0 <= pdu.n < 0x1_0000) ==>
              MetricEffect(column, pdu) == Put(pdu.n)
  {
    assert column in [Temperature, Voltage, TxBiasCurrent, Distance] ==> !column.RxPower? && !column.TxPower?;
  }

  /** Each field is read by its own conversion; no text leaves it unset, and no row leaves it as it was. */
  lemma FieldsAre(readers: Readers, pdu: Pdu)
    ensures pdu.Missing? ==> forall column :: TextEffect(readers, column, pdu) == Keep
    ensures !pdu.Missing? ==>
              && (readers.serial(pdu) == "" ==> TextEffect(readers, SerialNumber, pdu) == Keep)
              && (readers.serial(pdu) != "" ==> TextEffect(readers, SerialNumber, pdu) == Put(readers.serial(pdu)))
              && TextEffect(readers, IPAddress, pdu) == TextOrNone(readers.address(pdu))
              && TextEffect(readers, MACAddress, pdu) == TextOrNone(readers.mac(pdu))
              && (forall column :: column in [Name, Description, DeviceType, HardwareVersion] ==>
                    TextEffect(readers, column, pdu) == TextOrNone(readers.name(pdu)))
  {
  }

  function TextOrNone(text: string): Effect<string> {
    if text == "" then Clear else Put(text)
  }

  // ----- ports -----

  /** Two ONUs are reported together exactly if slot and port are the same. */
  lemma PortsAre(a: Location, b: Location)
    ensures PortOf(a) == PortOf(b) <==> a.slot == b.slot && a.port == b.port
  {
  }

  /** The ONUs of two lists are reported in the order of the lists. */
  lemma {:induction false} OnPortInOrder(p: seq<Location>, q: seq<Location>, port: Location)
    ensures OnPort(p + q, port) == OnPort(p, port) + OnPort(q, port)
  {
    if q == [] {
      assert p + q == p;
    } else {
      assert (p + q)[..|p + q| - 1] == p + q[..|q| - 1];
      OnPortInOrder(p, q[..|q| - 1], port);
    }
  }

  /** Ports come in the order of their first ONUs: what is appended to a list changes none already there. */
  lemma {:induction false} PortsInOrder(p: seq<Location>, q: seq<Location>)
    ensures PortsSeen(p) <= PortsSeen(p + q)
    ensures p == [] && q != [] ==> PortsSeen(q)[..1] == [PortOf(q[0])]
    decreases |q|
  {
    if q == [] {
      assert p + q == p;
    } else {
      assert (p + q)[..|p + q| - 1] == p + q[..|q| - 1];
      PortsInOrder(p, q[..|q| - 1]);
      if p == [] {
        assert p + q == q;
        if |q| > 1 {
          assert q[..|q| - 1][0] == q[0];
        }
      }
    }
  }
}
