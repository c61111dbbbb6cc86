/**
 The object identifiers that GETs print and walks read back: decimal text, the two ZTE index spaces and the HSGQ
 index. An index is a number here; the shifts and masks of the program are shown to be the divisions used below.
 */
module OidSpace {
  import opened Locations
  import opened Options
  import opened Text

  const ONU_ID_BASE := 285278208
  const ONU_ID_SLOT_STRIDE := 256
  const ONU_TYPE_BASE := 268435456
  const ONU_TYPE_SLOT_STRIDE := 65536
  const ONU_TYPE_INCREMENT := 256

  const UINT32_LIMIT := 0x1_0000_0000
  const INT64_LIMIT := 0x8000_0000_0000_0000

  // ----- decimal text -----

  predicate IsDigit(c: char) {
    '0' <= c <= '9'
  }

  predicate AllDigits(s: string) {
    forall k :: 0 <= k < |s| ==> IsDigit(s[k])
  }

  function Digit(n: nat): char
    requires n < 10
  {
    '0' + n as char
  }

  function Digits(n: nat): string {
    if n < 10 then [Digit(n)] else Digits(n / 10) + [Digit(n % 10)]
  }

  /** What the format verb for integers prints. */
  function Decimal(n: int): string {
    if n < 0 then "-" + Digits(-n) else Digits(n)
  }

  function ValueOf(s: string): nat
    requires AllDigits(s)
  {
    if s == "" then 0
    else ValueOf(s[..|s| - 1]) * 10 + (s[|s| - 1] as int - '0' as int)
  }

  /** strconv.ParseUint in base ten for 32 bits: no sign, no empty text. */
  function ParseUint32(s: string): Option<nat> {
    if s != "" && AllDigits(s) && ValueOf(s) < UINT32_LIMIT then Some(ValueOf(s)) else None
  }

  /** strconv.Atoi: an optional sign, and the range of a 64-bit int. */
  function Atoi(s: string): Option<int> {
    var signed := s != "" && (s[0] == '-' || s[0] == '+');
    var rest := if signed then s[1..] else s;
    if rest == "" || !AllDigits(rest) then None
    else
      var magnitude: int := ValueOf(rest);
      var value := if signed && s[0] == '-' then -magnitude else magnitude;
      if -INT64_LIMIT <= value < INT64_LIMIT then Some(value) else None
  }

  lemma {:induction false} DigitsAreRead(n: nat)
    ensures Digits(n) != "" && AllDigits(Digits(n)) && ValueOf(Digits(n)) == n
  {
    if n < 10 {
    } else {
      DigitsAreRead(n / 10);
      assert Digits(n)[..|Digits(n)| - 1] == Digits(n / 10);
    }
  }

  lemma AtoiOfDigits(digits: string)
    requires digits != "" && AllDigits(digits)
    ensures Atoi(digits) == if ValueOf(digits) < INT64_LIMIT then Some(ValueOf(digits)) else None
  {
    hide ValueOf;
    assert IsDigit(digits[0]);
  }

  lemma AtoiOfNegative(digits: string)
    requires digits != "" && AllDigits(digits)
    ensures Atoi("-" + digits) == if ValueOf(digits) <= INT64_LIMIT then Some(-(ValueOf(digits) as int)) else None
  {
    hide ValueOf;
    assert ("-" + digits)[1..] == digits;
  }

  lemma DecimalIsAtoi(n: int)
    ensures '.' !in Decimal(n)
    ensures Atoi(Decimal(n)) == if -INT64_LIMIT <= n < INT64_LIMIT then Some(n) else None
  {
    hide Atoi, Digits, ValueOf;
    if n < 0 {
      DigitsAreRead(-n);
      AtoiOfNegative(Digits(-n));
    } else {
      DigitsAreRead(n);
      AtoiOfDigits(Digits(n));
    }
  }

  lemma DecimalIsUint32(n: int)
    ensures '.' !in Decimal(n)
    ensures ParseUint32(Decimal(n)) == if 0 <= n < UINT32_LIMIT then Some(n) else None
  {
    DigitsAreRead(if n < 0 then -n else n);
    if n < 0 {
      assert !IsDigit(Decimal(n)[0]);
    }
  }

  // ----- dotted text -----

  function Bare(oid: string): string {
    if oid != "" && oid[0] == '.' then oid[1..] else oid
  }

  /** What follows the table in an object identifier. */
  function SuffixOf(oid: string, base: string): Option<string> {
    var prefix := Bare(base) + ".";
    if prefix <= Bare(oid) then Some(Bare(oid)[|prefix|..]) else None
  }

  /** The first two arcs of a suffix of at least two, as an index and an ONU number. */
  function Arcs(suffix: string): Option<(nat, int)> {
    var (first, rest) := Cut(suffix, '.');
    if rest.None? then None
    else
      var index, onu := ParseUint32(first), Atoi(Cut(rest.value, '.').0);
      if index.Some? && onu.Some? then Some((index.value, onu.value)) else None
  }

  /** The instance a GET names: the table, the index, the ONU number, and any further arcs. */
  function Instance(table: string, index: int, onu: int, tail: string): string {
    table + "." + Decimal(index) + "." + Decimal(onu) + tail
  }

  /** Either nothing or further arcs. */
  predicate IsTail(tail: string) {
    tail == "" || tail[0] == '.'
  }

  lemma SuffixOfInstance(table: string, index: int, onu: int, tail: string)
    requires table != ""
    ensures SuffixOf(Instance(table, index, onu, tail), table)
         == Some(Decimal(index) + "." + (Decimal(onu) + tail))
  {
    hide Decimal;
    var oid, rest := Instance(table, index, onu, tail), Decimal(index) + "." + (Decimal(onu) + tail);
    assert oid == table + "." + rest;
    assert Bare(oid) == (Bare(table) + ".") + rest;
  }

  lemma ArcsOfInstance(table: string, index: int, onu: int, tail: string)
    requires table != "" && IsTail(tail)
    ensures var suffix := SuffixOf(Instance(table, index, onu, tail), table);
            && suffix.Some?
            && Arcs(suffix.value)
               == if 0 <= index < UINT32_LIMIT && -INT64_LIMIT <= onu < INT64_LIMIT then Some((index, onu)) else None
  {
    hide Decimal, Cut, ParseUint32, Atoi, SuffixOf, Instance;
    SuffixOfInstance(table, index, onu, tail);
    DecimalIsUint32(index);
    DecimalIsAtoi(onu);
    CutAtSeparator(Decimal(index), '.', Decimal(onu) + tail);
    if tail == "" {
      assert Decimal(onu) + tail == Decimal(onu);
      CutWithoutSeparator(Decimal(onu), '.');
    } else {
      assert Decimal(onu) + tail == Decimal(onu) + "." + tail[1..];
      CutAtSeparator(Decimal(onu), '.', tail[1..]);
    }
  }

  // ----- the TYPE space: one index per slot and port, 0x10SSPP00 -----

  function TypeIndex(slot: int, port: int): int {
    ONU_TYPE_BASE + slot * ONU_TYPE_SLOT_STRIDE + port * ONU_TYPE_INCREMENT
  }

  /** decodeZxGponIfIndex, its fields read by division. */
  function DecodeZxGpon(index: nat): Option<(int, int)> {
    var frame, slot, port := index / 0x100_0000 % 0x100, index / 0x1_0000 % 0x100, index / 0x100 % 0x100;
    if frame != 0x10 || slot == 0 || port == 0 then None else Some((slot, port))
  }

  /** The older decoder of the same space, by offset from the base. */
  function DecodeOnuType(index: nat): Option<(int, int)> {
    if index < ONU_TYPE_BASE then None
    else
      var offset := index - ONU_TYPE_BASE;
      var slot, port := offset / ONU_TYPE_SLOT_STRIDE, offset % ONU_TYPE_SLOT_STRIDE / ONU_TYPE_INCREMENT;
      if slot == 0 || port == 0 then None else Some((slot, port))
  }

  function ParseZxGpon(oid: string, base: string): Option<Location> {
    var suffix := SuffixOf(oid, base);
    var arcs := if suffix.Some? then Arcs(suffix.value) else None;
    var place := if arcs.Some? then DecodeZxGpon(arcs.value.0) else None;
    if place.Some? then Some(Location(place.value.0, place.value.1, arcs.value.1)) else None
  }

  // ----- the ONU-ID space: 0x1101SSPP -----

  function OnuIdIndex(slot: int, port: int): int {
    ONU_ID_BASE + slot * ONU_ID_SLOT_STRIDE + port
  }

  function DecodeOnuId(index: nat): Option<(int, int)> {
    if index < ONU_ID_BASE then None
    else
      var slot, port := (index - ONU_ID_BASE) / ONU_ID_SLOT_STRIDE, (index - ONU_ID_BASE) % ONU_ID_SLOT_STRIDE;
      if slot == 0 || port == 0 then None else Some((slot, port))
  }

  function ParseOnuId(oid: string, base: string): Option<Location> {
    var suffix := SuffixOf(oid, base);
    var arcs := if suffix.Some? then Arcs(suffix.value) else None;
    var place := if arcs.Some? then DecodeOnuId(arcs.value.0) else None;
    if place.Some? then Some(Location(place.value.0, place.value.1, arcs.value.1)) else None
  }

  // ----- GETs and walks name the same ONU -----

  predicate FitsAtoi(n: int) {
    -INT64_LIMIT <= n < INT64_LIMIT
  }

  /** The locations whose TYPE-space instances come back as themselves. */
  predicate TypeAddressable(loc: Location) {
    1 <= loc.slot <= 255 && 1 <= loc.port <= 255 && FitsAtoi(loc.ont)
  }

  predicate OnuIdAddressable(loc: Location) {
    1 <= loc.slot && 1 <= loc.port <= 255 && OnuIdIndex(loc.slot, loc.port) < UINT32_LIMIT && FitsAtoi(loc.ont)
  }

  lemma TypeIndexDecodes(slot: int, port: int)
    ensures var index := TypeIndex(slot, port);
            (0 <= index < UINT32_LIMIT && DecodeZxGpon(index) == Some((slot, port)))
            <==> 1 <= slot <= 255 && 1 <= port <= 255
  {
    var index := TypeIndex(slot, port);
    if 1 <= slot <= 255 && 1 <= port <= 255 {
      assert index / 0x100 == 0x10_0000 + slot * 0x100 + port;
      assert index / 0x1_0000 == 0x1000 + slot;
      assert index / 0x100_0000 == 0x10;
    }
  }

  lemma OnuIdIndexDecodes(slot: int, port: int)
    ensures var index := OnuIdIndex(slot, port);
            (0 <= index < UINT32_LIMIT && DecodeOnuId(index) == Some((slot, port)))
            <==> 1 <= slot && 1 <= port <= 255 && index < UINT32_LIMIT
  {
    var index := OnuIdIndex(slot, port);
    if 1 <= slot && 1 <= port <= 255 {
      assert (index - ONU_ID_BASE) / 256 == slot;
    }
  }

  /** The instances that metric, status and name GETs print parse back to the same ONU exactly for bytes above zero. */
  lemma TypeInstanceParsesBack(table: string, loc: Location, tail: string)
    requires table != "" && IsTail(tail)
    ensures ParseZxGpon(Instance(table, TypeIndex(loc.slot, loc.port), loc.ont, tail), table) == Some(loc)
            <==> TypeAddressable(loc)
  {
    hide SuffixOf, Arcs, Instance, DecodeZxGpon, TypeIndex;
    ArcsOfInstance(table, TypeIndex(loc.slot, loc.port), loc.ont, tail);
    TypeIndexDecodes(loc.slot, loc.port);
  }

  /** So do the instances of rates and serial numbers, whose slot may be anything that fits the index. */
  lemma OnuIdInstanceParsesBack(table: string, loc: Location, tail: string)
    requires table != "" && IsTail(tail)
    ensures ParseOnuId(Instance(table, OnuIdIndex(loc.slot, loc.port), loc.ont, tail), table) == Some(loc)
            <==> OnuIdAddressable(loc)
  {
    hide SuffixOf, Arcs, Instance, DecodeOnuId, OnuIdIndex;
    ArcsOfInstance(table, OnuIdIndex(loc.slot, loc.port), loc.ont, tail);
    OnuIdIndexDecodes(loc.slot, loc.port);
  }

  /** No two ONUs share an instance of a table, in either space. */
  lemma InstancesAreDistinct(table: string, a: Location, b: Location, tail: string)
    requires table != "" && IsTail(tail) && TypeAddressable(a) && TypeAddressable(b) && a != b
    ensures Instance(table, TypeIndex(a.slot, a.port), a.ont, tail)
         != Instance(table, TypeIndex(b.slot, b.port), b.ont, tail)
    ensures Instance(table, OnuIdIndex(a.slot, a.port), a.ont, tail)
         != Instance(table, OnuIdIndex(b.slot, b.port), b.ont, tail)
  {
    hide ParseZxGpon, ParseOnuId, Instance;
    TypeInstanceParsesBack(table, a, tail);
    TypeInstanceParsesBack(table, b, tail);
    OnuIdInstanceParsesBack(table, a, tail);
    OnuIdInstanceParsesBack(table, b, tail);
  }

  /** An index by its four bytes, the first unbounded. */
  lemma Bytes(index: nat, f: nat, s: nat, p: nat, l: nat)
    requires s < 0x100 && p < 0x100 && l < 0x100
    requires index == f * 0x100_0000 + s * 0x1_0000 + p * 0x100 + l
    ensures index / 0x100 == f * 0x1_0000 + s * 0x100 + p && index / 0x1_0000 == f * 0x100 + s
    ensures index / 0x100_0000 == f
    ensures index / 0x100 % 0x100 == p && index / 0x1_0000 % 0x100 == s
    ensures index % 0x1_0000 / 0x100 == p
  {
    assert index % 0x1_0000 == p * 0x100 + l;
  }

  lemma BytesOf(index: nat) returns (f: nat, s: nat, p: nat, l: nat)
    ensures s < 0x100 && p < 0x100 && l < 0x100
    ensures index == f * 0x100_0000 + s * 0x1_0000 + p * 0x100 + l
  {
    l := index % 0x100;
    p := index / 0x100 % 0x100;
    s := index / 0x100 / 0x100 % 0x100;
    f := index / 0x100 / 0x100 / 0x100;
  }

  /** The two decoders of the TYPE space part company exactly at a port above the 0x10 frame. */
  lemma DecodersAgree(index: nat)
    requires index < UINT32_LIMIT
    ensures DecodeOnuType(index) == DecodeZxGpon(index)
            <==> index < ONU_TYPE_BASE + 0x100_0000 || index / 0x100 % 0x100 == 0
  {
    var f, s, p, l := BytesOf(index);
    Bytes(index, f, s, p, l);
    if ONU_TYPE_BASE <= index {
      Bytes(index - ONU_TYPE_BASE, f - 0x10, s, p, l);
    }
  }

  // ----- shifts and masks -----

  function EncodeZxGpon(frame: bv32, slot: bv32, port: bv32): bv32 {
    ((frame & 0xff) << 24) | ((slot & 0xff) << 16) | ((port & 0xff) << 8)
  }

  function EncodeOnuId(frame: bv32, slot: bv32, port: bv32): bv32 {
    (frame << 28) | (0x1101 << 16) | ((slot & 0xff) << 8) | (port & 0xff)
  }

  /** For bytes, packing the fields is adding the strides: the index the GETs compute. */
  lemma PackedIsAdditive(slot: bv32, port: bv32)
    requires slot <= 255 && port <= 255
    ensures EncodeZxGpon(0x10, slot, port) == 268435456 + slot * 65536 + port * 256
    ensures EncodeOnuId(1, slot, port) == 285278208 + slot * 256 + port
  {
  }

  /** The shifts and masks of the decoders are divisions and remainders. */
  lemma ShiftsAreDivisions(index: bv32)
    ensures (index >> 24) & 0xff == index / 0x100_0000 % 0x100
    ensures (index >> 16) & 0xff == index / 0x1_0000 % 0x100
    ensures (index >> 8) & 0xff == index / 0x100 % 0x100
  {
  }

  // ----- HSGQ: 0x0100PPNN -----

  function HsgqIndex(port: int, onu: int): nat {
    0x0100_0000 + port % 0x100 * 0x100 + onu % 0x100
  }

  function HsgqLocation(index: nat): Location {
    Location(0, index / 0x100 % 0x100, index % 0x100)
  }

  /** hsgqParseSuffix: the index in front of exactly this tail. */
  function HsgqParseSuffix(suffix: string, tail: string): Option<nat> {
    var (first, rest) := Cut(suffix, '.');
    if (if rest.Some? then rest.value else "") != tail then None
    else
      var index := ParseUint32(first);
      if index.Some? && index.value != 0 then index else None
  }

  lemma HsgqUnpacksWhatItPacks(port: int, onu: int)
    ensures HsgqLocation(HsgqIndex(port, onu)) == Location(0, port, onu) <==> 0 <= port <= 255 && 0 <= onu <= 255
  {
    var p, o := port % 0x100, onu % 0x100;
    assert HsgqIndex(port, onu) / 0x100 == 0x1_0000 + p;
  }

  lemma HsgqPacksWhatItUnpacks(index: nat)
    ensures HsgqIndex(HsgqLocation(index).port, HsgqLocation(index).ont) == index
            <==> 0x0100_0000 <= index <= 0x0100_FFFF
  {
    var f, s, p, l := BytesOf(index);
    Bytes(index, f, s, p, l);
    assert index % 0x100 == l;
  }

  /** A row of a walk in front of the wanted tail is read back as the ONU whose index a GET prints; any other is not. */
  lemma HsgqRowIsItsOnu(port: int, onu: int, rest: string, tail: string)
    requires 0 <= port <= 255 && 0 <= onu <= 255
    ensures var row := Decimal(HsgqIndex(port, onu)) + if rest == "" then "" else "." + rest;
            && HsgqParseSuffix(row, tail) == (if rest == tail then Some(HsgqIndex(port, onu)) else None)
            && HsgqLocation(HsgqIndex(port, onu)) == Location(0, port, onu)
  {
    hide Decimal, Cut, ParseUint32;
    var index := HsgqIndex(port, onu);
    HsgqUnpacksWhatItPacks(port, onu);
    DecimalIsUint32(index);
    if rest == "" {
      assert Decimal(index) + "" == Decimal(index);
      CutWithoutSeparator(Decimal(index), '.');
    } else {
      assert Decimal(index) + ("." + rest) == Decimal(index) + "." + rest;
      CutAtSeparator(Decimal(index), '.', rest);
    }
  }

  /** Any row: an index other than zero in front of exactly the wanted tail, and nothing else, is read. */
  lemma HsgqRowsAre(first: string, rest: Option<string>, tail: string)
    requires '.' !in first
    ensures HsgqParseSuffix(if rest.Some? then first + "." + rest.value else first, tail) ==
              if tail == (if rest.Some? then rest.value else "") && ParseUint32(first) != Some(0)
              then ParseUint32(first)
              else None
  {
    hide Cut, ParseUint32;
    if rest.Some? {
      CutAtSeparator(first, '.', rest.value);
    } else {
      CutWithoutSeparator(first, '.');
    }
  }
}
