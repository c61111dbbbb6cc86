/** Which lines of a config decide each field of an ONU's service, told on the lines themselves. */
module OnuFields {
  import opened Locations
  import opened Options
  import opened OnuServices
  import opened OnuServicesProofs

  // ----- under which header a line stands -----

  /** A header or an end: whatever section was open ends with it. */
  predicate Turns(line: Line) {
    line.PortHeader? || line.SectionHeader? || line.End?
  }

  /** The last of the lines to open or end a section is number k. */
  predicate LastTurn(lines: seq<Line>, k: int) {
    && 0 <= k < |lines| && Turns(lines[k])
    && forall j :: k < j < |lines| ==> !Turns(lines[j])
  }

  predicate EndsUnder(lines: seq<Line>, header: Line) {
    exists k :: 0 <= k < |lines| && LastTurn(lines, k) && lines[k] == header
  }

  /** Line n is said inside the ONU's own section. */
  predicate Says(lines: seq<Line>, n: int, at: Location) {
    0 <= n < |lines| && !Turns(lines[n]) && EndsUnder(lines[..n], SectionHeader(at))
  }

  /** Line n registers the ONU in its port's section. */
  predicate Registers(lines: seq<Line>, n: int, at: Location) {
    && 0 <= n < |lines| && lines[n].Registration? && lines[n].ont == at.ont
    && EndsUnder(lines[..n], PortHeader(at.slot, at.port))
  }

  lemma EndsUnderStep(lines: seq<Line>, line: Line, header: Line)
    requires Turns(header)
    ensures EndsUnder(lines + [line], header) <==> if Turns(line) then line == header else EndsUnder(lines, header)
  {
    var all := lines + [line];
    if Turns(line) {
      assert LastTurn(all, |lines|);
      assert forall k :: LastTurn(all, k) ==> k == |lines|;
    } else {
      assert all[|lines|] == line;
      forall k
        ensures LastTurn(all, k) <==> LastTurn(lines, k)
      {
        assert forall j :: 0 <= j < |lines| ==> Turns(all[j]) == Turns(lines[j]);
      }
    }
  }

  /** The reader's place is the section that the last header opened, if no end came since. */
  lemma {:induction false} PlaceIsTheLastHeader(lines: seq<Line>, at: Location, slot: int, port: int)
    ensures PlaceAfter(lines).inSection && PlaceAfter(lines).location == at <==> EndsUnder(lines, SectionHeader(at))
    ensures PlaceAfter(lines).inPort && PlaceAfter(lines).slot == slot && PlaceAfter(lines).port == port
            <==> EndsUnder(lines, PortHeader(slot, port))
  {
    if lines != [] {
      var earlier, last := lines[..|lines| - 1], lines[|lines| - 1];
      assert lines == earlier + [last];
      PlaceIsTheLastHeader(earlier, at, slot, port);
      EndsUnderStep(earlier, last, SectionHeader(at));
      EndsUnderStep(earlier, last, PortHeader(slot, port));
      hide EndsUnder;
    }
  }

  /** What a line says about an ONU, by the header it stands under. */
  lemma DeedIsByTheHeader(lines: seq<Line>, n: nat, at: Location)
    requires n < |lines|
    ensures DeedOf(PlaceAfter(lines[..n]), lines[n], at)
         == if lines[n] == SectionHeader(at) then [Open]
            else if Registers(lines, n, at) then [Register(lines[n].onuType)]
            else if Says(lines, n, at) then [Say(lines[n])]
            else []
  {
    PlaceIsTheLastHeader(lines[..n], at, at.slot, at.port);
    var p := PlaceAfter(lines[..n]);
    PlaceIsTheLastHeader(lines[..n], p.location, p.slot, p.port);
    NotBoth(lines[..n], p.location, p.slot, p.port);
    hide EndsUnder, PlaceAfter;
  }

  lemma NotBoth(lines: seq<Line>, at: Location, slot: int, port: int)
    ensures !(EndsUnder(lines, SectionHeader(at)) && EndsUnder(lines, PortHeader(slot, port)))
  {
    assert forall j, k :: LastTurn(lines, j) && LastTurn(lines, k) ==> j == k;
  }

  // ----- the texts of a service -----

  datatype Field = Username | Password | VlanProfile | IpMode | OnuType

  function Value(service: Service, field: Field): string {
    match field
    case Username => service.pppoeUsername
    case Password => service.pppoePassword
    case VlanProfile => service.vlanProfile
    case IpMode => service.wanIPMode
    case OnuType => service.onuType
  }

  /** The text line n gives for a field of this ONU. */
  function Given(lines: seq<Line>, n: int, at: Location, field: Field): Option<string>
    requires 0 <= n < |lines|
  {
    if field.OnuType? then if Registers(lines, n, at) then Some(lines[n].onuType) else None
    else if Says(lines, n, at) && lines[n].WanIP? then
      match field
      case Username => lines[n].username
      case Password => lines[n].password
      case VlanProfile => lines[n].vlanProfile
      case _ => Some(lines[n].mode)
    else None
  }

  /** The text is that of the last line to give one, or empty if no line does. */
  predicate LastGiven(lines: seq<Line>, at: Location, field: Field, value: string) {
    (exists n :: 0 <= n < |lines| && IsLastToGive(lines, n, at, field) && Given(lines, n, at, field) == Some(value))
    || (value == "" && forall n :: 0 <= n < |lines| ==> Given(lines, n, at, field) == None)
  }

  predicate IsLastToGive(lines: seq<Line>, n: nat, at: Location, field: Field) {
    forall m :: n < m < |lines| ==> Given(lines, m, at, field) == None
  }

  lemma GivenEarlier(lines: seq<Line>, line: Line, n: nat, at: Location, field: Field)
    requires n < |lines|
    ensures Given(lines + [line], n, at, field) == Given(lines, n, at, field)
  {
    assert (lines + [line])[..n] == lines[..n];
  }

  lemma LastGivenStep(lines: seq<Line>, line: Line, at: Location, field: Field, value: string)
    requires LastGiven(lines, at, field, value)
    ensures LastGiven(lines + [line], at, field, OrElse(Given(lines + [line], |lines|, at, field), value))
  {
    var all := lines + [line];
    hide Given;
    forall n | 0 <= n < |lines|
      ensures Given(all, n, at, field) == Given(lines, n, at, field)
    {
      GivenEarlier(lines, line, n, at, field);
    }
    if Given(all, |lines|, at, field).Some? {
      assert IsLastToGive(all, |lines|, at, field);
    } else if n :| 0 <= n < |lines| && IsLastToGive(lines, n, at, field) && Given(lines, n, at, field) == Some(value) {
      assert IsLastToGive(all, n, at, field);
    }
  }

  lemma AppliedGives(d: Draft, line: Line, field: Field)
    requires !field.OnuType?
    ensures Value(Applied(d, line).service, field)
         == if !line.WanIP? then Value(d.service, field)
            else
              var given := match field
                           case Username => line.username
                           case Password => line.password
                           case VlanProfile => line.vlanProfile
                           case _ => Some(line.mode);
              OrElse(given, Value(d.service, field))
  {
  }

  lemma DoGives(o: Onu, deed: Deed, field: Field)
    requires !o.known ==> o == UNKNOWN
    ensures deed.Open? ==> Value(Do(o, deed).draft.service, field) == Value(o.draft.service, field)
    ensures deed.Register? ==>
              Value(Do(o, deed).draft.service, field) ==
                if field.OnuType? then deed.onuType else Value(o.draft.service, field)
    ensures deed.Say? && field.OnuType? ==> Value(Do(o, deed).draft.service, field) == Value(o.draft.service, field)
    ensures deed.Say? && !field.OnuType? ==>
              Value(Do(o, deed).draft.service, field) == Value(Applied(o.draft, deed.line).service, field)
  {
  }

  lemma UnknownIsBlank(lines: seq<Line>, at: Location)
    ensures at !in ReadAll(lines).services ==> OnuAt(ReadAll(lines), at) == UNKNOWN
  {
    EachOnuIsItsOwnLines(lines, at);
    DeedsBegin(lines, at);
    DeedsDecide(Deeds(lines, at));
  }

  lemma ReadGives(lines: seq<Line>, line: Line, at: Location, field: Field)
    ensures Value(ServiceAt(ReadAll(lines + [line]).services, at), field)
         == OrElse(Given(lines + [line], |lines|, at, field), Value(ServiceAt(ReadAll(lines).services, at), field))
  {
    var all := lines + [line];
    assert all[..|lines|] == lines && all[|lines|] == line;
    EachOnuIsItsOwnLines(lines, at);
    ReadFollows(ReadAll(lines), line, at);
    DeedIsByTheHeader(all, |lines|, at);
    UnknownIsBlank(lines, at);
    var o := OnuAt(ReadAll(lines), at);
    var deeds := DeedOf(PlaceAfter(lines), line, at);
    assert ReadAll(all) == Read(ReadAll(lines), line);
    hide ReadAll, Read, PlaceAfter, DeedOf, EndsUnder, Do, Applied, Value;
    if deeds != [] {
      DoGives(o, deeds[0], field);
      if !field.OnuType? {
        AppliedGives(o.draft, line, field);
      }
    }
  }

  /**
   The credentials, the VLAN profile and the address mode are those of the last wan-ip line in the ONU's sections to
   give each; its type is that of its last registration under its port's header.
   */
  lemma {:induction false} TextsAreThoseLastGiven(lines: seq<Line>, at: Location, field: Field)
    ensures LastGiven(lines, at, field, Value(ServiceAt(ReadAll(lines).services, at), field))
  {
    if lines != [] {
      var earlier, last := lines[..|lines| - 1], lines[|lines| - 1];
      assert lines == earlier + [last];
      TextsAreThoseLastGiven(earlier, at, field);
      LastGivenStep(earlier, last, at, field, Value(ServiceAt(ReadAll(earlier).services, at), field));
      ReadGives(earlier, last, at, field);
      hide ReadAll, LastGiven, Given;
    }
  }

  // ----- the virtual Ethernet interface -----

  predicate BindsVeip(lines: seq<Line>, n: int, at: Location) {
    Says(lines, n, at) && lines[n] == Veip
  }

  lemma ReadBinds(lines: seq<Line>, line: Line, at: Location)
    ensures ServiceAt(ReadAll(lines + [line]).services, at).useVEIP
       <==> ServiceAt(ReadAll(lines).services, at).useVEIP || BindsVeip(lines + [line], |lines|, at)
  {
    var all := lines + [line];
    assert all[..|lines|] == lines && all[|lines|] == line;
    EachOnuIsItsOwnLines(lines, at);
    ReadFollows(ReadAll(lines), line, at);
    DeedIsByTheHeader(all, |lines|, at);
    UnknownIsBlank(lines, at);
    assert ReadAll(all) == Read(ReadAll(lines), line);
    var o, deeds := OnuAt(ReadAll(lines), at), DeedOf(PlaceAfter(lines), line, at);
    hide ReadAll, Read, PlaceAfter, DeedOf, EndsUnder, Do;
    if deeds != [] {
      DoBinds(o, deeds[0]);
    }
  }

  lemma DoBinds(o: Onu, deed: Deed)
    requires !o.known ==> o == UNKNOWN
    ensures Do(o, deed).draft.service.useVEIP <==> o.draft.service.useVEIP || deed == Say(Veip)
  {
  }

  /** The interface is used exactly if some line of the ONU's sections binds it. */
  lemma {:induction false} VeipIffSaid(lines: seq<Line>, at: Location)
    ensures ServiceAt(ReadAll(lines).services, at).useVEIP <==> exists n :: BindsVeip(lines, n, at)
  {
    if lines != [] {
      var earlier, last := lines[..|lines| - 1], lines[|lines| - 1];
      assert lines == earlier + [last];
      VeipIffSaid(earlier, at);
      ReadBinds(earlier, last, at);
      hide ReadAll;
      forall n | 0 <= n < |earlier|
        ensures BindsVeip(lines, n, at) <==> BindsVeip(earlier, n, at)
      {
        assert lines[..n] == earlier[..n];
      }
    }
  }
}
