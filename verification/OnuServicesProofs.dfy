/** What is read for one ONU depends on that ONU's own lines and on nothing else in the config. */
module OnuServicesProofs {
  import opened Locations
  import opened Options
  import opened OnuServices

  // ----- a reader that knows of one ONU only -----

  /** What a line says about the ONU it belongs to. */
  datatype Deed = Register(onuType: string) | Open | Say(line: Line)

  datatype Onu = Onu(known: bool, entered: bool, draft: Draft)

  const UNKNOWN := Onu(false, false, Draft(BLANK, map[], map[]))

  function Do(o: Onu, deed: Deed): Onu {
    match deed
    case Register(onuType) => o.(known := true, draft := o.draft.(service := o.draft.service.(onuType := onuType)))
    case Open =>
      Onu(true, true, if o.known then o.draft else o.draft.(service := UNCONFIGURED))
    case Say(line) => Onu(true, true, Applied(o.draft, line))
  }

  function DoAll(deeds: seq<Deed>): Onu {
    if deeds == [] then UNKNOWN else Do(DoAll(deeds[..|deeds| - 1]), deeds[|deeds| - 1])
  }

  function PlaceAfter(lines: seq<Line>): Place {
    if lines == [] then NOWHERE else Moved(PlaceAfter(lines[..|lines| - 1]), lines[|lines| - 1])
  }

  /** The ONU a line belongs to, given where it stands, and what it says about it. */
  function Meaning(p: Place, line: Line): Option<(Location, Deed)> {
    match line
    case PortHeader(_, _) => None
    case SectionHeader(at) => Some((at, Open))
    case End => None
    case Registration(ont, onuType) =>
      if p.inPort then Some((Location(p.slot, p.port, ont), Register(onuType)))
      else if p.inSection then Some((p.location, Say(line)))
      else None
    case _ => if p.inSection then Some((p.location, Say(line))) else None
  }

  /** What a line says about `at`: nothing, when it belongs to another. */
  function DeedOf(p: Place, line: Line, at: Location): seq<Deed> {
    match Meaning(p, line)
    case Some((of, deed)) => if of == at then [deed] else []
    case None => []
  }

  function Deeds(lines: seq<Line>, at: Location): seq<Deed> {
    if lines == [] then []
    else
      var n := |lines| - 1;
      Deeds(lines[..n], at) + DeedOf(PlaceAfter(lines[..n]), lines[n], at)
  }

  function OnuAt(r: Reader, at: Location): Onu {
    Onu(at in r.services, at in r.gemports, DraftAt(r, at))
  }

  /** The reader's place is all that the headers decide, and in a section its ONU has been opened. */
  predicate Steady(r: Reader) {
    && r.gemports.Keys == r.tconts.Keys
    && (r.place.inSection ==> !r.place.inPort && r.place.location in r.services && r.place.location in r.gemports)
  }

  lemma OpenedFollows(r: Reader, of: Location, at: Location)
    requires r.gemports.Keys == r.tconts.Keys
    ensures Opened(r, of).gemports.Keys == Opened(r, of).tconts.Keys
    ensures of in Opened(r, of).services && of in Opened(r, of).gemports
    ensures OnuAt(Opened(r, of), at) == if of == at then Do(OnuAt(r, at), Open) else OnuAt(r, at)
  {
  }

  lemma FilledFollows(r: Reader, of: Location, line: Line, at: Location)
    requires r.gemports.Keys == r.tconts.Keys
    ensures Filled(r, of, line).gemports.Keys == Filled(r, of, line).tconts.Keys
    ensures of in Filled(r, of, line).services && of in Filled(r, of, line).gemports
    ensures OnuAt(Filled(r, of, line), at) == if of == at then Do(OnuAt(r, at), Say(line)) else OnuAt(r, at)
  {
    hide Applied;
  }

  lemma ReadFollows(r: Reader, line: Line, at: Location)
    requires Steady(r)
    ensures Steady(Read(r, line)) && Read(r, line).place == Moved(r.place, line)
    ensures var deeds := DeedOf(r.place, line, at);
            OnuAt(Read(r, line), at) == if deeds == [] then OnuAt(r, at) else Do(OnuAt(r, at), deeds[0])
  {
    var moved := r.(place := Moved(r.place, line));
    assert OnuAt(moved, at) == OnuAt(r, at);
    if line.SectionHeader? {
      OpenedFollows(moved, line.at, at);
      hide Opened, Filled, Applied;
    } else if line.Registration? && r.place.inPort {
      hide Opened, Filled, Applied;
    } else if r.place.inSection && !line.PortHeader? && !line.End? {
      FilledFollows(moved, r.place.location, line, at);
      hide Opened, Filled, Applied;
    }
  }

  /** One by one, the lines do to an ONU what they say about it. */
  lemma {:induction false} EachOnuIsItsOwnLines(lines: seq<Line>, at: Location)
    ensures Steady(ReadAll(lines)) && ReadAll(lines).place == PlaceAfter(lines)
    ensures OnuAt(ReadAll(lines), at) == DoAll(Deeds(lines, at))
  {
    if lines == [] {
    } else {
      var n := |lines| - 1;
      var earlier := Deeds(lines[..n], at);
      EachOnuIsItsOwnLines(lines[..n], at);
      ReadFollows(ReadAll(lines[..n]), lines[n], at);
      var deed := DeedOf(PlaceAfter(lines[..n]), lines[n], at);
      if deed != [] {
        assert (earlier + deed)[..|earlier|] == earlier;
      } else {
        assert earlier + deed == earlier;
      }
    }
  }

  /** Two configs that say the same about an ONU give it the same service, whatever else is in them. */
  lemma OtherOnusDoNotMatter(lines: seq<Line>, others: seq<Line>, at: Location)
    requires Deeds(lines, at) == Deeds(others, at)
    ensures at in ReadAll(lines).services <==> at in ReadAll(others).services
    ensures at in ReadAll(lines).services ==> ReadAll(lines).services[at] == ReadAll(others).services[at]
  {
    EachOnuIsItsOwnLines(lines, at);
    EachOnuIsItsOwnLines(others, at);
  }

  // ----- cutting one ONU out of a config -----

  /** The lines of `at` and the headers they stand under. */
  predicate IsOwn(p: Place, line: Line, at: Location) {
    || line == PortHeader(at.slot, at.port)
    || DeedOf(p, line, at) != []
  }

  function OwnLines(lines: seq<Line>, at: Location): seq<Line> {
    if lines == [] then []
    else
      var n := |lines| - 1;
      OwnLines(lines[..n], at) + if IsOwn(PlaceAfter(lines[..n]), lines[n], at) then [lines[n]] else []
  }

  /** Where the whole config stands at `at`, so do its own lines. */
  predicate SamePlace(p: Place, own: Place, at: Location) {
    && (p.inSection && p.location == at ==> !p.inPort && own.inSection && !own.inPort)
    && (p.inPort && p.slot == at.slot && p.port == at.port ==> own.inPort)
    && (own.inSection ==> own.location == at && !own.inPort)
    && (own.inPort ==> own.slot == at.slot && own.port == at.port)
    && (p.inSection ==> !p.inPort)
  }

  lemma OwnPlaceFollows(p: Place, own: Place, line: Line, at: Location)
    requires SamePlace(p, own, at)
    ensures SamePlace(Moved(p, line), if IsOwn(p, line, at) then Moved(own, line) else own, at)
    ensures IsOwn(p, line, at) ==> DeedOf(own, line, at) == DeedOf(p, line, at)
    ensures IsOwn(p, line, at) ==> forall other :: other != at ==> DeedOf(own, line, other) == []
  {
  }

  lemma {:induction false} OwnLinesSayTheSame(lines: seq<Line>, at: Location)
    ensures SamePlace(PlaceAfter(lines), PlaceAfter(OwnLines(lines, at)), at)
    ensures Deeds(OwnLines(lines, at), at) == Deeds(lines, at)
    ensures forall other :: other != at ==> Deeds(OwnLines(lines, at), other) == []
  {
    if lines == [] {
    } else {
      var n := |lines| - 1;
      OwnLinesSayTheSame(lines[..n], at);
      var own, line := OwnLines(lines[..n], at), lines[n];
      OwnPlaceFollows(PlaceAfter(lines[..n]), PlaceAfter(own), line, at);
      if IsOwn(PlaceAfter(lines[..n]), line, at) {
        assert (own + [line])[..|own|] == own;
      } else {
        assert own + [] == own;
        assert Deeds(lines[..n], at) + [] == Deeds(lines[..n], at);
      }
    }
  }

  /** Parsing only an ONU's own lines, in their order, gives exactly its entry of the whole parse. */
  lemma ParsingOwnLinesIsEnough(lines: seq<Line>, at: Location)
    ensures var whole, own := ReadAll(lines).services, ReadAll(OwnLines(lines, at)).services;
            own == if at in whole then map[at := whole[at]] else map[]
  {
    var whole, own := ReadAll(lines).services, ReadAll(OwnLines(lines, at)).services;
    OwnLinesSayTheSame(lines, at);
    OtherOnusDoNotMatter(OwnLines(lines, at), lines, at);
    forall other | other != at
      ensures other !in own
    {
      EachOnuIsItsOwnLines(OwnLines(lines, at), other);
      assert Deeds(OwnLines(lines, at), other) == [];
    }
    assert own.Keys == if at in whole then {at} else {};
  }

  // ----- the T-CONT profile -----

  /** The T-CONT a GEM port was last declared on, 0 when it never was. */
  function DeclaredTcont(deeds: seq<Deed>, gemport: int): int {
    if deeds == [] then 0
    else
      var last := deeds[|deeds| - 1];
      if last.Say? && last.line.Gemport? && last.line.gemport == gemport then last.line.tcont
      else DeclaredTcont(deeds[..|deeds| - 1], gemport)
  }

  /** The profile a T-CONT was last declared with. */
  function DeclaredProfile(deeds: seq<Deed>, tcont: int): Option<string> {
    if deeds == [] then None
    else
      var last := deeds[|deeds| - 1];
      if last.Say? && last.line.Tcont? && last.line.index == tcont then Some(last.line.profile)
      else DeclaredProfile(deeds[..|deeds| - 1], tcont)
  }

  /**
   The profile reached through the GEM port the last service line names, by what was declared before that line; a
   service line that reaches none leaves the one reached before it.
   */
  function ReachedProfile(deeds: seq<Deed>): string {
    if deeds == [] then ""
    else
      var earlier, last := deeds[..|deeds| - 1], deeds[|deeds| - 1];
      if last.Say? && last.line.ServiceOn? then
        OrElse(DeclaredProfile(earlier, DeclaredTcont(earlier, last.line.gemport)), ReachedProfile(earlier))
      else ReachedProfile(earlier)
  }

  lemma {:induction false} TablesHoldDeclarations(deeds: seq<Deed>)
    ensures forall g :: TcontOf(DoAll(deeds).draft.gemports, g) == DeclaredTcont(deeds, g)
    ensures forall t :: t in DoAll(deeds).draft.tconts <==> DeclaredProfile(deeds, t).Some?
    ensures forall t :: t in DoAll(deeds).draft.tconts ==>
            DeclaredProfile(deeds, t) == Some(DoAll(deeds).draft.tconts[t])
  {
    if deeds == [] {
    } else {
      TablesHoldDeclarations(deeds[..|deeds| - 1]);
    }
  }

  lemma DoKeepsProfile(o: Onu, deed: Deed)
    requires !o.known ==> o == UNKNOWN
    ensures Do(o, deed).known
    ensures !(deed.Say? && deed.line.ServiceOn?) ==>
              Do(o, deed).draft.service.tcontProfile == o.draft.service.tcontProfile
  {
  }

  lemma {:induction false} ProfileIsReached(deeds: seq<Deed>)
    ensures DoAll(deeds).draft.service.tcontProfile == ReachedProfile(deeds)
    ensures !DoAll(deeds).known ==> deeds == []
  {
    if deeds == [] {
    } else {
      var earlier, last := deeds[..|deeds| - 1], deeds[|deeds| - 1];
      ProfileIsReached(earlier);
      DoKeepsProfile(DoAll(earlier), last);
      if last.Say? && last.line.ServiceOn? {
        TablesHoldDeclarations(earlier);
      }
    }
  }

  /** In any config, an ONU's T-CONT profile is the one its own service line reaches, sections apart or not. */
  lemma ServiceHasTheReachedProfile(lines: seq<Line>, at: Location)
    requires at in ReadAll(lines).services
    ensures ReadAll(lines).services[at].tcontProfile == ReachedProfile(Deeds(lines, at))
  {
    EachOnuIsItsOwnLines(lines, at);
    ProfileIsReached(Deeds(lines, at));
  }

  predicate Declares(deeds: seq<Deed>, gemport: int) {
    exists n :: 0 <= n < |deeds| && deeds[n].Say? && deeds[n].line.Gemport? && deeds[n].line.gemport == gemport
  }

  /**
   A GEM port that was never declared is looked up as if it sat on T-CONT 0: a service line on one takes up the profile
   of a T-CONT 0, if there is one.
   */
  lemma {:induction false} UndeclaredGemportMeansTcontZero(deeds: seq<Deed>, gemport: int)
    requires !Declares(deeds, gemport)
    ensures DeclaredTcont(deeds, gemport) == 0
    ensures forall untag, vlan ::
              ReachedProfile(deeds + [Say(ServiceOn(gemport, untag, vlan))])
              == OrElse(DeclaredProfile(deeds, 0), ReachedProfile(deeds))
  {
    if deeds != [] {
      var n := |deeds| - 1;
      assert !Declares(deeds[..n], gemport) by {
        assert forall k :: 0 <= k < n ==> deeds[..n][k] == deeds[k];
      }
      UndeclaredGemportMeansTcontZero(deeds[..n], gemport);
      assert deeds[n] == deeds[|deeds| - 1];
    }
    forall untag, vlan
      ensures ReachedProfile(deeds + [Say(ServiceOn(gemport, untag, vlan))])
           == OrElse(DeclaredProfile(deeds, 0), ReachedProfile(deeds))
    {
      var all := deeds + [Say(ServiceOn(gemport, untag, vlan))];
      assert all[..|deeds|] == deeds;
    }
  }

  /** The profile a service line names through its GEM port: none, when that port was not declared. */
  function NamedProfile(deeds: seq<Deed>, gemport: int): Option<string> {
    if Declares(deeds, gemport) then DeclaredProfile(deeds, DeclaredTcont(deeds, gemport)) else None
  }

  /**
   A service line gives its ONU the profile it names, or leaves the one it had if it names none, if and only if its GEM
   port was declared, or no T-CONT 0 was, or T-CONT 0 has the profile the ONU had already.
   */
  lemma NamedProfileIsReached(deeds: seq<Deed>, gemport: int, untag: bool, vlan: Option<int>)
    ensures ReachedProfile(deeds + [Say(ServiceOn(gemport, untag, vlan))])
              == OrElse(NamedProfile(deeds, gemport), ReachedProfile(deeds))
            <==>
            || Declares(deeds, gemport)
            || DeclaredProfile(deeds, 0).None?
            || DeclaredProfile(deeds, 0).value == ReachedProfile(deeds)
  {
    hide DeclaredProfile, DeclaredTcont, Declares;
    var all := deeds + [Say(ServiceOn(gemport, untag, vlan))];
    assert all[..|deeds|] == deeds;
    if !Declares(deeds, gemport) {
      UndeclaredGemportMeansTcontZero(deeds, gemport);
    }
  }

  lemma ReadFirst(at: Location)
    ensures ReadAll([SectionHeader(at)])
         == Reader(Place(at, 0, 0, false, true), map[at := UNCONFIGURED], map[at := map[]], map[at := map[]])
    ensures PlaceAfter([SectionHeader(at)]) == Place(at, 0, 0, false, true)
    ensures Deeds([SectionHeader(at)], at) == [Open]
  {
    assert [SectionHeader(at)][..0] == [];
  }

  lemma ReadNext(lines: seq<Line>, line: Line)
    ensures ReadAll(lines + [line]) == Read(ReadAll(lines), line)
    ensures PlaceAfter(lines + [line]) == Moved(PlaceAfter(lines), line)
    ensures forall at :: Deeds(lines + [line], at) == Deeds(lines, at) + DeedOf(PlaceAfter(lines), line, at)
  {
    assert (lines + [line])[..|lines|] == lines;
  }

  lemma StrangersDeeds(profile: string)
    ensures var deeds := [Open, Say(Tcont(0, profile))];
            !Declares(deeds, 7) && ReachedProfile(deeds) == ""
  {
    var deeds := [Open, Say(Tcont(0, profile))];
    assert deeds[..1] == [Open] && [Open][..0] == [];
  }

  /** A config on which it does not: the service names GEM port 7, never declared, and gets the profile of T-CONT 0. */
  lemma StrangersProfile(at: Location)
    ensures var lines := [SectionHeader(at), Tcont(0, "OTHER")];
            var read := ReadAll(lines + [ServiceOn(7, false, None)]).services;
            && at in read && read[at].tcontProfile == "OTHER"
            && NamedProfile(Deeds(lines, at), 7) == None && ReachedProfile(Deeds(lines, at)) == ""
  {
    var header, tcont, service := SectionHeader(at), Tcont(0, "OTHER"), ServiceOn(7, false, None);
    ReadFirst(at);
    ReadNext([header], tcont);
    ReadNext([header] + [tcont], service);
    hide ReadAll, PlaceAfter, Deeds, ReachedProfile;
    assert [header] + [tcont] == [header, tcont] && [Open] + [Say(tcont)] == [Open, Say(tcont)];
    StrangersDeeds("OTHER");
    assert ReadAll([header, tcont]).tconts[at] == map[0 := "OTHER"];
  }

  // ----- the VLAN and the service type -----

  /** The VLAN a line names for the service: on a service-port line the translated one before the user's. */
  function NamedVlan(deed: Deed): Option<int> {
    if !deed.Say? then None
    else
      match deed.line
      case ServicePort(_, vlan, userVlan) => if vlan.Some? then vlan else userVlan
      case ServiceOn(_, _, vlan) => vlan
      case _ => None
  }

  function LastVlan(deeds: seq<Deed>): int {
    if deeds == [] then 0 else OrElse(NamedVlan(deeds[|deeds| - 1]), LastVlan(deeds[..|deeds| - 1]))
  }

  /** How a line says frames are tagged; a service line can only take the tag off. */
  function NamedMode(deed: Deed): Option<string> {
    if !deed.Say? then None
    else
      match deed.line
      case ServicePort(untagged, _, _) => Some(if untagged then "untag" else "tag")
      case ServiceOn(_, untag, _) => if untag then Some("untag") else None
      case _ => None
  }

  function LastMode(deeds: seq<Deed>): string {
    if deeds == [] then "" else OrElse(NamedMode(deeds[|deeds| - 1]), LastMode(deeds[..|deeds| - 1]))
  }

  predicate IsWan(deed: Deed) {
    deed.Say? && deed.line.WanIP?
  }

  predicate HasWan(deeds: seq<Deed>) {
    exists n :: 0 <= n < |deeds| && IsWan(deeds[n])
  }

  lemma HasWanStep(deeds: seq<Deed>)
    requires deeds != []
    ensures HasWan(deeds) <==> HasWan(deeds[..|deeds| - 1]) || IsWan(deeds[|deeds| - 1])
  {
    var earlier := deeds[..|deeds| - 1];
    if HasWan(earlier) {
      var n :| 0 <= n < |earlier| && IsWan(earlier[n]);
      assert IsWan(deeds[n]);
    }
    if HasWan(deeds) {
      var n :| 0 <= n < |deeds| && IsWan(deeds[n]);
      assert n < |earlier| ==> IsWan(earlier[n]);
    }
  }

  /** What deeds make of the service type and of how its address is set up. */
  predicate TypeFits(service: Service, deeds: seq<Deed>) {
    if HasWan(deeds) then service.serviceType == "internet" && service.wanMode == "wan_ip"
    else if deeds != [] && deeds[0].Register? then service.serviceType == "" && service.wanMode == ""
    else if deeds != [] then service.serviceType == "bridge" && service.wanMode == "setup_via_ont"
    else service == BLANK
  }

  lemma DoSets(o: Onu, deed: Deed)
    requires !o.known ==> o == UNKNOWN
    ensures var before, after := o.draft.service, Do(o, deed).draft.service;
            && after.vlanId == OrElse(NamedVlan(deed), before.vlanId)
            && after.vlanMode == OrElse(NamedMode(deed), before.vlanMode)
            && (IsWan(deed) ==> after.serviceType == "internet" && after.wanMode == "wan_ip")
            && (!IsWan(deed) && (o.known || deed.Register?) ==>
                  after.serviceType == before.serviceType && after.wanMode == before.wanMode)
            && (!o.known && deed.Open? ==> after == UNCONFIGURED)
  {
  }

  /** An ONU's first line is its registration or its section's header. */
  predicate Begins(deeds: seq<Deed>) {
    deeds != [] ==> !deeds[0].Say?
  }

  lemma {:induction false} DeedsDecide(deeds: seq<Deed>)
    requires Begins(deeds)
    ensures DoAll(deeds).known <==> deeds != []
    ensures !DoAll(deeds).known ==> DoAll(deeds) == UNKNOWN
    ensures DoAll(deeds).draft.service.vlanId == LastVlan(deeds)
    ensures DoAll(deeds).draft.service.vlanMode == LastMode(deeds)
    ensures TypeFits(DoAll(deeds).draft.service, deeds)
  {
    if deeds == [] {
    } else {
      var earlier, last := deeds[..|deeds| - 1], deeds[|deeds| - 1];
      assert earlier != [] ==> earlier[0] == deeds[0];
      DeedsDecide(earlier);
      DoSets(DoAll(earlier), last);
      HasWanStep(deeds);
      hide Do, Applied, NamedVlan, NamedMode, HasWan;
    }
  }

  /** Nothing is said inside a section before its header was read. */
  lemma {:induction false} DeedsBegin(lines: seq<Line>, at: Location)
    ensures Begins(Deeds(lines, at))
    ensures PlaceAfter(lines).inSection && PlaceAfter(lines).location == at ==> Deeds(lines, at) != []
  {
    if lines == [] {
    } else {
      DeedsBegin(lines[..|lines| - 1], at);
    }
  }

  /**
   An ONU's VLAN and tagging are those its last line to name them gives. It is an internet service if and only if a
   wan-ip line says so; otherwise it is a bridge, unless its registration came first: then it has no type at all.
   */
  lemma ServiceIsWhatItsLinesSay(lines: seq<Line>, at: Location)
    requires at in ReadAll(lines).services
    ensures var service, deeds := ReadAll(lines).services[at], Deeds(lines, at);
            service.vlanId == LastVlan(deeds) && service.vlanMode == LastMode(deeds) && TypeFits(service, deeds)
  {
    EachOnuIsItsOwnLines(lines, at);
    DeedsBegin(lines, at);
    DeedsDecide(Deeds(lines, at));
  }
}
