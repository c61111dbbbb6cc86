/**
 Reading every ONU's service out of a running config. Lines come already classified by the patterns the program
 matches; numbers are what the program's conversion makes of their digits.
 */
module OnuServices {
  import opened Locations
  import opened Options

  datatype Service = Service(
    onuType: string, vlanId: int, vlanMode: string, serviceType: string, tcontProfile: string, wanMode: string,
    wanIPMode: string, vlanProfile: string, useVEIP: bool, pppoeUsername: string, pppoePassword: string)

  const BLANK := Service("", 0, "", "", "", "", "", "", false, "", "")
  const UNCONFIGURED := BLANK.(serviceType := "bridge", wanMode := "setup_via_ont")

  datatype Line =
    | PortHeader(slot: int, port: int)
    | Registration(ont: int, onuType: string)
    | SectionHeader(at: Location)
    | End
    | Tcont(index: int, profile: string)
    | Gemport(gemport: int, tcont: int)
    | ServicePort(untagged: bool, vlan: Option<int>, userVlan: Option<int>)
    | Veip
    | ServiceOn(gemport: int, untag: bool, vlan: Option<int>)
    | WanIP(mode: string, username: Option<string>, password: Option<string>, vlanProfile: Option<string>)
    | Other

  // ----- what the program does, on values -----

  /** One ONU's service in the making, with its own GEM ports and T-CONTs. */
  datatype Draft = Draft(service: Service, gemports: map<int, int>, tconts: map<int, string>)

  /** A Go map answers its zero value for a key it does not hold. */
  function TcontOf(gemports: map<int, int>, gemport: int): int {
    if gemport in gemports then gemports[gemport] else 0
  }

  function OrElse<T>(value: Option<T>, default: T): T {
    if value.Some? then value.value else default
  }

  function Applied(d: Draft, line: Line): Draft {
    match line
    case Tcont(index, profile) => d.(tconts := d.tconts[index := profile])
    case Gemport(gemport, tcont) => d.(gemports := d.gemports[gemport := tcont])
    case ServicePort(untagged, vlan, userVlan) =>
      d.(service := d.service.(vlanMode := if untagged then "untag" else "tag",
                               vlanId := OrElse(vlan, OrElse(userVlan, d.service.vlanId))))
    case Veip => d.(service := d.service.(useVEIP := true))
    case ServiceOn(gemport, untag, vlan) =>
      var tcont := TcontOf(d.gemports, gemport);
      d.(service := d.service.(tcontProfile := if tcont in d.tconts then d.tconts[tcont] else d.service.tcontProfile,
                               vlanMode := if untag then "untag" else d.service.vlanMode,
                               vlanId := OrElse(vlan, d.service.vlanId)))
    case WanIP(mode, username, password, profile) =>
      d.(service := d.service.(serviceType := "internet", wanMode := "wan_ip", wanIPMode := mode,
                               pppoeUsername := OrElse(username, d.service.pppoeUsername),
                               pppoePassword := OrElse(password, d.service.pppoePassword),
                               vlanProfile := OrElse(profile, d.service.vlanProfile)))
    case _ => d
  }

  /** Where the reader is: inside a port's section, an ONU's section, or neither. */
  datatype Place = Place(location: Location, slot: int, port: int, inPort: bool, inSection: bool)

  const NOWHERE := Place(Location(0, 0, 0), 0, 0, false, false)

  function Moved(p: Place, line: Line): Place {
    match line
    case PortHeader(slot, port) => p.(slot := slot, port := port, inPort := true, inSection := false)
    case SectionHeader(at) => p.(location := at, inPort := false, inSection := true)
    case End => p.(inPort := false, inSection := false)
    case _ => p
  }

  datatype Reader = Reader(
    place: Place, services: map<Location, Service>,
    gemports: map<Location, map<int, int>>, tconts: map<Location, map<int, string>>)

  const START := Reader(NOWHERE, map[], map[], map[])

  function ServiceAt(services: map<Location, Service>, at: Location): Service {
    if at in services then services[at] else BLANK
  }

  function Lookup<V>(maps: map<Location, map<int, V>>, at: Location): map<int, V> {
    if at in maps then maps[at] else map[]
  }

  function DraftAt(r: Reader, at: Location): Draft {
    Draft(ServiceAt(r.services, at), Lookup(r.gemports, at), Lookup(r.tconts, at))
  }

  function Opened(r: Reader, at: Location): Reader {
    r.(services := if at in r.services then r.services else r.services[at := UNCONFIGURED],
       gemports := if at in r.gemports then r.gemports else r.gemports[at := map[]],
       tconts := if at in r.gemports then r.tconts else r.tconts[at := map[]])
  }

  function Filled(r: Reader, at: Location, line: Line): Reader {
    var d := Applied(DraftAt(r, at), line);
    r.(services := r.services[at := d.service], gemports := r.gemports[at := d.gemports],
        tconts := r.tconts[at := d.tconts])
  }

  function Read(r: Reader, line: Line): Reader {
    var p := r.place;
    var r' := r.(place := Moved(p, line));
    match line
    case PortHeader(_, _) => r'
    case SectionHeader(at) => Opened(r', at)
    case End => r'
    case Registration(ont, onuType) =>
      if p.inPort then
        var at := Location(p.slot, p.port, ont);
        r'.(services := r.services[at := ServiceAt(r.services, at).(onuType := onuType)])
      else if p.inSection then Filled(r', p.location, line)
      else r'
    case _ => if p.inSection then Filled(r', p.location, line) else r'
  }

  function ReadAll(lines: seq<Line>): Reader {
    if lines == [] then START else Read(ReadAll(lines[..|lines| - 1]), lines[|lines| - 1])
  }

  // ----- the program -----

  /** Folds one line into the service being built and into its ONU's own tables. */
  method ApplyServiceLine(service: Service, line: Line, gemports: map<int, int>, tconts: map<int, string>)
    returns (service': Service, gemports': map<int, int>, tconts': map<int, string>)
    ensures Draft(service', gemports', tconts') == Applied(Draft(service, gemports, tconts), line)
  {
    service', gemports', tconts' := service, gemports, tconts;
    match line {
      case Tcont(index, profile) =>
        tconts' := tconts'[index := profile];
      case Gemport(gemport, tcont) =>
        gemports' := gemports'[gemport := tcont];
      case ServicePort(untagged, vlan, userVlan) =>
        service' := service'.(vlanMode := if untagged then "untag" else "tag");
        if vlan.Some? {
          service' := service'.(vlanId := vlan.value);
        } else if userVlan.Some? {
          service' := service'.(vlanId := userVlan.value);
        }
      case Veip =>
        service' := service'.(useVEIP := true);
      case ServiceOn(gemport, untag, vlan) =>
        var tcont := if gemport in gemports then gemports[gemport] else 0;
        if tcont in tconts {
          service' := service'.(tcontProfile := tconts[tcont]);
        }
        if untag {
          service' := service'.(vlanMode := "untag");
        }
        if vlan.Some? {
          service' := service'.(vlanId := vlan.value);
        }
      case WanIP(mode, username, password, profile) =>
        service' := service'.(serviceType := "internet", wanMode := "wan_ip", wanIPMode := mode);
        if username.Some? {
          service' := service'.(pppoeUsername := username.value);
        }
        if password.Some? {
          service' := service'.(pppoePassword := password.value);
        }
        if profile.Some? {
          service' := service'.(vlanProfile := profile.value);
        }
      case _ =>
    }
  }

  method ParseServices(lines: seq<Line>) returns (services: map<Location, Service>)
    ensures services == ReadAll(lines).services
  {
    services := map[];
    var location := Location(0, 0, 0);
    var slot, port := 0, 0;
    var inPort, inSection := false, false;
    var gemports: map<Location, map<int, int>> := map[];
    var tconts: map<Location, map<int, string>> := map[];
    for n := 0 to |lines|
      invariant ReadAll(lines[..n])
             == Reader(Place(location, slot, port, inPort, inSection), services, gemports, tconts)
      invariant gemports.Keys == tconts.Keys
      invariant inSection ==> !inPort && location in services && location in gemports
    {
      assert lines[..n + 1][..n] == lines[..n];
      var line := lines[n];
      if line.PortHeader? {
        slot, port, inPort, inSection := line.slot, line.port, true, false;
        continue;
      }
      if inPort {
        if line.Registration? {
          var at := Location(slot, port, line.ont);
          var service := if at in services then services[at] else BLANK;
          services := services[at := service.(onuType := line.onuType)];
          continue;
        }
        if line.End? {
          inPort := false;
        }
      }
      if line.SectionHeader? {
        inPort := false;
        location, inSection := line.at, true;
        if location !in services {
          services := services[location := UNCONFIGURED];
        }
        if location !in gemports {
          gemports := gemports[location := map[]];
          tconts := tconts[location := map[]];
        }
        continue;
      }
      if line.End? {
        inSection := false;
        continue;
      }
      if !inSection {
        continue;
      }
      var service, g, t := ApplyServiceLine(services[location], line, gemports[location], tconts[location]);
      services := services[location := service];
      gemports, tconts := gemports[location := g], tconts[location := t];
    }
    assert lines[..|lines|] == lines;
  }
}
