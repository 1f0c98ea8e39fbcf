/** Port selection and address display of packages/trs/src/lib/net-utils.js.
    Binding a real socket (`isPortFree`) is replaced by a probe oracle. */
module NetUtils {
  import opened Strings

  /** What `isPortFree(port)` does for one port: resolves `true` (the bind succeeded),
      resolves `false` (the bind failed with EADDRINUSE) or rethrows any other bind error. */
  datatype ProbeResult = Free | InUse | Failed(code: string)

  datatype PortError =
    | ProbeError(code: string)      // a bind error other than EADDRINUSE, rethrown
    | PortTaken(message: string)    // the user's port is occupied

  datatype PortResult = Ok(port: int) | Err(error: PortError)

  /** The start port handed to `getFreePort`: a number, or a string parsed base-10. */
  datatype PortArg = NumberPort(n: int) | StringPort(s: string)

  /** The error `server.listen` raises for a port that is not a number; `isPortFree`
      rethrows it because it is not EADDRINUSE. */
  const BadPortCode := "ERR_SOCKET_BAD_PORT"

  /** The loop guard `attempts <= 20` admits this many probes. */
  const ProbeBudget := 21

  const DefaultPort := 8080

  /** The number `getFreePort` starts from: a number as given, a string through
      `Number.parseInt(port, 10)`; None stands for NaN. */
  function StartPort(start: PortArg): Option<int> {
    match start
    case NumberPort(n) => Some(n)
    case StringPort(s) => ParseIntPrefix(s)
  }

  /** What a scan from `p0` may return: the first free port among the 21 probed, or
      `p0 + 21` when all of them are busy, or the first probe error, rethrown. */
  ghost predicate ScanOutcome(p0: int, probe: int -> ProbeResult, r: PortResult) {
    && (r.Ok? ==> p0 <= r.port <= p0 + ProbeBudget
                  && (forall q | p0 <= q < r.port :: probe(q) == InUse)
                  && (r.port < p0 + ProbeBudget ==> probe(r.port) == Free))
    && (r.Err? ==> exists q | p0 <= q < p0 + ProbeBudget ::
                     (forall q' | p0 <= q' < q :: probe(q') == InUse)
                     && probe(q).Failed? && r.error == ProbeError(probe(q).code))
  }

  /** The probes of `getFreePort` from attempt `attempts` on, as a recursive definition. */
  function Scan(p0: int, probe: int -> ProbeResult, attempts: nat): PortResult
    requires attempts <= ProbeBudget
    decreases ProbeBudget - attempts
  {
    if attempts == ProbeBudget then Ok(p0 + attempts)
    else match probe(p0 + attempts)
         case Failed(c) => Err(ProbeError(c))
         case Free => Ok(p0 + attempts)
         case InUse => Scan(p0, probe, attempts + 1)
  }

  /** Past a run of busy ports, the scan has the outcome described by `ScanOutcome`. */
  lemma {:induction false} ScanMeetsOutcome(p0: int, probe: int -> ProbeResult, attempts: nat)
    requires attempts <= ProbeBudget
    requires forall q | p0 <= q < p0 + attempts :: probe(q) == InUse
    ensures ScanOutcome(p0, probe, Scan(p0, probe, attempts))
    decreases ProbeBudget - attempts
  {
    if attempts < ProbeBudget {
      var q := p0 + attempts;
      match probe(q)
      case Failed(c) =>
        assert (forall q' | p0 <= q' < q :: probe(q') == InUse) && probe(q).Failed?;
      case Free =>
      case InUse =>
        ScanMeetsOutcome(p0, probe, attempts + 1);
    }
  }

  /** The probe loop of `getFreePort` (net-utils.js:39-47). */
  method ScanPorts(p0: int, probe: int -> ProbeResult) returns (r: PortResult)
    ensures r == Scan(p0, probe, 0)
    ensures ScanOutcome(p0, probe, r)
  {
    ScanMeetsOutcome(p0, probe, 0);
    var port := p0;
    var attempts := 0;
    while attempts <= 20
      invariant 0 <= attempts <= ProbeBudget && port == p0 + attempts
      invariant Scan(p0, probe, attempts) == Scan(p0, probe, 0)
    {
      var result := probe(port);
      if result.Failed? {
        return Err(ProbeError(result.code));
      }
      if result == Free {
        break;
      }
      port := port + 1;
      attempts := attempts + 1;
    }
    return Ok(port);
  }

  /** A scan returns the last port (`p0 + 21`, 8101 from 8080) exactly when all 21 probed
      ports are busy. */
  lemma ScanExhausted(p0: int, probe: int -> ProbeResult)
    ensures Scan(p0, probe, 0) == Ok(p0 + ProbeBudget)
        <==> forall q | p0 <= q < p0 + ProbeBudget :: probe(q) == InUse
  {
    ScanMeetsOutcome(p0, probe, 0);
    var r := Scan(p0, probe, 0);
    if forall q | p0 <= q < p0 + ProbeBudget :: probe(q) == InUse {
      AllBusyScan(p0, probe, 0);
    }
  }

  lemma {:induction false} AllBusyScan(p0: int, probe: int -> ProbeResult, attempts: nat)
    requires attempts <= ProbeBudget
    requires forall q | p0 <= q < p0 + ProbeBudget :: probe(q) == InUse
    ensures Scan(p0, probe, attempts) == Ok(p0 + ProbeBudget)
    decreases ProbeBudget - attempts
  {
    if attempts < ProbeBudget {
      assert probe(p0 + attempts) == InUse;
      AllBusyScan(p0, probe, attempts + 1);
    }
  }

  /** `getFreePort(port)` (net-utils.js:32-48): probe `port, port+1, ...`, stop at the first
      free port; after 21 busy ports return the next one without probing it. */
  method GetFreePort(start: PortArg, probe: int -> ProbeResult) returns (r: PortResult)
    ensures StartPort(start).None? ==> r == Err(ProbeError(BadPortCode))
    ensures StartPort(start).Some? ==>
      r == Scan(StartPort(start).value, probe, 0) && ScanOutcome(StartPort(start).value, probe, r)
  {
    var p0 := StartPort(start);
    if p0.None? {
      return Err(ProbeError(BadPortCode));
    }
    r := ScanPorts(p0.value, probe);
  }

  /** `typeof options.port`: absent, a number (including 0), or something else (a string),
      which `getPort` ignores in favour of `process.env.PORT`. */
  datatype OptionPort = NoPort | NumberOption(n: int) | OtherOption

  function PortTakenMessage(shown: string): string {
    "Another process is already running on port " + shown + ". Please choose a different port."
  }

  /** `getPort(options)` (net-utils.js:56-68). `envPort` is `process.env.PORT`. */
  method GetPort(option: OptionPort, envPort: Option<string>, probe: int -> ProbeResult)
    returns (r: PortResult)
    ensures option.NumberOption? ==>
      r == match probe(option.n)
           case Free => Ok(option.n)
           case InUse => Err(PortTaken(PortTakenMessage(IntToString(option.n))))
           case Failed(c) => Err(ProbeError(c))
    ensures !option.NumberOption? && envPort.Some? ==>
      r == match ParseDecimal(envPort.value)
           case None => Err(ProbeError(BadPortCode))
           case Some(p) =>
             match probe(p)
             case Free => Ok(p)
             case InUse => Err(PortTaken(PortTakenMessage(envPort.value)))
             case Failed(c) => Err(ProbeError(c))
    ensures !option.NumberOption? && envPort.None? ==>
      r == Scan(DefaultPort, probe, 0) && ScanOutcome(DefaultPort, probe, r)
  {
    var candidate: Option<int>;
    var shown: string;
    if option.NumberOption? {
      candidate, shown := Some(option.n), IntToString(option.n);
    } else if envPort.Some? {
      var parsed := ParseDecimal(envPort.value);
      if parsed.None? {
        return Err(ProbeError(BadPortCode));
      }
      candidate, shown := parsed, envPort.value;
    } else {
      candidate, shown := None, "";
    }
    if candidate.Some? {
      var result := probe(candidate.value);
      match result {
        case Free => return Ok(candidate.value);
        case InUse => return Err(PortTaken(PortTakenMessage(shown)));
        case Failed(c) => return Err(ProbeError(c));
      }
    }
    r := GetFreePort(NumberPort(DefaultPort), probe);
  }

  /** `server.address()`: a pipe or socket path, or an internet address with its port. */
  datatype AddressInfo = PipeAddress(path: string) | InetAddress(port: int)

  /** One entry of `os.networkInterfaces()[name]`. */
  datatype NetInterface = NetInterface(family: string, address: string, internal: bool)

  function Protocol(https: bool): string {
    if https then "https:" else "http:"
  }

  function Origin(protocol: string, host: string, port: int): string {
    protocol + "//" + host + ":" + IntToString(port)
  }

  predicate Listed(iface: NetInterface, host: string) {
    iface.family == "IPv4" && iface.address != host && !iface.internal
  }

  /** The origins contributed by a list of interface entries, in order. */
  function OriginsOf(list: seq<NetInterface>, host: string, protocol: string, port: int): seq<string> {
    if list == [] then []
    else OriginsOf(list[..|list| - 1], host, protocol, port)
         + (if Listed(list[|list| - 1], host)
            then [Origin(protocol, list[|list| - 1].address, port)] else [])
  }

  function Flatten(groups: seq<seq<NetInterface>>): seq<NetInterface> {
    if groups == [] then [] else Flatten(groups[..|groups| - 1]) + groups[|groups| - 1]
  }

  /** `getServerAddresses(addr, {host, https})` (net-utils.js:76-109). `ifaces` lists the
      interface groups of `os.networkInterfaces()` in enumeration order. */
  method GetServerAddresses(addr: AddressInfo, host: string, https: bool, ifaces: seq<seq<NetInterface>>)
    returns (r: seq<string>)
    ensures addr.PipeAddress? ==> r == [addr.path]
    ensures addr.InetAddress? && host != "0.0.0.0" ==> r == [Origin(Protocol(https), host, addr.port)]
    ensures addr.InetAddress? && host == "0.0.0.0" ==>
      r == [Origin(Protocol(https), "localhost", addr.port)]
           + OriginsOf(Flatten(ifaces), host, Protocol(https), addr.port)
  {
    if addr.PipeAddress? {
      return [addr.path];
    }
    var protocol := Protocol(https);
    var port := addr.port;
    if host != "0.0.0.0" {
      return [Origin(protocol, host, port)];
    }
    r := [Origin(protocol, "localhost", port)];
    for g := 0 to |ifaces|
      invariant r == [Origin(protocol, "localhost", port)] + OriginsOf(Flatten(ifaces[..g]), host, protocol, port)
    {
      var done := OriginsOf(Flatten(ifaces[..g]), host, protocol, port);
      r := AddGroupOrigins(r, ifaces[g], host, protocol, port);
      ConcatAssoc([Origin(protocol, "localhost", port)], done, OriginsOf(ifaces[g], host, protocol, port));
      OriginsOfAppend(Flatten(ifaces[..g]), ifaces[g], host, protocol, port);
      FlattenPrefix(ifaces, g);
    }
    assert ifaces[..|ifaces|] == ifaces;
  }

  lemma FlattenPrefix(groups: seq<seq<NetInterface>>, g: nat)
    requires g < |groups|
    ensures Flatten(groups[..g + 1]) == Flatten(groups[..g]) + groups[g]
  {
    assert groups[..g + 1][..g] == groups[..g];
  }

  /** The inner loop of net-utils.js:96-104 over one interface group. */
  method AddGroupOrigins(before: seq<string>, group: seq<NetInterface>, host: string, protocol: string, port: int)
    returns (r: seq<string>)
    ensures r == before + OriginsOf(group, host, protocol, port)
  {
    r := before;
    for k := 0 to |group|
      invariant r == before + OriginsOf(group[..k], host, protocol, port)
    {
      var iface := group[k];
      if iface.family == "IPv4" && iface.address != host && !iface.internal {
        r := r + [Origin(protocol, iface.address, port)];
      }
      assert group[..k + 1][..k] == group[..k];
    }
    assert group[..|group|] == group;
  }

  /** Origins of a concatenation are the concatenation of the origins. */
  lemma {:induction false} OriginsOfAppend(a: seq<NetInterface>, b: seq<NetInterface>, host: string, protocol: string, port: int)
    ensures OriginsOf(a + b, host, protocol, port) == OriginsOf(a, host, protocol, port) + OriginsOf(b, host, protocol, port)
    decreases |b|
  {
    if b != [] {
      var n := |b| - 1;
      assert (a + b)[..|a + b| - 1] == a + b[..n];
      OriginsOfAppend(a, b[..n], host, protocol, port);
    } else {
      assert a + b == a;
    }
  }

  /** An origin is listed after `localhost` exactly when some IPv4, non-internal interface
      other than the bound host has that address. */
  lemma {:induction false} OriginsOfMembers(list: seq<NetInterface>, host: string, protocol: string, port: int, o: string)
    ensures o in OriginsOf(list, host, protocol, port)
        <==> exists i | 0 <= i < |list| :: Listed(list[i], host) && o == Origin(protocol, list[i].address, port)
  {
    if list != [] {
      var n := |list| - 1;
      var init := list[..n];
      OriginsOfMembers(init, host, protocol, port, o);
      var tail := if Listed(list[n], host) then [Origin(protocol, list[n].address, port)] else [];
      assert OriginsOf(list, host, protocol, port) == OriginsOf(init, host, protocol, port) + tail;
      if o in OriginsOf(list, host, protocol, port) {
        if o in OriginsOf(init, host, protocol, port) {
          var i :| 0 <= i < |init| && Listed(init[i], host) && o == Origin(protocol, init[i].address, port);
          assert list[i] == init[i];
        } else {
          assert o in tail;
          assert Listed(list[n], host) && o == Origin(protocol, list[n].address, port);
        }
      }
      if exists i | 0 <= i < |list| :: Listed(list[i], host) && o == Origin(protocol, list[i].address, port) {
        var i :| 0 <= i < |list| && Listed(list[i], host) && o == Origin(protocol, list[i].address, port);
        if i < n {
          assert init[i] == list[i];
        } else {
          assert o in tail;
        }
      }
    }
  }

  /** Each listed interface contributes one origin, so the count is the number of such entries. */
  lemma {:induction false} OriginsOfCount(list: seq<NetInterface>, host: string, protocol: string, port: int)
    ensures |OriginsOf(list, host, protocol, port)| == |ListedIndices(list, host)|
  {
    if list != [] {
      var n := |list| - 1;
      OriginsOfCount(list[..n], host, protocol, port);
      ListedIndicesStep(list, host);
    }
  }

  /** The positions of the entries that contribute an origin. */
  function ListedIndices(list: seq<NetInterface>, host: string): set<int> {
    set i | 0 <= i < |list| && Listed(list[i], host)
  }

  lemma ListedIndicesStep(list: seq<NetInterface>, host: string)
    requires list != []
    ensures var n := |list| - 1;
      ListedIndices(list, host) == ListedIndices(list[..n], host) + (if Listed(list[n], host) then {n} else {})
      && n !in ListedIndices(list[..n], host)
  {
    var n := |list| - 1;
    assert forall i | 0 <= i < n :: list[..n][i] == list[i];
  }

  /** `supportsSearchParams` (net-utils.js:114-118) for the running version string, such as
      `process.versions.node == "18.17.1"`. A missing part reads as NaN, which fails both tests. */
  function SupportsSearchParams(version: string): bool {
    var parts := Split(version, {'.'});
    var major := ParseDecimal(parts[0]);
    var minor := if |parts| > 1 then ParseDecimal(parts[1]) else None;
    (major.Some? && major.value > 12)
    || (major.Some? && major.value == 12 && minor.Some? && minor.value >= 19)
  }

  /** A version string `a.b.rest` splits into `a`, `b` and the parts of `rest`. */
  lemma SplitVersion(a: string, b: string, rest: string)
    requires NoneIn(a, {'.'}) && NoneIn(b, {'.'})
    ensures var parts := Split(a + "." + b + "." + rest, {'.'});
            |parts| >= 2 && parts[0] == a && parts[1] == b
  {
    assert a + "." + b + "." + rest == a + ['.'] + (b + ['.'] + rest);
    SplitAtSep(a, '.', b + ['.'] + rest, {'.'});
    SplitAtSep(b, '.', rest, {'.'});
  }

  /** For a version `major.minor.rest`, search parameters are supported iff the release is
      12.19 or later. */
  lemma SupportsSearchParamsIff(major: nat, minor: nat, rest: string)
    ensures SupportsSearchParams(NatToString(major) + "." + NatToString(minor) + "." + rest)
        == (major > 12 || (major == 12 && minor >= 19))
  {
    var a, b := NatToString(major), NatToString(minor);
    SplitVersion(a, b, rest);
    ParseIntToString(major);
    ParseIntToString(minor);
  }

  /** `addTimestamp(url, time)` (net-utils.js:127). */
  function AddTimestamp(url: string, time: int): string {
    url + (if '?' in url then "&" else "?") + "t=" + IntToString(time)
  }

  /** The result extends the URL and always has a query. */
  lemma AddTimestampExtends(url: string, time: int)
    ensures StartsWith(AddTimestamp(url, time), url)
    ensures '?' in AddTimestamp(url, time)
  {
    var r := AddTimestamp(url, time);
    assert r[..|url|] == url;
    if '?' !in url {
      assert r[|url|] == '?';
    }
  }

  /** A second timestamp is appended as a further parameter, with `&`. */
  lemma AddTimestampTwice(url: string, t1: int, t2: int)
    ensures AddTimestamp(AddTimestamp(url, t1), t2) == AddTimestamp(url, t1) + "&t=" + IntToString(t2)
  {
    AddTimestampExtends(url, t1);
  }
}
