/**
  Startup: the two configuration lists, the table of every port the process
  wants (`validateListenPorts`), and the order in which `main` and `runProxies`
  publish metrics and bind listeners.

  JSON decoding, trimming, host:port splitting and number parsing are library
  calls: the lists come decoded, and `Lib` stands for the rest.
 */
module Planning {
  import opened Octets
  import opened Wrappers

  const PG_MIN := 5400
  const PG_MAX := 6000
  const TCP_MIN := 9000
  const TCP_MAX := 9999
  const DNS_PORT := 53

  datatype PgEntry = PgEntry(name: Bytes, listen: int, target: Bytes, dbName: Bytes, user: Bytes, password: Bytes)
  datatype TcpEntry = TcpEntry(name: Bytes, listen: int, target: Bytes)

  /** strings.TrimSpace, and whether net.SplitHostPort accepts a target. */
  datatype Lib = Lib(trim: Bytes -> Bytes, hostPort: Bytes -> bool)

  datatype ConfigError =
    | EmptyName(index: nat)
    | BadPort(name: Bytes, port: int)
    | BadTarget(name: Bytes)
    | UserWithoutPassword(name: Bytes)
    | PasswordWithoutUser(name: Bytes)
    | DbWithoutUser(name: Bytes)
    | DuplicateName(name: Bytes)
    | PortUsedTwice(port: int, first: Bytes, second: Bytes)

  // ------------------------------------------------------- the two parsers

  function TrimPg(lib: Lib, u: PgEntry): PgEntry {
    u.(name := lib.trim(u.name), target := lib.trim(u.target), dbName := lib.trim(u.dbName), user := lib.trim(u.user))
  }

  /** One trimmed entry on its own: a managed entry has user and password, any other has neither, nor a database. */
  predicate PgEntryOk(lib: Lib, u: PgEntry) {
    && u.name != [] && 0 < u.listen <= 65535 && lib.hostPort(u.target)
    && (u.user != [] <==> u.password != []) && (u.dbName != [] ==> u.user != [])
  }

  predicate PgListOk(lib: Lib, us: seq<PgEntry>) {
    && (forall i :: 0 <= i < |us| ==> PgEntryOk(lib, us[i]))
    && (forall i, j :: 0 <= i < j < |us| ==> us[i].name != us[j].name && us[i].listen != us[j].listen)
  }

  function TrimPgs(lib: Lib, list: seq<PgEntry>): (r: seq<PgEntry>)
    ensures |r| == |list|
    ensures forall i :: 0 <= i < |list| ==>
              var u := list[i];
              r[i] == PgEntry(lib.trim(u.name), u.listen, lib.trim(u.target), lib.trim(u.dbName), lib.trim(u.user),
                u.password)
  {
    seq(|list|, i requires 0 <= i < |list| => TrimPg(lib, list[i]))
  }

  /** Entry i is the first to break the list, and `e` is about it: bad by itself, a taken name, or a taken port. */
  predicate PgErrorAt(lib: Lib, us: seq<PgEntry>, i: nat, e: ConfigError) {
    && i < |us| && PgListOk(lib, us[..i]) && !PgListOk(lib, us[..i + 1])
    && (if !PgEntryOk(lib, us[i]) then CheckPgEntry(lib, i, us[i]) == Some(e)
        else if exists k :: 0 <= k < i && us[k].name == us[i].name then e == DuplicateName(us[i].name)
        else exists k :: 0 <= k < i && us[k].listen == us[i].listen
                         && e == PortUsedTwice(us[i].listen, us[k].name, us[i].name))
  }

  /** `parseDestinationPgDbsJSON` after decoding: accepts exactly the valid lists. */
  method ParsePgEntries(lib: Lib, list: seq<PgEntry>) returns (r: Result<seq<PgEntry>, ConfigError>)
    ensures r.Ok? <==> PgListOk(lib, TrimPgs(lib, list))
    ensures r.Ok? ==> r.value == TrimPgs(lib, list)
    ensures r.Err? ==> exists i: nat :: PgErrorAt(lib, TrimPgs(lib, list), i, r.error)
  {
    hide PgListOk, PgEntryOk, PgErrorAt, Seen, CheckPgEntry;
    ghost var all := TrimPgs(lib, list);
    var out: seq<PgEntry> := [];
    var seenName: set<Bytes> := {};
    var seenPort: map<int, Bytes> := map[];
    PgListEmpty(lib);
    NothingSeen(all);
    var i := 0;
    while i < |list|
      invariant 0 <= i <= |list| && out == all[..i]
      invariant PgListOk(lib, out) && Seen(all, i, seenName, seenPort)
    {
      var u := TrimPg(lib, list[i]);
      PgErrors(lib, all, i, seenName, seenPort);
      SeenGrows(lib, all, i, seenName, seenPort);
      var bad := CheckPgEntry(lib, i, u);
      if bad.Some? {
        return Err(bad.value);
      }
      if u.name in seenName {
        return Err(DuplicateName(u.name));
      }
      seenName := seenName + {u.name};
      if u.listen in seenPort {
        return Err(PortUsedTwice(u.listen, seenPort[u.listen], u.name));
      }
      seenPort := seenPort[u.listen := u.name];
      out := out + [u];
      i := i + 1;
    }
    assert out == all;
    r := Ok(out);
  }

  /** The two tables of the loop hold the names and the ports of the entries before i, each port with its entry. */
  ghost predicate Seen(us: seq<PgEntry>, i: nat, names: set<Bytes>, ports: map<int, Bytes>)
    requires i <= |us|
  {
    && (forall n :: n in names <==> exists k :: 0 <= k < i && us[k].name == n)
    && (forall k :: 0 <= k < i ==> us[k].listen in ports)
    && (forall p :: p in ports ==> exists k :: 0 <= k < i && us[k].listen == p && us[k].name == ports[p])
  }

  lemma {:induction false} NothingSeen(us: seq<PgEntry>)
    ensures Seen(us, 0, {}, map[])
  {
  }

  /** Each complaint of the loop is about the first entry that breaks the list. */
  lemma {:induction false} PgErrors(lib: Lib, us: seq<PgEntry>, i: nat, names: set<Bytes>, ports: map<int, Bytes>)
    requires i < |us| && PgListOk(lib, us[..i]) && Seen(us, i, names, ports)
    ensures var u, bad := us[i], CheckPgEntry(lib, i, us[i]);
            && (bad.Some? ==> PgErrorAt(lib, us, i, bad.value) && !PgListOk(lib, us))
            && (bad.None? && u.name in names ==> PgErrorAt(lib, us, i, DuplicateName(u.name)) && !PgListOk(lib, us))
            && (bad.None? && u.name !in names && u.listen in ports ==>
                  && PgErrorAt(lib, us, i, PortUsedTwice(u.listen, ports[u.listen], u.name))
                  && !PgListOk(lib, us))
  {
    PgListExtend(lib, us, i);
    hide PgListOk, PgEntryOk;
  }

  lemma {:induction false} SeenGrows(lib: Lib, us: seq<PgEntry>, i: nat, names: set<Bytes>, ports: map<int, Bytes>)
    requires i < |us| && PgListOk(lib, us[..i]) && Seen(us, i, names, ports)
    ensures var u := us[i];
            CheckPgEntry(lib, i, u).None? && u.name !in names && u.listen !in ports ==>
              && PgListOk(lib, us[..i + 1])
              && Seen(us, i + 1, names + {u.name}, ports[u.listen := u.name])
  {
    PgListExtend(lib, us, i);
    hide PgListOk, PgEntryOk;
  }

  lemma {:induction false} PgListEmpty(lib: Lib)
    ensures PgListOk(lib, [])
  {
  }

  lemma {:induction false} PgListExtend(lib: Lib, us: seq<PgEntry>, i: nat)
    requires i < |us|
    ensures PgListOk(lib, us[..i + 1]) <==>
            && PgListOk(lib, us[..i]) && PgEntryOk(lib, us[i])
            && (forall k :: 0 <= k < i ==> us[k].name != us[i].name && us[k].listen != us[i].listen)
    ensures !PgListOk(lib, us[..i + 1]) ==> !PgListOk(lib, us)
  {
    hide PgEntryOk;
    var s, t := us[..i + 1], us[..i];
    assert forall k :: 0 <= k <= i ==> s[k] == us[k];
    assert forall k :: 0 <= k < i ==> t[k] == us[k];
  }

  /** The checks of one entry, in the order the code makes them. */
  function CheckPgEntry(lib: Lib, i: nat, u: PgEntry): (bad: Option<ConfigError>)
    ensures bad.None? <==> PgEntryOk(lib, u)
    ensures bad.Some? ==>
              match bad.value
              case EmptyName(k) => k == i && u.name == []
              case BadPort(n, p) => n == u.name != [] && p == u.listen && !(1 <= p <= 65535)
              case BadTarget(n) => n == u.name && !lib.hostPort(u.target)
              case UserWithoutPassword(n) => n == u.name && u.user != [] && u.password == []
              case PasswordWithoutUser(n) => n == u.name && u.user == [] && u.password != []
              case DbWithoutUser(n) => n == u.name && u.dbName != [] && u.user == []
              case _ => false
  {
    if u.name == [] then Some(EmptyName(i))
    else if u.listen <= 0 || u.listen > 65535 then Some(BadPort(u.name, u.listen))
    else if !lib.hostPort(u.target) then Some(BadTarget(u.name))
    else if u.user != [] && u.password == [] then Some(UserWithoutPassword(u.name))
    else if u.user == [] && u.password != [] then Some(PasswordWithoutUser(u.name))
    else if u.dbName != [] && u.user == [] then Some(DbWithoutUser(u.name))
    else None
  }

  predicate TcpListOk(lib: Lib, ts: seq<TcpEntry>) {
    && (forall i :: 0 <= i < |ts| ==> ts[i].name != [] && 0 < ts[i].listen <= 65535 && lib.hostPort(ts[i].target))
    && (forall i, j :: 0 <= i < j < |ts| ==> ts[i].name != ts[j].name)
  }

  function TrimTcps(lib: Lib, list: seq<TcpEntry>): (r: seq<TcpEntry>)
    ensures |r| == |list|
    ensures forall i :: 0 <= i < |list| ==>
              r[i] == list[i].(name := lib.trim(list[i].name), target := lib.trim(list[i].target))
  {
    seq(|list|, i requires 0 <= i < |list| =>
          list[i].(name := lib.trim(list[i].name), target := lib.trim(list[i].target)))
  }

  function CheckTcpEntry(lib: Lib, i: nat, t: TcpEntry): (bad: Option<ConfigError>)
    ensures bad.None? <==> t.name != [] && 0 < t.listen <= 65535 && lib.hostPort(t.target)
    ensures bad.Some? ==>
              match bad.value
              case EmptyName(k) => k == i && t.name == []
              case BadPort(n, p) => n == t.name != [] && p == t.listen && !(1 <= p <= 65535)
              case BadTarget(n) => n == t.name && !lib.hostPort(t.target)
              case _ => false
  {
    if t.name == [] then Some(EmptyName(i))
    else if t.listen <= 0 || t.listen > 65535 then Some(BadPort(t.name, t.listen))
    else if !lib.hostPort(t.target) then Some(BadTarget(t.name))
    else None
  }

  /** Entry i is the first to break the list, and `e` is about it. */
  predicate TcpErrorAt(lib: Lib, ts: seq<TcpEntry>, i: nat, e: ConfigError) {
    && i < |ts| && TcpListOk(lib, ts[..i]) && !TcpListOk(lib, ts[..i + 1])
    && (CheckTcpEntry(lib, i, ts[i]) == Some(e) ||
      (CheckTcpEntry(lib, i, ts[i]).None? && e == DuplicateName(ts[i].name)))
  }

  /** `parseDestinationTCPTargetsJSON` after decoding. Ports may still repeat here. */
  method ParseTcpEntries(lib: Lib, list: seq<TcpEntry>) returns (r: Result<seq<TcpEntry>, ConfigError>)
    ensures r.Ok? <==> TcpListOk(lib, TrimTcps(lib, list))
    ensures r.Ok? ==> r.value == TrimTcps(lib, list)
    ensures r.Err? ==> exists i: nat :: TcpErrorAt(lib, TrimTcps(lib, list), i, r.error)
  {
    ghost var all := TrimTcps(lib, list);
    var out: seq<TcpEntry> := [];
    var seenName: set<Bytes> := {};
    var i := 0;
    while i < |list|
      invariant 0 <= i <= |list| && out == all[..i]
      invariant TcpListOk(lib, out)
      invariant forall n :: n in seenName <==> exists k :: 0 <= k < i && all[k].name == n
    {
      var t := list[i].(name := lib.trim(list[i].name), target := lib.trim(list[i].target));
      assert t == all[i] && all[..i + 1][i] == t && forall k :: 0 <= k < i ==> all[..i + 1][k] == all[k];
      var bad := CheckTcpEntry(lib, i, t);
      if bad.Some? {
        assert TcpErrorAt(lib, all, i, bad.value);
        return Err(bad.value);
      }
      if t.name in seenName {
        assert TcpErrorAt(lib, all, i, DuplicateName(t.name));
        return Err(DuplicateName(t.name));
      }
      seenName := seenName + {t.name};
      out := out + [t];
      i := i + 1;
    }
    r := Ok(out);
  }

  // ---------------------------------------------------------- the port table

  datatype Owner = PgOwner(name: Bytes) | TcpOwner(name: Bytes) | ConnectOwner | DebugOwner | DnsOwner

  datatype Claim = Claim(port: int, owner: Owner)

  /** --http-proxy-listen: empty, not host:port, or a port that may not be a number. */
  datatype HttpFlag = HttpOff | HttpMalformed | HttpAddr(port: Option<int>)

  datatype PortError =
    | PgOutOfRange(name: Bytes, port: int)
    | TcpOutOfRange(name: Bytes, port: int)
    | HttpInvalid
    | Clash(port: int, first: Owner, second: Owner)

  function PgClaims(us: seq<PgEntry>): (r: seq<Claim>)
    ensures |r| == |us| && forall i :: 0 <= i < |us| ==> r[i] == Claim(us[i].listen, PgOwner(us[i].name))
  {
    seq(|us|, i requires 0 <= i < |us| => Claim(us[i].listen, PgOwner(us[i].name)))
  }

  function TcpClaims(ts: seq<TcpEntry>): (r: seq<Claim>)
    ensures |r| == |ts| && forall i :: 0 <= i < |ts| ==> r[i] == Claim(ts[i].listen, TcpOwner(ts[i].name))
  {
    seq(|ts|, i requires 0 <= i < |ts| => Claim(ts[i].listen, TcpOwner(ts[i].name)))
  }

  predicate HttpOk(h: HttpFlag) {
    h == HttpOff || (h.HttpAddr? && h.port.Some? && 0 < h.port.value <= 65535)
  }

  function HttpClaims(h: HttpFlag): seq<Claim>
    requires HttpOk(h)
  {
    if h == HttpOff then [] else [Claim(h.port.value, ConnectOwner)]
  }

  function DebugClaims(debugPort: int): seq<Claim> {
    if debugPort > 0 then [Claim(debugPort, DebugOwner)] else []
  }

  const DNS_CLAIM := Claim(DNS_PORT, DnsOwner)

  function Claims(us: seq<PgEntry>, ts: seq<TcpEntry>, h: HttpFlag, debugPort: int): seq<Claim>
    requires HttpOk(h)
  {
    PgClaims(us) + TcpClaims(ts) + HttpClaims(h) + DebugClaims(debugPort) + [DNS_CLAIM]
  }

  predicate InBands(us: seq<PgEntry>, ts: seq<TcpEntry>) {
    && (forall i :: 0 <= i < |us| ==> PG_MIN <= us[i].listen <= PG_MAX)
    && (forall i :: 0 <= i < |ts| ==> TCP_MIN <= ts[i].listen <= TCP_MAX)
  }

  predicate Distinct(cs: seq<Claim>) {
    forall i, j :: 0 <= i < j < |cs| ==> cs[i].port != cs[j].port
  }

  /** Claim j is the earliest that repeats a port, and i is the only earlier claim to that port. */
  predicate FirstClash(cs: seq<Claim>, i: nat, j: nat) {
    && i < j < |cs| && cs[i].port == cs[j].port && Distinct(cs[..j])
    && forall k :: 0 <= k < j && cs[k].port == cs[j].port ==> k == i
  }

  /** The loop over the claims with its map from ports to owners. */
  method FindClash(cs: seq<Claim>) returns (r: Option<PortError>)
    ensures r.None? <==> Distinct(cs)
    ensures r.Some? ==>
              exists i: nat, j: nat ::
                FirstClash(cs, i, j) && r == Some(Clash(cs[j].port, cs[i].owner, cs[j].owner))
  {
    var byPort: map<int, Owner> := map[];
    var j := 0;
    while j < |cs|
      invariant 0 <= j <= |cs| && Distinct(cs[..j])
      invariant forall k :: 0 <= k < j ==> cs[k].port in byPort && byPort[cs[k].port] == cs[k].owner
      invariant forall p :: p in byPort ==> exists k :: 0 <= k < j && cs[k].port == p
    {
      var c := cs[j];
      if c.port in byPort {
        ghost var i :| 0 <= i < j && cs[i].port == c.port;
        assert cs[..j][i] == cs[i];
        assert forall k :: 0 <= k < j ==> cs[..j][k] == cs[k];
        assert FirstClash(cs, i, j);
        return Some(Clash(c.port, byPort[c.port], c.owner));
      }
      byPort := byPort[c.port := c.owner];
      assert forall k :: 0 <= k < j ==> cs[..j][k] == cs[k];
      j := j + 1;
    }
    assert cs[..j] == cs;
    r := None;
  }

  /** What a refusal says: the first entry out of its band, Postgres first, then the flag, then the first clash. */
  ghost predicate PortErrorMeans(us: seq<PgEntry>, ts: seq<TcpEntry>, h: HttpFlag, debugPort: int, e: PortError) {
    match e
    case PgOutOfRange(name, port) =>
      exists i :: 0 <= i < |us| && us[i].name == name && us[i].listen == port && InBands(us[..i], [])
                  && !(PG_MIN <= port <= PG_MAX)
    case TcpOutOfRange(name, port) =>
      exists i :: 0 <= i < |ts| && ts[i].name == name && ts[i].listen == port && InBands(us, ts[..i])
                  && !(TCP_MIN <= port <= TCP_MAX)
    case HttpInvalid => InBands(us, ts) && !HttpOk(h)
    case Clash(port, first, second) =>
      && InBands(us, ts) && HttpOk(h)
      && var cs := Claims(us, ts, h, debugPort);
         exists i: nat, j: nat :: FirstClash(cs, i, j) && cs[i] == Claim(port, first) && cs[j] == Claim(port, second)
  }

  /** `validateListenPorts` */
  method ValidateListenPorts(us: seq<PgEntry>, ts: seq<TcpEntry>, h: HttpFlag, debugPort: int)
    returns (r: Option<PortError>)
    ensures r.None? <==> InBands(us, ts) && HttpOk(h) && Distinct(Claims(us, ts, h, debugPort))
    ensures r.Some? ==> PortErrorMeans(us, ts, h, debugPort, r.value)
  {
    var claims: seq<Claim> := [];
    var i := 0;
    while i < |us|
      invariant 0 <= i <= |us| && claims == PgClaims(us)[..i]
      invariant forall k :: 0 <= k < i ==> PG_MIN <= us[k].listen <= PG_MAX
    {
      if us[i].listen < PG_MIN || us[i].listen > PG_MAX {
        return Some(PgOutOfRange(us[i].name, us[i].listen));
      }
      claims := claims + [Claim(us[i].listen, PgOwner(us[i].name))];
      i := i + 1;
    }
    assert claims == PgClaims(us);
    i := 0;
    while i < |ts|
      invariant 0 <= i <= |ts| && claims == PgClaims(us) + TcpClaims(ts)[..i]
      invariant forall k :: 0 <= k < i ==> TCP_MIN <= ts[k].listen <= TCP_MAX
    {
      if ts[i].listen < TCP_MIN || ts[i].listen > TCP_MAX {
        return Some(TcpOutOfRange(ts[i].name, ts[i].listen));
      }
      claims := claims + [Claim(ts[i].listen, TcpOwner(ts[i].name))];
      i := i + 1;
    }
    assert TcpClaims(ts)[..i] == TcpClaims(ts);
    if !HttpOk(h) {
      return Some(HttpInvalid);
    }
    if h != HttpOff {
      claims := claims + [Claim(h.port.value, ConnectOwner)];
    }
    if debugPort > 0 {
      claims := claims + [Claim(debugPort, DebugOwner)];
    }
    claims := claims + [DNS_CLAIM];
    assert claims == Claims(us, ts, h, debugPort);
    r := FindClash(claims);
  }

  // ------------------------------------------------------------ binding order

  datatype Action = BindTcp(claim: Claim) | BindUdp(port: int) | Publish(name: Bytes) | Validated

  /** The flags, with the two lists decoded; `fly` is a non-empty --fly-listen-host, `dns` a resolver. */
  datatype Settings = Settings(
    pgs: seq<PgEntry>, tcps: seq<TcpEntry>, http: HttpFlag, debugPort: int, fly: bool, dns: bool)

  const PG_PREFIX: Bytes := [112, 103, 112, 114, 111, 120, 121, 95]        // "pgproxy_"
  const TCP_PREFIX: Bytes := [116, 99, 112, 95]                            // "tcp_"
  const HTTP_NAME: Bytes := [104, 116, 116, 112, 95, 112, 114, 111, 120, 121]  // "http_proxy"

  function PgNames(us: seq<PgEntry>): (r: seq<Bytes>)
    ensures |r| == |us| && forall i :: 0 <= i < |us| ==> r[i] == PG_PREFIX + us[i].name
  {
    seq(|us|, i requires 0 <= i < |us| => PG_PREFIX + us[i].name)
  }

  function TcpNames(ts: seq<TcpEntry>): (r: seq<Bytes>)
    ensures |r| == |ts| && forall i :: 0 <= i < |ts| ==> r[i] == TCP_PREFIX + ts[i].name
  {
    seq(|ts|, i requires 0 <= i < |ts| => TCP_PREFIX + ts[i].name)
  }

  predicate Accepted(lib: Lib, c: Settings) {
    var us, ts := TrimPgs(lib, c.pgs), TrimTcps(lib, c.tcps);
    && PgListOk(lib, us) && TcpListOk(lib, ts)
    && InBands(us, ts) && HttpOk(c.http) && Distinct(Claims(us, ts, c.http, c.debugPort))
  }

  /** The listener `main` opens before anything else. */
  function DebugPlan(c: Settings): seq<Claim> {
    if c.debugPort != 0 then [Claim(c.debugPort, DebugOwner)] else []
  }

  function InfraPlan(h: HttpFlag, dns: bool): seq<Claim>
    requires HttpOk(h)
  {
    HttpClaims(h) + if dns then [DNS_CLAIM] else []
  }

  function InfraNames(h: HttpFlag): seq<Bytes> {
    if h == HttpOff then [] else [HTTP_NAME]
  }

  function ListenPlan(us: seq<PgEntry>, ts: seq<TcpEntry>, c: Settings): seq<Claim>
    requires HttpOk(c.http)
  {
    (if c.fly then PgClaims(us) else []) + (if c.fly then TcpClaims(ts) else []) + InfraPlan(c.http, c.dns)
  }

  function PublishPlan(us: seq<PgEntry>, ts: seq<TcpEntry>, h: HttpFlag): seq<Bytes> {
    PgNames(us) + TcpNames(ts) + InfraNames(h)
  }

  /** The TCP listeners `runProxies` opens once the ports are accepted, and the metrics it publishes. */
  function ProxyPlan(lib: Lib, c: Settings): seq<Claim> {
    if Accepted(lib, c) then ListenPlan(TrimPgs(lib, c.pgs), TrimTcps(lib, c.tcps), c) else []
  }

  function NamePlan(lib: Lib, c: Settings): seq<Bytes> {
    if Accepted(lib, c) then PublishPlan(TrimPgs(lib, c.pgs), TrimTcps(lib, c.tcps), c.http) else []
  }

  lemma {:induction false} AcceptedIff(lib: Lib, c: Settings)
    ensures var us, ts := TrimPgs(lib, c.pgs), TrimTcps(lib, c.tcps);
            && (Accepted(lib, c) <==>
                  && PgListOk(lib, us) && TcpListOk(lib, ts)
                  && InBands(us, ts) && HttpOk(c.http) && Distinct(Claims(us, ts, c.http, c.debugPort)))
            && (Accepted(lib, c) ==>
                  ProxyPlan(lib, c) == ListenPlan(us, ts, c) && NamePlan(lib, c) == PublishPlan(us, ts, c.http))
            && (!Accepted(lib, c) ==> ProxyPlan(lib, c) == [] && NamePlan(lib, c) == [])
  {
    hide PgListOk, TcpListOk, InBands, Distinct, ListenPlan, PublishPlan;
  }

  lemma {:induction false} PrefixThree<T>(base: seq<T>, a: seq<T>, b: seq<T>, d: seq<T>, i: nat, j: nat)
    requires i <= |a| && j <= |b| && (j > 0 ==> i == |a|)
    ensures base + a[..i] <= base + (a + b + d)
    ensures base + a[..i] + b[..j] <= base + (a + b + d)
  {
  }

  lemma {:induction false} Regroup<T>(base: seq<T>, a: seq<T>, b: seq<T>, d: seq<T>)
    ensures base + a + b + d == base + (a + b + d)
  {
  }

  /** The TCP binds of a log, and the metric names it published. */
  function Binds(log: seq<Action>): seq<Claim> {
    if log == [] then []
    else
      var e := log[|log| - 1];
      Binds(log[..|log| - 1]) + if e.BindTcp? then [e.claim] else []
  }

  function Names(log: seq<Action>): seq<Bytes> {
    if log == [] then []
    else
      var e := log[|log| - 1];
      Names(log[..|log| - 1]) + if e.Publish? then [e.name] else []
  }

  predicate IsBind(e: Action) {
    e.BindTcp? || e.BindUdp?
  }

  /** Every listener comes after validation, except that the first action may bind the debug port. */
  predicate Guarded(log: seq<Action>) {
    forall i :: 0 <= i < |log| && IsBind(log[i]) ==>
                  Validated in log[..i] || (i == 0 && log[0].BindTcp? && log[0].claim.owner == DebugOwner)
  }

  /** Every listener comes after validation. */
  predicate CheckedBeforeBinding(log: seq<Action>) {
    forall i :: 0 <= i < |log| && IsBind(log[i]) ==> Validated in log[..i]
  }

  /** What `main` does before it looks at the configuration. */
  function DebugLog(c: Settings, ok: nat -> bool): seq<Action> {
    if c.debugPort != 0 && ok(0) then [BindTcp(Claim(c.debugPort, DebugOwner))] else []
  }

  /** A log that begins with the debug listener, or with validation, or not at all. */
  lemma {:induction false} CheckedIff(log: seq<Action>, c: Settings, ok: nat -> bool)
    requires Guarded(log) && DebugLog(c, ok) <= log
    requires log == DebugLog(c, ok) || DebugLog(c, ok) + [Validated] <= log
    ensures CheckedBeforeBinding(log) <==> c.debugPort == 0 || !ok(0)
  {
    if c.debugPort != 0 && ok(0) {
      assert IsBind(log[0]) && log[..0] == [];
    } else if log != [] {
      assert log[0] == Validated;
    }
  }

  lemma {:induction false} EmptyLog(log: seq<Action>)
    requires log == []
    ensures Guarded(log) && Binds(log) == [] && Names(log) == []
  {
  }

  /** Every bind and every proxy's set-up succeeds. */
  ghost predicate AllOk(ok: nat -> bool) {
    forall k: nat :: ok(k)
  }

  class Process {
    var log: seq<Action>

    constructor ()
      ensures log == []
    {
      log := [];
    }

    method Act(e: Action)
      requires Guarded(log)
      requires IsBind(e) ==> Validated in log || (log == [] && e.BindTcp? && e.claim.owner == DebugOwner)
      modifies this
      ensures log == old(log) + [e] && Guarded(log)
      ensures Binds(log) == Binds(old(log)) + if e.BindTcp? then [e.claim] else []
      ensures Names(log) == Names(old(log)) + if e.Publish? then [e.name] else []
    {
      ghost var next := log + [e];
      assert next[..|log|] == log && next[|log|] == e;
      assert forall i :: 0 <= i < |log| ==> next[i] == log[i] && next[..i] == log[..i];
      log := log + [e];
    }

    /** The loop over the Postgres entries; `ok(k)` says whether the k-th call that can fail succeeds. */
    method StartPg(us: seq<PgEntry>, fly: bool, ok: nat -> bool) returns (up: bool, ghost b: nat, ghost n: nat)
      requires Guarded(log) && Validated in log
      modifies this
      ensures Guarded(log) && Validated in log && old(log) <= log
      ensures b <= |us| && n <= |us| && (up ==> b == n == |us|) && (AllOk(ok) ==> up)
      ensures Binds(log) == Binds(old(log)) + if fly then PgClaims(us)[..b] else []
      ensures Names(log) == Names(old(log)) + PgNames(us)[..n]
    {
      hide Guarded, Binds, Names;
      var i := 0;
      while i < |us|
        invariant 0 <= i <= |us|
        invariant Guarded(log) && Validated in log && old(log) <= log
        invariant Binds(log) == Binds(old(log)) + if fly then PgClaims(us)[..i] else []
        invariant Names(log) == Names(old(log)) + PgNames(us)[..i]
      {
        if !ok(|log|) {
          return false, i, i;
        }
        assert PgNames(us)[..i + 1] == PgNames(us)[..i] + [PG_PREFIX + us[i].name];
        assert PgClaims(us)[..i + 1] == PgClaims(us)[..i] + [Claim(us[i].listen, PgOwner(us[i].name))];
        Act(Publish(PG_PREFIX + us[i].name));
        if fly {
          if !ok(|log|) {
            return false, i, i + 1;
          }
          Act(BindTcp(Claim(us[i].listen, PgOwner(us[i].name))));
        }
        i := i + 1;
      }
      return true, i, i;
    }

    /** The loop over the plain-TCP entries. */
    method StartTcp(ts: seq<TcpEntry>, fly: bool, ok: nat -> bool) returns (up: bool, ghost b: nat, ghost n: nat)
      requires Guarded(log) && Validated in log
      modifies this
      ensures Guarded(log) && Validated in log && old(log) <= log
      ensures b <= |ts| && n <= |ts| && (up ==> b == n == |ts|) && (AllOk(ok) ==> up)
      ensures Binds(log) == Binds(old(log)) + if fly then TcpClaims(ts)[..b] else []
      ensures Names(log) == Names(old(log)) + TcpNames(ts)[..n]
    {
      hide Guarded, Binds, Names;
      var i := 0;
      while i < |ts|
        invariant 0 <= i <= |ts|
        invariant Guarded(log) && Validated in log && old(log) <= log
        invariant Binds(log) == Binds(old(log)) + if fly then TcpClaims(ts)[..i] else []
        invariant Names(log) == Names(old(log)) + TcpNames(ts)[..i]
      {
        assert TcpNames(ts)[..i + 1] == TcpNames(ts)[..i] + [TCP_PREFIX + ts[i].name];
        assert TcpClaims(ts)[..i + 1] == TcpClaims(ts)[..i] + [Claim(ts[i].listen, TcpOwner(ts[i].name))];
        Act(Publish(TCP_PREFIX + ts[i].name));
        if fly {
          if !ok(|log|) {
            return false, i, i + 1;
          }
          Act(BindTcp(Claim(ts[i].listen, TcpOwner(ts[i].name))));
        }
        i := i + 1;
      }
      return true, i, i;
    }

    /** The CONNECT proxy and the DNS forwarder, UDP before TCP. */
    method StartInfra(h: HttpFlag, dns: bool, ok: nat -> bool) returns (up: bool)
      requires Guarded(log) && Validated in log && HttpOk(h)
      modifies this
      ensures Guarded(log) && old(log) <= log
      ensures Binds(log) <= Binds(old(log)) + InfraPlan(h, dns)
      ensures Names(log) == Names(old(log)) + InfraNames(h)
      ensures AllOk(ok) ==> up
      ensures up ==> Binds(log) == Binds(old(log)) + InfraPlan(h, dns)
      ensures up && dns ==> BindUdp(53) in log
    {
      hide Guarded, Binds, Names;
      up := false;
      if h != HttpOff {
        Act(Publish(HTTP_NAME));
        if !ok(|log|) {
          return;
        }
        Act(BindTcp(Claim(h.port.value, ConnectOwner)));
      }
      if dns {
        if !ok(|log|) {
          return;
        }
        Act(BindUdp(DNS_PORT));
        if !ok(|log|) {
          return;
        }
        Act(BindTcp(DNS_CLAIM));
      }
      up := true;
    }

    /** What follows a successful validation. */
    method StartAll(us: seq<PgEntry>, ts: seq<TcpEntry>, c: Settings, ok: nat -> bool) returns (up: bool)
      requires Guarded(log) && Validated in log && HttpOk(c.http)
      modifies this
      ensures Guarded(log) && old(log) <= log && (AllOk(ok) ==> up)
      ensures Binds(log) <= Binds(old(log)) + ListenPlan(us, ts, c) &&
              Names(log) <= Names(old(log)) + PublishPlan(us, ts, c.http)
      ensures up ==> Binds(log) == Binds(old(log)) + ListenPlan(us, ts, c)
      ensures up && c.dns ==> BindUdp(53) in log
      ensures up ==> Names(log) == Names(old(log)) + PublishPlan(us, ts, c.http)
    {
      hide Guarded, Binds, Names, InfraPlan, InfraNames;
      ghost var base, names := Binds(log), Names(log);
      ghost var a, b := if c.fly then PgClaims(us) else [], if c.fly then TcpClaims(ts) else [];
      ghost var i, n;
      up, i, n := StartPg(us, c.fly, ok);
      if !up {
        PrefixThree(base, a, b, InfraPlan(c.http, c.dns), if c.fly then i else 0, 0);
        PrefixThree(names, PgNames(us), TcpNames(ts), InfraNames(c.http), n, 0);
        return;
      }
      assert PgClaims(us)[..i] == PgClaims(us) && PgNames(us)[..n] == PgNames(us);
      up, i, n := StartTcp(ts, c.fly, ok);
      if !up {
        PrefixThree(base, a, b, InfraPlan(c.http, c.dns), |a|, if c.fly then i else 0);
        PrefixThree(names, PgNames(us), TcpNames(ts), InfraNames(c.http), |us|, n);
        return;
      }
      assert TcpClaims(ts)[..i] == TcpClaims(ts) && TcpNames(ts)[..n] == TcpNames(ts);
      up := StartInfra(c.http, c.dns, ok);
      Regroup(base, a, b, InfraPlan(c.http, c.dns));
      Regroup(names, PgNames(us), TcpNames(ts), InfraNames(c.http));
    }

    /** `runProxies`: both lists, then validation, then everything else. */
    method RunProxies(lib: Lib, c: Settings, ok: nat -> bool) returns (up: bool)
      requires Guarded(log)
      modifies this
      ensures Guarded(log)
      ensures if Accepted(lib, c) then old(log) + [Validated] <= log else log == old(log)
      ensures Accepted(lib, c) && AllOk(ok) ==> up
      ensures up && c.dns ==> BindUdp(53) in log
      ensures Binds(log) <= Binds(old(log)) + ProxyPlan(lib, c) && Names(log) <= Names(old(log)) + NamePlan(lib, c)
      ensures up ==> Accepted(lib, c)
      ensures up ==> Binds(log) == Binds(old(log)) + ProxyPlan(lib, c)
      ensures up ==> Names(log) == Names(old(log)) + NamePlan(lib, c)
    {
      hide Accepted, ProxyPlan, NamePlan, ListenPlan, PublishPlan, Claims;
      hide PgListOk, TcpListOk, InBands, HttpOk, Distinct, Guarded, Binds, Names;
      up := false;
      AcceptedIff(lib, c);
      var us := ParsePgEntries(lib, c.pgs);
      if us.Err? {
        return;
      }
      var ts := ParseTcpEntries(lib, c.tcps);
      if ts.Err? {
        return;
      }
      var clash := ValidateListenPorts(us.value, ts.value, c.http, c.debugPort);
      if clash.Some? {
        return;
      }
      Act(Validated);
      up := StartAll(us.value, ts.value, c, ok);
    }

    /**
      `main`: the debug listener, then `runProxies`. Ports are checked before
      anything binds if and only if no debug listener comes up, and a refused
      configuration leaves exactly that listener behind.
     */
    method Launch(lib: Lib, c: Settings, ok: nat -> bool) returns (up: bool)
      requires log == []
      modifies this
      ensures Guarded(log) && DebugLog(c, ok) <= log
      ensures CheckedBeforeBinding(log) <==> c.debugPort == 0 || !ok(0)
      ensures !Accepted(lib, c) ==> log == DebugLog(c, ok)
      ensures Accepted(lib, c) && AllOk(ok) ==> up
      ensures up && c.dns ==> BindUdp(53) in log
      ensures Binds(log) <= DebugPlan(c) + ProxyPlan(lib, c) && Names(log) <= NamePlan(lib, c)
      ensures up ==> Accepted(lib, c)
      ensures up ==> Binds(log) == DebugPlan(c) + ProxyPlan(lib, c) && Names(log) == NamePlan(lib, c)
    {
      hide Accepted, ProxyPlan, NamePlan, Guarded, Binds, Names, CheckedBeforeBinding;
      up := false;
      EmptyLog(log);
      if c.debugPort != 0 {
        if !ok(|log|) {
          CheckedIff(log, c, ok);
          return;
        }
        Act(BindTcp(Claim(c.debugPort, DebugOwner)));
      }
      assert log == DebugLog(c, ok);
      assert Binds(log) == DebugPlan(c) && Names(log) == [];
      up := RunProxies(lib, c, ok);
      CheckedIff(log, c, ok);
    }
  }

  /** With nothing else configured, the CONNECT proxy may have any port but that of the DNS forwarder. */
  lemma {:induction false} ProxyPortAccepted(lib: Lib, p: int, fly: bool, dns: bool)
    ensures Accepted(lib, Settings([], [], HttpAddr(Some(p)), 0, fly, dns)) <==> 1 <= p <= 65535 && p != 53
  {
    var c := Settings([], [], HttpAddr(Some(p)), 0, fly, dns);
    assert TrimPgs(lib, []) == [] && TrimTcps(lib, []) == [];
    AcceptedIff(lib, c);
    NoEntries(lib);
    hide Accepted, PgListOk, TcpListOk, InBands, Distinct;
    if HttpOk(c.http) {
      var cs := Claims([], [], c.http, 0);
      assert cs == [Claim(p, ConnectOwner), DNS_CLAIM];
      TwoApart(cs);
    }
  }

  lemma {:induction false} NoEntries(lib: Lib)
    ensures PgListOk(lib, []) && TcpListOk(lib, []) && InBands([], [])
  {
  }

  /** A Postgres entry by itself may have any port of its band. */
  lemma {:induction false} PgPortAccepted(lib: Lib, u: PgEntry)
    requires PgEntryOk(lib, TrimPg(lib, u))
    ensures Accepted(lib, Settings([u], [], HttpOff, 0, true, true)) <==> 5400 <= u.listen <= 6000
  {
    var c, x := Settings([u], [], HttpOff, 0, true, true), TrimPg(lib, u);
    assert TrimPgs(lib, [u]) == [x] && TrimTcps(lib, []) == [];
    AcceptedIff(lib, c);
    SolePg(lib, x);
    hide Accepted, PgEntryOk, PgListOk, TcpListOk, InBands, Distinct;
    var cs := Claims([x], [], HttpOff, 0);
    assert cs == [Claim(x.listen, PgOwner(x.name)), DNS_CLAIM];
    TwoApart(cs);
  }

  /** And a plain-TCP one of its own. */
  lemma {:induction false} TcpPortAccepted(lib: Lib, t: TcpEntry)
    requires lib.trim(t.name) != [] && lib.hostPort(lib.trim(t.target)) && 1 <= t.listen <= 65535
    ensures Accepted(lib, Settings([], [t], HttpOff, 0, true, true)) <==> 9000 <= t.listen <= 9999
  {
    var c, x := Settings([], [t], HttpOff, 0, true, true), t.(name := lib.trim(t.name), target := lib.trim(t.target));
    assert TrimPgs(lib, []) == [] && TrimTcps(lib, [t]) == [x];
    AcceptedIff(lib, c);
    SoleTcp(lib, x);
    hide Accepted, PgListOk, TcpListOk, InBands, Distinct;
    var cs := Claims([], [x], HttpOff, 0);
    assert cs == [Claim(x.listen, TcpOwner(x.name)), DNS_CLAIM];
    TwoApart(cs);
  }

  lemma {:induction false} SoleTcp(lib: Lib, x: TcpEntry)
    requires x.name != [] && lib.hostPort(x.target) && 1 <= x.listen <= 65535
    ensures PgListOk(lib, []) && TcpListOk(lib, [x]) && (InBands([], [x]) <==> 9000 <= x.listen <= 9999)
  {
    assert [x][0] == x;
  }

  lemma {:induction false} SolePg(lib: Lib, x: PgEntry)
    requires PgEntryOk(lib, x)
    ensures PgListOk(lib, [x]) && TcpListOk(lib, []) && (InBands([x], []) <==> 5400 <= x.listen <= 6000)
  {
    hide PgEntryOk;
    assert [x][0] == x;
  }

  lemma {:induction false} TwoApart(cs: seq<Claim>)
    requires |cs| == 2
    ensures Distinct(cs) <==> cs[0].port != cs[1].port
  {
  }

  /** The CONNECT proxy on the debug port: refused by the port table, with the debug listener already up. */
  lemma {:induction false} RefusedWithDebugUp(lib: Lib, ok: nat -> bool, c: Settings)
    requires c == Settings([], [], HttpAddr(Some(80)), 80, true, true) && ok(0)
    ensures !Accepted(lib, c) && DebugLog(c, ok) == [BindTcp(Claim(80, DebugOwner))]
  {
    var cs := Claims(TrimPgs(lib, c.pgs), TrimTcps(lib, c.tcps), c.http, c.debugPort);
    assert cs[0] == Claim(80, ConnectOwner) && cs[1] == Claim(80, DebugOwner);
  }

  // ----------------------------------------------------- every run's listeners

  ghost predicate Apart(xs: seq<Claim>, ys: seq<Claim>) {
    forall i, j :: 0 <= i < |xs| && 0 <= j < |ys| ==> xs[i].port != ys[j].port
  }

  lemma {:induction false} DistinctConcat(xs: seq<Claim>, ys: seq<Claim>)
    ensures Distinct(xs + ys) <==> Distinct(xs) && Distinct(ys) && Apart(xs, ys)
  {
    var s := xs + ys;
    if Distinct(s) {
      assert forall i :: 0 <= i < |xs| ==> s[i] == xs[i];
      assert forall j :: 0 <= j < |ys| ==> s[|xs| + j] == ys[j];
    }
  }

  lemma {:induction false} ApartConcat(xs: seq<Claim>, ys: seq<Claim>, zs: seq<Claim>)
    ensures Apart(xs + ys, zs) <==> Apart(xs, zs) && Apart(ys, zs)
  {
    var s := xs + ys;
    if Apart(s, zs) {
      assert forall i :: 0 <= i < |xs| ==> s[i] == xs[i];
      assert forall j :: 0 <= j < |ys| ==> s[|xs| + j] == ys[j];
    }
  }

  /** A distinct table stays distinct when blocks are left out and the debug claim moves to the front. */
  lemma {:induction false} DropBlocks(a: seq<Claim>, b: seq<Claim>, h: seq<Claim>, g: seq<Claim>, d: seq<Claim>)
    requires Distinct(a + b + h + g + d)
    ensures Distinct(h + d) && Distinct(a + b + (h + d)) && Distinct(a + b + h) && Distinct(h)
    ensures Apart(g, h + d) && Apart(g, a + b + (h + d)) && Apart(g, a + b + h) && Apart(g, h)
  {
    hide Distinct, Apart;
    DistinctConcat(a + b + h + g, d);
    DistinctConcat(a + b + h, g);
    DistinctConcat(a + b, h);
    DistinctConcat(h, d);
    DistinctConcat(a + b, h + d);
    ApartConcat(a + b + h, g, d);
    ApartConcat(a + b, h, d);
    ApartConcat(a + b, h, g);
    ApartSym(a + b, h + d);
    ApartConcat(h, d, a + b);
    ApartSym(a + b, h);
    ApartSym(a + b, d);
    ApartSym(g, h + d);
    ApartSym(g, h);
    ApartSym(g, a + b + (h + d));
    ApartSym(g, a + b + h);
    ApartConcat(a + b, h + d, g);
    ApartConcat(h, d, g);
    ApartSym(g, d);
  }

  lemma {:induction false} ApartSym(xs: seq<Claim>, ys: seq<Claim>)
    ensures Apart(xs, ys) <==> Apart(ys, xs)
  {
  }

  lemma {:induction false} ProxyPorts(us: seq<PgEntry>, ts: seq<TcpEntry>, c: Settings)
    requires InBands(us, ts) && HttpOk(c.http)
    ensures forall k :: 0 <= k < |ListenPlan(us, ts, c)| ==>
              var x := ListenPlan(us, ts, c)[k];
              && 0 < x.port <= 65535 && x.owner != DebugOwner
              && (x.owner.PgOwner? ==> PG_MIN <= x.port <= PG_MAX)
              && (x.owner.TcpOwner? ==> TCP_MIN <= x.port <= TCP_MAX)
  {
  }

  /** The listeners of an accepted configuration never share a port, whichever of them are switched off. */
  lemma {:induction false} ListenersDistinct(us: seq<PgEntry>, ts: seq<TcpEntry>, c: Settings)
    requires InBands(us, ts) && HttpOk(c.http) && Distinct(Claims(us, ts, c.http, c.debugPort))
    ensures Distinct(DebugPlan(c) + ListenPlan(us, ts, c))
  {
    hide InBands, Distinct, HttpClaims, Apart;
    var a, b, h, g := PgClaims(us), TcpClaims(ts), HttpClaims(c.http), DebugClaims(c.debugPort);
    DropBlocks(a, b, h, g, [DNS_CLAIM]);
    var plan := ListenPlan(us, ts, c);
    PlanShapes(us, ts, c);
    assert Distinct(plan) && Apart(g, plan);
    ProxyPorts(us, ts, c);
    NegativeApart(DebugPlan(c), g, plan);
    DistinctConcat(DebugPlan(c), plan);
    OneIsDistinct(DebugPlan(c));
  }

  lemma {:induction false} OneIsDistinct(g: seq<Claim>)
    requires |g| <= 1
    ensures Distinct(g)
  {
  }

  lemma {:induction false} PlanShapes(us: seq<PgEntry>, ts: seq<TcpEntry>, c: Settings)
    requires HttpOk(c.http)
    ensures var a, b, h := PgClaims(us), TcpClaims(ts), HttpClaims(c.http);
            ListenPlan(us, ts, c) ==
              if c.fly && c.dns then a + b + (h + [DNS_CLAIM])
              else if c.fly then a + b + h
              else if c.dns then h + [DNS_CLAIM]
              else h
  {
  }

  lemma {:induction false} NegativeApart(debug: seq<Claim>, g: seq<Claim>, plan: seq<Claim>)
    requires Apart(g, plan) && (debug == g || (|debug| == 1 && debug[0].port <= 0))
    requires forall k :: 0 <= k < |plan| ==> plan[k].port > 0
    ensures Apart(debug, plan)
  {
  }

  /**
    Startup, whatever fails and wherever it stops: `binds` is any prefix of the
    listeners in launch order, so every log of `Process.Launch` is covered.
   */
  lemma {:induction false} PlanDistinct(lib: Lib, c: Settings, binds: seq<Claim>)
    requires binds <= DebugPlan(c) + ProxyPlan(lib, c)
    ensures Distinct(binds)
    ensures forall k :: 0 <= k < |binds| ==>
              && (binds[k].owner.PgOwner? ==> 5400 <= binds[k].port <= 6000)
              && (binds[k].owner.TcpOwner? ==> 9000 <= binds[k].port <= 9999)
  {
    hide InBands, ListenPlan, PgListOk, TcpListOk, Distinct;
    var us, ts := TrimPgs(lib, c.pgs), TrimTcps(lib, c.tcps);
    var all := DebugPlan(c) + ProxyPlan(lib, c);
    if Accepted(lib, c) {
      ListenersDistinct(us, ts, c);
      ProxyPorts(us, ts, c);
    } else {
      OneIsDistinct(all);
    }
    PrefixDistinct(binds, all);
    assert forall k :: 0 <= k < |binds| ==> binds[k] == all[k];
  }

  lemma {:induction false} PrefixDistinct(xs: seq<Claim>, ys: seq<Claim>)
    requires xs <= ys && Distinct(ys)
    ensures Distinct(xs)
  {
    assert forall k :: 0 <= k < |xs| ==> xs[k] == ys[k];
  }

  /**
    What the rest of the gateway may rely on in an accepted configuration: names
    and targets are usable, no two entries of a list share a name, and an entry
    has a user exactly when it has a password, so every managed session has
    credentials to log in with and no other entry carries any.
   */
  lemma {:induction false} EntriesAreUsable(lib: Lib, c: Settings, i: nat, j: nat)
    requires Accepted(lib, c)
    ensures i < |c.pgs| ==>
              var u := c.pgs[i];
              && lib.trim(u.name) != [] && lib.hostPort(lib.trim(u.target))
              && (lib.trim(u.user) != [] <==> u.password != [])
              && (lib.trim(u.dbName) != [] ==> lib.trim(u.user) != [])
    ensures i < j < |c.pgs| ==> lib.trim(c.pgs[i].name) != lib.trim(c.pgs[j].name)
    ensures i < |c.tcps| ==> lib.trim(c.tcps[i].name) != [] && lib.hostPort(lib.trim(c.tcps[i].target))
    ensures i < j < |c.tcps| ==> lib.trim(c.tcps[i].name) != lib.trim(c.tcps[j].name)
  {
    var us, ts := TrimPgs(lib, c.pgs), TrimTcps(lib, c.tcps);
    assert PgListOk(lib, us) && TcpListOk(lib, ts);
    hide Accepted;
    if i < |us| {
      assert PgEntryOk(lib, us[i]);
    }
  }

  /** What an accepted start listens on, no more and no less. */
  lemma {:induction false} PlanHolds(lib: Lib, c: Settings, x: Claim)
    requires Accepted(lib, c)
    ensures var us, ts := TrimPgs(lib, c.pgs), TrimTcps(lib, c.tcps);
            x in DebugPlan(c) + ProxyPlan(lib, c) <==>
              || (c.debugPort != 0 && x == Claim(c.debugPort, DebugOwner))
              || (c.fly && exists i :: 0 <= i < |us| && x == Claim(us[i].listen, PgOwner(us[i].name)))
              || (c.fly && exists i :: 0 <= i < |ts| && x == Claim(ts[i].listen, TcpOwner(ts[i].name)))
              || (exists p :: c.http == HttpAddr(Some(p)) && x == Claim(p, ConnectOwner))
              || (c.dns && x == Claim(53, DnsOwner))
  {
    var us, ts := TrimPgs(lib, c.pgs), TrimTcps(lib, c.tcps);
    PgClaimsHold(us, x);
    TcpClaimsHold(ts, x);
    hide PgClaims, TcpClaims, PgListOk, TcpListOk, InBands, Distinct, Claims;
  }

  lemma {:induction false} PgClaimsHold(us: seq<PgEntry>, x: Claim)
    ensures x in PgClaims(us) <==> exists i :: 0 <= i < |us| && x == Claim(us[i].listen, PgOwner(us[i].name))
  {
    if i :| 0 <= i < |us| && x == Claim(us[i].listen, PgOwner(us[i].name)) {
      assert PgClaims(us)[i] == x;
    }
  }

  lemma {:induction false} TcpClaimsHold(ts: seq<TcpEntry>, x: Claim)
    ensures x in TcpClaims(ts) <==> exists i :: 0 <= i < |ts| && x == Claim(ts[i].listen, TcpOwner(ts[i].name))
  {
    if i :| 0 <= i < |ts| && x == Claim(ts[i].listen, TcpOwner(ts[i].name)) {
      assert TcpClaims(ts)[i] == x;
    }
  }

  /** And what it publishes: "pgproxy_" and "tcp_" with the names, and "http_proxy". */
  lemma {:induction false} NamesHold(lib: Lib, c: Settings, x: Bytes)
    requires Accepted(lib, c)
    ensures var us, ts := TrimPgs(lib, c.pgs), TrimTcps(lib, c.tcps);
            x in NamePlan(lib, c) <==>
              || (exists i :: 0 <= i < |us| && x == [112, 103, 112, 114, 111, 120, 121, 95] + us[i].name)
              || (exists i :: 0 <= i < |ts| && x == [116, 99, 112, 95] + ts[i].name)
              || (c.http != HttpOff && x == [104, 116, 116, 112, 95, 112, 114, 111, 120, 121])
  {
    var us, ts := TrimPgs(lib, c.pgs), TrimTcps(lib, c.tcps);
    PgNamesHold(us, x);
    TcpNamesHold(ts, x);
    hide PgNames, TcpNames, PgListOk, TcpListOk, InBands, Distinct, Claims;
  }

  lemma {:induction false} PgNamesHold(us: seq<PgEntry>, x: Bytes)
    ensures x in PgNames(us) <==> exists i :: 0 <= i < |us| && x == [112, 103, 112, 114, 111, 120, 121, 95] + us[i].name
  {
    if i :| 0 <= i < |us| && x == [112, 103, 112, 114, 111, 120, 121, 95] + us[i].name {
      assert PgNames(us)[i] == x;
    }
  }

  lemma {:induction false} TcpNamesHold(ts: seq<TcpEntry>, x: Bytes)
    ensures x in TcpNames(ts) <==> exists i :: 0 <= i < |ts| && x == [116, 99, 112, 95] + ts[i].name
  {
    if i :| 0 <= i < |ts| && x == [116, 99, 112, 95] + ts[i].name {
      assert TcpNames(ts)[i] == x;
    }
  }

  ghost predicate AllDifferent(names: seq<Bytes>) {
    forall i, j :: 0 <= i < j < |names| ==> names[i] != names[j]
  }

  const CMDLINE: Bytes := [99, 109, 100, 108, 105, 110, 101]           // "cmdline"
  const MEMSTATS: Bytes := [109, 101, 109, 115, 116, 97, 116, 115]     // "memstats"

  /** Publishing a name twice panics; no start does, nor meets one of the two names expvar brings itself. */
  lemma {:induction false} NamesDistinct(lib: Lib, c: Settings, names: seq<Bytes>)
    requires names <= NamePlan(lib, c)
    ensures AllDifferent([CMDLINE, MEMSTATS] + names)
  {
    hide InBands, Distinct, HttpOk, PublishPlan, AllDifferent, Claims;
    var us, ts := TrimPgs(lib, c.pgs), TrimTcps(lib, c.tcps);
    if Accepted(lib, c) {
      PublishedDistinct(lib, us, ts, c.http);
    } else {
      BuiltinDistinct([]);
    }
    DifferentPrefix([CMDLINE, MEMSTATS] + names, [CMDLINE, MEMSTATS] + NamePlan(lib, c));
  }

  lemma {:induction false} DifferentPrefix(xs: seq<Bytes>, ys: seq<Bytes>)
    requires xs <= ys && AllDifferent(ys)
    ensures AllDifferent(xs)
  {
    assert forall k :: 0 <= k < |xs| ==> xs[k] == ys[k];
  }

  /** `tag` is the first letter of a metric: 'p', 't' or 'h' by the kind of proxy. */
  ghost predicate Tagged(names: seq<Bytes>, tag: byte) {
    forall i :: 0 <= i < |names| ==> names[i] != [] && names[i][0] == tag
  }

  lemma {:induction false} TaggedConcat(xs: seq<Bytes>, ys: seq<Bytes>, tag: byte)
    requires AllDifferent(xs) && AllDifferent(ys) && Tagged(ys, tag)
    requires forall i :: 0 <= i < |xs| ==> xs[i] != [] && xs[i][0] != tag
    ensures AllDifferent(xs + ys)
  {
  }

  lemma {:induction false} PgNamesDistinct(lib: Lib, us: seq<PgEntry>)
    requires PgListOk(lib, us)
    ensures AllDifferent(PgNames(us)) && Tagged(PgNames(us), 112)
  {
    forall i, j | 0 <= i < j < |us|
      ensures PgNames(us)[i] != PgNames(us)[j]
    {
      assert PgNames(us)[i][|PG_PREFIX|..] == us[i].name && PgNames(us)[j][|PG_PREFIX|..] == us[j].name;
    }
  }

  lemma {:induction false} TcpNamesDistinct(lib: Lib, ts: seq<TcpEntry>)
    requires TcpListOk(lib, ts)
    ensures AllDifferent(TcpNames(ts)) && Tagged(TcpNames(ts), 116)
  {
    forall i, j | 0 <= i < j < |ts|
      ensures TcpNames(ts)[i] != TcpNames(ts)[j]
    {
      assert TcpNames(ts)[i][|TCP_PREFIX|..] == ts[i].name && TcpNames(ts)[j][|TCP_PREFIX|..] == ts[j].name;
    }
  }

  lemma {:induction false} PublishedDistinct(lib: Lib, us: seq<PgEntry>, ts: seq<TcpEntry>, h: HttpFlag)
    requires PgListOk(lib, us) && TcpListOk(lib, ts)
    ensures AllDifferent([CMDLINE, MEMSTATS] + PublishPlan(us, ts, h))
  {
    hide PgListOk, TcpListOk, AllDifferent;
    var a, b, d := PgNames(us), TcpNames(ts), InfraNames(h);
    var base := [CMDLINE, MEMSTATS];
    BuiltinDistinct(d);
    PgNamesDistinct(lib, us);
    TcpNamesDistinct(lib, ts);
    TaggedConcat(base, a, 112);
    TaggedConcat(base + a, b, 116);
    TaggedConcat(base + a + b, d, 104);
    Regroup(base, a, b, d);
  }

  lemma {:induction false} BuiltinDistinct(d: seq<Bytes>)
    requires d == [] || d == [HTTP_NAME]
    ensures AllDifferent(d) && Tagged(d, 104)
    ensures AllDifferent([CMDLINE, MEMSTATS] + []) && AllDifferent([CMDLINE, MEMSTATS])
  {
    assert CMDLINE[0] != MEMSTATS[0];
  }
}
