/**
  One managed session (`serveManaged`): the proxy logs in with its own
  credentials and replays the result. The log records, in order, what the client
  is sent and what the proxy does upstream. The login library and TLS are
  environment steps that succeed or fail.
 */
module ManagedSession {
  import opened Octets
  import opened Wrappers
  import opened Startup
  import opened StartupTheorems
  import opened Stream
  import opened StartupReader
  import opened Passthrough
  import opened Handshake

  /** The configured entry: User, Password and the default database. */
  datatype Entry = Entry(user: Bytes, password: Bytes, dbName: Bytes)

  datatype Login = Login(user: Bytes, password: Bytes, database: Bytes, params: map<Bytes, Bytes>)

  datatype ManagedEvent =
    | SslAccepted                      // the byte 'S'
    | ClientSecured
    | LoginTried(login: Login)
    | LoggedIn(state: SessionState)
    | Synced
    | Hijacked
    | ErrorSent                        // a FATAL ErrorResponse
    | HandshakeSent(bytes: Bytes)

  datatype ManagedEnv = ManagedEnv(
    clientTls: bool,
    configures: bool,                  // the upstream address makes a connection string
    state: Option<SessionState>,       // None: the login fails
    syncs: bool,
    hijacks: bool,
    iteration: seq<Bytes>,             // the order in which the parameter map is iterated
    handshakeWritten: nat)

  const USER: Bytes := [117, 115, 101, 114]
  const DATABASE: Bytes := [100, 97, 116, 97, 98, 97, 115, 101]
  const REPLICATION: Bytes := [114, 101, 112, 108, 105, 99, 97, 116, 105, 111, 110]

  /** `chooseDatabase` */
  function ChooseDatabase(clientUser: Bytes, clientDb: Bytes, defaultDb: Bytes): Bytes {
    if clientDb != [] && clientDb != clientUser then clientDb else defaultDb
  }

  /** The parameters that are not passed through as they are. */
  predicate Handled(k: Bytes) {
    k == USER || k == DATABASE || k == APP_NAME || k == REPLICATION
  }

  /** The login a managed session is meant to make for parsed client parameters. */
  function IntendedLogin(entry: Entry, params: map<Bytes, Bytes>, id: Bytes, ts: bool): Login {
    Login(entry.user, entry.password, ChooseDatabase(Get(params, USER), Get(params, DATABASE), entry.dbName),
          PassedParams(params, FinalAppName(Get(params, APP_NAME), id, ts)))
  }

  /** The client's own parameters that go upstream, with the attributed name if there is one. */
  function PassedParams(params: map<Bytes, Bytes>, appName: Bytes): map<Bytes, Bytes> {
    var others := map k | k in params && !Handled(k) :: params[k];
    if appName == [] then others else others[APP_NAME := appName]
  }

  /** The loop that fills RuntimeParams; the iteration order does not matter. */
  method RuntimeParams(params: map<Bytes, Bytes>, appName: Bytes) returns (r: map<Bytes, Bytes>)
    ensures r == PassedParams(params, appName)
  {
    r := map[];
    var left := params.Keys;
    while left != {}
      invariant left <= params.Keys
      invariant r == map k | k in params && k !in left && !Handled(k) :: params[k]
      decreases |left|
    {
      var k :| k in left;
      if !Handled(k) {
        r := r[k := params[k]];
      }
      left := left - {k};
    }
    if appName != [] {
      r := r[APP_NAME := appName];
    }
  }

  /**
    What a login carries, key by key: every parameter of the client but "user",
    "database", "application_name" and "replication" as it is, none of user,
    database and replication, and application_name exactly when there is a name.
   */
  lemma {:induction false} LoginCarries(entry: Entry, params: map<Bytes, Bytes>, id: Bytes, ts: bool, k: Bytes)
    ensures var login := IntendedLogin(entry, params, id, ts);
            var name := FinalAppName(Get(params, APP_NAME), id, ts);
            var user: Bytes, database: Bytes := [117, 115, 101, 114], [100, 97, 116, 97, 98, 97, 115, 101];
            var appName: Bytes := [97, 112, 112, 108, 105, 99, 97, 116, 105, 111, 110, 95, 110, 97, 109, 101];
            var replication: Bytes := [114, 101, 112, 108, 105, 99, 97, 116, 105, 111, 110];
            && login.user == entry.user && login.password == entry.password
            && login.database ==
               (if Get(params, database) != [] && Get(params, database) != Get(params, user) then Get(params, database)
                else entry.dbName)
            && (k !in {user, database, appName, replication} ==>
                  (k in login.params <==> k in params) && (k in params ==> login.params[k] == params[k]))
            && (k in {user, database, replication} ==> k !in login.params)
            && (appName in login.params <==> name != [])
            && (name != [] ==> login.params[appName] == name)
  {
    hide FinalAppName;
    assert |USER| == 4 && |DATABASE| == 8 && |APP_NAME| == 16 && |REPLICATION| == 11;
  }

  /** A managed session is attributed like a passthrough one. */
  lemma {:induction false} LoginIsAttributed(entry: Entry, params: map<Bytes, Bytes>, peer: Peer)
    requires !peer.DisallowedPeer? && Attribution(peer) != []
    ensures var who := IdentifyClient(peer).value;
            var login := IntendedLogin(entry, params, who.0, who.1);
            && APPLICATION_NAME in login.params
            && login.params[APPLICATION_NAME] == NameFor(peer, Get(params, APPLICATION_NAME))
  {
    IdentityOf(peer);
    FinalNameFor(peer, Get(params, APP_NAME));
    hide Attribution, IdentifyClient, FinalAppName;
    LoginCarries(entry, params, Attribution(peer), peer.TailscalePeer?, []);
    hide IntendedLogin;
  }

  /**
    The upstream sees the same session from both modes, except for the user and
    what goes with it: every parameter that is passed through has the same value
    in the managed login as in the rewritten message, so has the database unless
    it is one a driver fills in by itself, and application_name has
    if and only if it does not repeat or its last value is kept.
   */
  lemma {:induction false} LoginAgreesWithPassthrough(
      entry: Entry, raw: Bytes, id: Bytes, ts: bool, ps: seq<Pair>, out: Bytes)
    requires ParseList(raw) == Ok(ps) && id != [] && NulFree(id)
    requires Rewrite(raw, id, ts) == Ok(out) && FitsHeader(raw, id, ts)
    ensures Params(out).Ok?
    ensures var login, sent := IntendedLogin(entry, LastWins(ps), id, ts), Params(out).value;
            && login.user == entry.user && login.password == entry.password
            && (forall k :: !Handled(k) ==> (k in login.params <==> k in sent) && Get(login.params, k) == Get(sent, k))
            && (login.database == Get(sent, DATABASE) <==>
                  (Get(sent, DATABASE) != [] && Get(sent, DATABASE) != Get(sent, USER)) ||
                    Get(sent, DATABASE) == entry.dbName)
            && (Get(login.params, APP_NAME) == Get(sent, APP_NAME) <==>
                  !Repeats(ps, APP_NAME) || KeepsName(LastWins(ps), ts))
  {
    ManagedAgreesWithPassthrough(raw, id, ts, ps, out);
    SentIsOneOf(raw, id, ts, ps, out);
    hide Rewrite, Params, LastWins, Repeats, ParseList, PassedParams;
    PassedAgrees(LastWins(ps), FinalAppName(Get(LastWins(ps), APP_NAME), id, ts), Params(out).value);
  }

  lemma {:induction false} SentIsOneOf(raw: Bytes, id: Bytes, ts: bool, ps: seq<Pair>, out: Bytes)
    requires ParseList(raw) == Ok(ps) && id != [] && NulFree(id)
    requires Rewrite(raw, id, ts) == Ok(out) && FitsHeader(raw, id, ts)
    ensures var m := LastWins(ps);
            Params(out) == Ok(m) || Params(out) == Ok(m[APP_NAME := FinalAppName(Get(m, APP_NAME), id, ts)])
  {
    hide FitsHeader;
    RewriteParses(raw, id, ts, ps, out);
    EditMeaning(ps, id, ts);
  }

  lemma {:induction false} PassedAgrees(m: map<Bytes, Bytes>, name: Bytes, sent: map<Bytes, Bytes>)
    requires name != [] && (sent == m || sent == m[APP_NAME := name])
    ensures var passed := PassedParams(m, name);
            && Get(passed, APP_NAME) == name
            && Get(sent, USER) == Get(m, USER) && Get(sent, DATABASE) == Get(m, DATABASE)
            && forall k :: !Handled(k) ==> (k in passed <==> k in sent) && Get(passed, k) == Get(sent, k)
  {
    assert |USER| != |APP_NAME| && |DATABASE| != |APP_NAME|;
  }

  /** The client's startup message and what follows it, if it opened properly. */
  function ClientMessage(socket: Bytes, inner: Bytes): Option<(Bytes, Bytes)> {
    if OpeningOf(socket).Err? then None
    else
      match FirstMessage(ClientStream(socket, inner))
      case Err(_) => None
      case Ok(m) => Some(m)
  }

  /** What the client sent, once its startup parses. */
  function ClientParams(socket: Bytes, inner: Bytes): Option<map<Bytes, Bytes>> {
    var m := ClientMessage(socket, inner);
    if m.None? || Params(m.value.0).Err? then None else Some(Params(m.value.0).value)
  }

  lemma {:induction false} OpeningIsTls(socket: Bytes)
    ensures OpeningOf(socket).Ok? ==> (OpeningOf(socket).value <==> SSL_START <= socket)
  {
  }

  /** The replay of a state: one byte string, since a key set has one ascending enumeration. */
  ghost predicate IsReplay(b: Bytes, s: SessionState) {
    exists names :: Ascending(names) && SetOf(names) == s.params.Keys && b == Replay(s, names)
  }

  lemma {:induction false} ReplayUnique(a: Bytes, b: Bytes, s: SessionState)
    requires IsReplay(a, s) && IsReplay(b, s)
    ensures a == b
  {
    var m :| Ascending(m) && SetOf(m) == s.params.Keys && a == Replay(s, m);
    var n :| Ascending(n) && SetOf(n) == s.params.Keys && b == Replay(s, n);
    AscendingUnique(m, n);
  }

  /** What the client decodes from a whole replay is the upstream's state, if and only if no parameter holds a NUL. */
  lemma {:induction false} ReplayDecodes(full: Bytes, s: SessionState)
    requires IsReplay(full, s) && Encodable(s.params) && s.pid < TWO32 && s.secret < TWO32
    ensures Decode(full) == Some(s) <==> AllNulFree(s.params)
  {
    var names :| Ascending(names) && SetOf(names) == s.params.Keys && full == Replay(s, names);
    ReplayRoundTrip(s, names);
  }

  /** The login a log may hold, and what must precede a handshake. */
  ghost predicate Ordered(log: seq<ManagedEvent>, login: Option<Login>) {
    && (forall i :: 0 <= i < |log| && log[i].LoginTried? ==> login == Some(log[i].login))
    && (forall i :: 0 <= i < |log| && log[i].HandshakeSent? ==> HandshakeJustified(log[..i], log[i].bytes))
  }

  /** The upstream logged in, synced and was hijacked before, and the bytes are (part of) the replay of its state. */
  ghost predicate HandshakeJustified(before: seq<ManagedEvent>, bytes: Bytes) {
    && Synced in before && Hijacked in before
    && exists state, full :: LoggedIn(state) in before && IsReplay(full, state) && bytes <= full
  }

  /** The iteration order lists every key of the reported parameters once. */
  predicate EnvOk(env: ManagedEnv) {
    env.state.Some? ==>
      && SetOf(env.iteration) == env.state.value.params.Keys
      && forall i, j :: 0 <= i < j < |env.iteration| ==> env.iteration[i] != env.iteration[j]
  }

  /** The state encodes and the client takes all of its replay. */
  ghost predicate ReplayFits(env: ManagedEnv)
    requires env.state.Some?
  {
    && Encodable(env.state.value.params)
    && exists full :: IsReplay(full, env.state.value) && env.handshakeWritten >= |full|
  }

  /** The upstream accepts the login, and its whole state reaches the client. */
  ghost predicate Replays(env: ManagedEnv) {
    env.configures && env.state.Some? && env.syncs && env.hijacks && ReplayFits(env)
  }

  function LoginFor(entry: Entry, params: Option<map<Bytes, Bytes>>, id: Bytes, ts: bool): Option<Login> {
    if params.Some? then Some(IntendedLogin(entry, params.value, id, ts)) else None
  }

  /** How a managed session ends; only the last reaches the copiers. */
  datatype ManagedOutcome =
    | NotOpened(reason: Reason)
    | NotSecured
    | StartupRejected
    | NotConfigured
    | ConnectFailed
    | NotSynced
    | NotHijacked
    | ReplayFailed
    | Replayed(clientIsTls: bool)

  function LoginOutcome(env: ManagedEnv): Option<ManagedOutcome> {
    if !env.configures then Some(NotConfigured)
    else if env.state.None? then Some(ConnectFailed)
    else if !env.syncs then Some(NotSynced)
    else if !env.hijacks then Some(NotHijacked)
    else None
  }

  ghost function ManagedOutcomeOf(env: ManagedEnv, socket: Bytes, inner: Bytes): (o: ManagedOutcome)
    ensures o.Replayed? <==>
            && (OpeningOf(socket) == Ok(true) ==> env.clientTls)
            && ClientParams(socket, inner).Some? && Replays(env)
  {
    var opening := OpeningOf(socket);
    if opening.Err? then NotOpened(opening.error)
    else if opening.value && !env.clientTls then NotSecured
    else if ClientParams(socket, inner).None? then StartupRejected
    else if LoginOutcome(env).Some? then LoginOutcome(env).value
    else if !ReplayFits(env) then ReplayFailed
    else Replayed(opening.value)
  }

  /** What is logged for the client's opening, and for a login that gets as far as it does. */
  function OpeningLog(env: ManagedEnv, opening: Result<bool, Reason>): seq<ManagedEvent> {
    if opening != Ok(true) then []
    else if env.clientTls then [SslAccepted, ClientSecured]
    else [SslAccepted]
  }

  function LoginLog(env: ManagedEnv, login: Login): seq<ManagedEvent> {
    if !env.configures then []
    else if env.state.None? then [LoginTried(login), ErrorSent]
    else if !env.syncs then [LoginTried(login), LoggedIn(env.state.value)]
    else if !env.hijacks then [LoginTried(login), LoggedIn(env.state.value), Synced]
    else [LoginTried(login), LoggedIn(env.state.value), Synced, Hijacked]
  }

  /** The log of a session, by its outcome: opening, login, and part or all of the replay. */
  ghost predicate LogFits(log: seq<ManagedEvent>, env: ManagedEnv, opening: Result<bool, Reason>,
      login: Option<Login>, o: ManagedOutcome)
  {
    var before := OpeningLog(env, opening);
    match o
    case NotOpened(_) => log == before
    case NotSecured => log == before
    case StartupRejected => log == before
    case ReplayFailed => login.Some? && before + LoginLog(env, login.value) <= log
    case Replayed(_) =>
      && login.Some? && env.state.Some?
      && exists full ::
           && IsReplay(full, env.state.value)
           && log == before + LoginLog(env, login.value) + [HandshakeSent(full)]
    case _ => login.Some? && log == before + LoginLog(env, login.value)
  }

  class Managed {
    const entry: Entry
    var log: seq<ManagedEvent>

    constructor (entry: Entry)
      ensures this.entry == entry && log == []
    {
      this.entry := entry;
      log := [];
    }

    method Emit(e: ManagedEvent, ghost login: Option<Login>)
      requires Ordered(log, login)
      requires e.LoginTried? ==> login == Some(e.login)
      requires e.HandshakeSent? ==> HandshakeJustified(log, e.bytes)
      modifies this
      ensures log == old(log) + [e] && Ordered(log, login)
    {
      ghost var next := log + [e];
      assert next[..|log|] == log;
      assert forall i :: 0 <= i < |log| ==> next[i] == log[i] && next[..i] == log[..i];
      log := log + [e];
    }

    /** The first eight bytes and what they ask for. */
    method ReadMagic(c: Conn) returns (opening: Result<bool, Reason>, buf: Bytes)
      modifies c
      ensures opening == OpeningOf(old(c.Pending()))
      ensures opening.Ok? ==>
                && |old(c.Pending())| >= 8 && buf == old(c.Pending())[..8]
                && c.Pending() == old(c.Pending())[8..]
    {
      hide IsPlaintextStartup;
      var read := c.ReadFull(8);
      if read.None? {
        return Err(NetworkError), [];
      }
      buf := read.value;
      opening := if buf == SSL_START then Ok(true)
                 else if IsPlaintextStartup(buf) then Ok(false)
                 else Err(ClientBadProtocol);
    }

    /** The client side: TLS if asked for, then the startup message. */
    method ReadClient(env: ManagedEnv, c: Conn, inner: Conn, ghost login: Option<Login>)
      returns (raw: Result<Bytes, ManagedOutcome>, clientIsTls: bool)
      requires log == [] && c != inner
      modifies this, c, inner
      ensures Ordered(log, login) && log == OpeningLog(env, OpeningOf(old(c.Pending())))
      ensures var socket, hidden := old(c.Pending()), old(inner.Pending());
              var opening, m := OpeningOf(socket), ClientMessage(socket, hidden);
              if opening.Err? then raw == Err(NotOpened(opening.error))
              else if opening.value && !env.clientTls then raw == Err(NotSecured)
              else if m.None? then raw == Err(StartupRejected)
              else
                && raw == Ok(m.value.0) && opening == Ok(clientIsTls)
                && (if clientIsTls then inner else c).Pending() == m.value.1
    {
      assert Ordered(log, login);
      hide Ordered, OpeningOf, ClientMessage;
      ghost var socket := c.Pending();
      clientIsTls := false;
      var opening, buf := ReadMagic(c);
      if opening.Err? {
        return Err(NotOpened(opening.error)), false;
      }
      clientIsTls := opening.value;
      if clientIsTls {
        Emit(SslAccepted, login);
        if !env.clientTls {
          return Err(NotSecured), true;
        }
        Emit(ClientSecured, login);
      }
      raw := ReadMessage(c, inner, clientIsTls, buf, socket);
    }

    /** The startup message, from inside TLS or continuing the eight bytes read. */
    method ReadMessage(c: Conn, inner: Conn, clientIsTls: bool, buf: Bytes, ghost socket: Bytes)
      returns (raw: Result<Bytes, ManagedOutcome>)
      requires c != inner && OpeningOf(socket) == Ok(clientIsTls) && |socket| >= 8
      requires buf == socket[..8] && c.Pending() == socket[8..]
      modifies c, inner
      ensures var m := ClientMessage(socket, old(inner.Pending()));
              if m.None? then raw == Err(StartupRejected)
              else raw == Ok(m.value.0) && (if clientIsTls then inner else c).Pending() == m.value.1
    {
      OpeningIsTls(socket);
      hide FirstMessage, MessageAfter, OpeningOf;
      var read: Result<Bytes, ReadError>;
      if clientIsTls {
        read := ReadStartupMessage(inner);
      } else {
        PrefixLengthIrrelevant(socket);
        read := ReadStartupMessageWithPrefix(c, buf);
      }
      raw := if read.Ok? then Ok(read.value) else Err(StartupRejected);
    }

    /** The login with the configured user, then its synchronisation and hijack. */
    method LogIn(env: ManagedEnv, params: map<Bytes, Bytes>, id: Bytes, ts: bool)
      returns (failed: Option<ManagedOutcome>)
      requires Ordered(log, Some(IntendedLogin(entry, params, id, ts)))
      modifies this
      ensures Ordered(log, Some(IntendedLogin(entry, params, id, ts)))
      ensures failed == LoginOutcome(env)
      ensures log == old(log) + LoginLog(env, IntendedLogin(entry, params, id, ts))
    {
      hide Ordered;
      if !env.configures {
        assert log + [] == log;
        return Some(NotConfigured);
      }
      ghost var login := Some(IntendedLogin(entry, params, id, ts));
      var appName := FinalAppName(Get(params, APP_NAME), id, ts);
      var runtime := RuntimeParams(params, appName);
      var db := ChooseDatabase(Get(params, USER), Get(params, DATABASE), entry.dbName);
      Emit(LoginTried(Login(entry.user, entry.password, db, runtime)), login);
      if env.state.None? {
        Emit(ErrorSent, login);
        return Some(ConnectFailed);
      }
      Emit(LoggedIn(env.state.value), login);
      if !env.syncs {
        return Some(NotSynced);
      }
      Emit(Synced, login);
      if !env.hijacks {
        return Some(NotHijacked);
      }
      Emit(Hijacked, login);
      failed := None;
    }

    /** The handshake replayed to the client. */
    method ReplayState(env: ManagedEnv, ghost login: Option<Login>) returns (ok: bool)
      requires Ordered(log, login) && EnvOk(env) && env.state.Some?
      requires LoggedIn(env.state.value) in log && Synced in log && Hijacked in log
      modifies this
      ensures Ordered(log, login) && old(log) <= log
      ensures ok <==> ReplayFits(env)
      ensures ok ==> exists full :: IsReplay(full, env.state.value) && log == old(log) + [HandshakeSent(full)]
    {
      hide Ordered, Replay;
      var bytes := WriteManagedHandshake(env.state.value, env.iteration);
      if bytes.None? {
        return false;
      }
      assert IsReplay(bytes.value, env.state.value);
      forall full | IsReplay(full, env.state.value)
        ensures full == bytes.value
      {
        ReplayUnique(full, bytes.value, env.state.value);
      }
      ok := env.handshakeWritten >= |bytes.value|;
      var sent := bytes.value[..Passthrough.Min(|bytes.value|, env.handshakeWritten)];
      assert ok ==> sent == bytes.value;
      Emit(HandshakeSent(sent), login);
    }

    /** Everything after the client's message has been read. */
    method ServeMessage(env: ManagedEnv, raw: Bytes, id: Bytes, ts: bool, clientIsTls: bool,
                        ghost opening: Result<bool, Reason>, ghost login: Option<Login>) returns (o: ManagedOutcome)
      requires Ordered(log, login) && EnvOk(env) && log == OpeningLog(env, opening)
      requires Params(raw).Ok? ==> login == Some(IntendedLogin(entry, Params(raw).value, id, ts))
      modifies this
      ensures Ordered(log, login) && LogFits(log, env, opening, login, o)
      ensures o == if Params(raw).Err? then StartupRejected
                   else if LoginOutcome(env).Some? then LoginOutcome(env).value
                   else if !ReplayFits(env) then ReplayFailed
                   else Replayed(clientIsTls)
    {
      hide Ordered, IsReplay, IntendedLogin, Params, ReplayFits, OpeningLog;
      var params := ParseStartupParams(raw);
      if params.Err? {
        return StartupRejected;
      }
      var failed := LogIn(env, params.value, id, ts);
      if failed.Some? {
        return failed.value;
      }
      LoginLogHolds(log, OpeningLog(env, opening), env, login.value);
      hide LoginLog;
      var ok := ReplayState(env, login);
      o := if ok then Replayed(clientIsTls) else ReplayFailed;
    }

    /**
      `serveManaged` for an identified peer: c is the client's socket, inner its
      bytes inside TLS.
     */
    method Serve(env: ManagedEnv, c: Conn, inner: Conn, id: Bytes, ts: bool) returns (o: ManagedOutcome)
      requires log == [] && c != inner && EnvOk(env)
      modifies this, c, inner
      ensures var socket, hidden := old(c.Pending()), old(inner.Pending());
              var login := LoginFor(entry, ClientParams(socket, hidden), id, ts);
              && o == ManagedOutcomeOf(env, socket, hidden)
              && Ordered(log, login) && LogFits(log, env, OpeningOf(socket), login, o)
              && (o.Replayed? ==>
                    (if o.clientIsTls then inner else c).Pending() == ClientMessage(socket, hidden).value.1)
    {
      ghost var opening := OpeningOf(c.Pending());
      ghost var login := LoginFor(entry, ClientParams(c.Pending(), inner.Pending()), id, ts);
      var raw, clientIsTls := ReadClient(env, c, inner, login);
      hide Ordered, IntendedLogin, ClientMessage, Params, ReplayFits, OpeningOf, OpeningLog;
      if raw.Err? {
        o := raw.error;
      } else {
        hide LogFits;
        o := ServeMessage(env, raw.value, id, ts, clientIsTls, opening, login);
      }
    }
  }

  lemma {:induction false} OpeningEvents(env: ManagedEnv, opening: Result<bool, Reason>, e: ManagedEvent)
    ensures e in OpeningLog(env, opening) <==>
            opening == Ok(true) && (e == SslAccepted || (e == ClientSecured && env.clientTls))
  {
  }

  lemma {:induction false} LoginEvents(env: ManagedEnv, login: Login, e: ManagedEvent)
    ensures e in LoginLog(env, login) <==>
            && env.configures
            && (|| e == LoginTried(login)
                || (env.state.None? && e == ErrorSent)
                || (env.state.Some? && e == LoggedIn(env.state.value))
                || (env.state.Some? && env.syncs && (e == Synced || (env.hijacks && e == Hijacked))))
  {
  }

  /** The events of a session that was not cut off in its replay. */
  lemma {:induction false} LogHolds(
      log: seq<ManagedEvent>, env: ManagedEnv, opening: Result<bool, Reason>, login: Option<Login>, o: ManagedOutcome,
      e: ManagedEvent)
    requires LogFits(log, env, opening, login, o) && o != ReplayFailed
    ensures var past := o in {NotConfigured, ConnectFailed, NotSynced, NotHijacked} || o.Replayed?;
            && (past ==> login.Some?)
            && (e in log <==>
                  || e in OpeningLog(env, opening)
                  || (past && e in LoginLog(env, login.value))
                  || (o.Replayed? && e.HandshakeSent? && e in log))
            && (o.Replayed? ==> exists b :: HandshakeSent(b) in log)
            && (e.HandshakeSent? && e in log && !o.Replayed? ==>
                  e in OpeningLog(env, opening) || (past && e in LoginLog(env, login.value)))
  {
    hide OpeningLog, LoginLog, IsReplay;
    if o.Replayed? {
      var full :| log == OpeningLog(env, opening) + LoginLog(env, login.value) + [HandshakeSent(full)];
      assert log[|log| - 1] == HandshakeSent(full);
    }
  }

  /** One event's presence, by the end of the session. */
  ghost predicate EventMeans(
      log: seq<ManagedEvent>, env: ManagedEnv, opening: Result<bool, Reason>, login: Option<Login>, o: ManagedOutcome,
      e: ManagedEvent)
  {
    match e
    case SslAccepted => e in log <==> opening == Ok(true)
    case ClientSecured => e in log <==> opening == Ok(true) && env.clientTls
    case LoginTried(l) =>
      e in log <==> (o in {ConnectFailed, NotSynced, NotHijacked} || o.Replayed?) && login == Some(l)
    case LoggedIn(_) => true
    case Synced => e in log <==> o == NotHijacked || o.Replayed?
    case Hijacked => e in log <==> o.Replayed?
    case ErrorSent => e in log <==> o == ConnectFailed
    case HandshakeSent(_) => e in log ==> o.Replayed?
  }

  /** What the client and the upstream saw, event by event, for every end of a session. */
  lemma {:induction false} LogMeans(
      log: seq<ManagedEvent>, env: ManagedEnv, socket: Bytes, inner: Bytes, login: Option<Login>, o: ManagedOutcome,
      e: ManagedEvent)
    requires o == ManagedOutcomeOf(env, socket, inner) && o != ReplayFailed
    requires LogFits(log, env, OpeningOf(socket), login, o)
    ensures EventMeans(log, env, OpeningOf(socket), login, o, e)
    ensures o.Replayed? ==> exists b :: HandshakeSent(b) in log
  {
    var opening := OpeningOf(socket);
    LogHolds(log, env, opening, login, o, e);
    OpeningEvents(env, opening, e);
    if login.Some? {
      LoginEvents(env, login.value, e);
    }
    hide OpeningLog, LoginLog, LogFits, OpeningOf, ClientParams, ReplayFits;
  }

  lemma {:induction false} LoginLogHolds(log: seq<ManagedEvent>, before: seq<ManagedEvent>, env: ManagedEnv,
      login: Login)
    requires log == before + LoginLog(env, login) && LoginOutcome(env).None?
    ensures LoggedIn(env.state.value) in log && Synced in log && Hijacked in log
  {
    var all := LoginLog(env, login);
    assert all[1] in all && all[2] in all && all[3] in all;
  }
}
