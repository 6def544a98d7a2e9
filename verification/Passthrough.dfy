/**
  One passthrough session (`proxy.serve` for an upstream without credentials),
  up to the point where the two copiers take over.

  What leaves the gateway is recorded in a log, in order. The environment
  decides who the peer is, what arrives, whether dialing and the two TLS
  handshakes succeed, and how many bytes of a write get through.
 */
module Passthrough {
  import opened Octets
  import opened Wrappers
  import opened Startup
  import opened StartupTheorems
  import opened Stream
  import opened StartupReader

  const SSL_START: Bytes := [0, 0, 0, 8, 0x04, 0xd2, 0x16, 0x2f]
  const ACK: byte := 83  // 'S'

  datatype Peer =
    | FlyPeer(ident: Bytes)
    | TailscalePeer(login: Bytes)
    | DisallowedPeer

  datatype Event =
    | ToUpstreamPlain(bytes: Bytes)
    | UpstreamTlsUp
    | ToClientPlain(bytes: Bytes)
    | ClientTlsUp
    | ToUpstreamTls(bytes: Bytes)

  /** The label under which `serve` counts a failed session. */
  datatype Reason =
    | DisallowedSource
    | NetworkError
    | ClientBadProtocol
    | UpstreamBadProtocol
    | UpstreamTlsFailed
    | ClientTlsFailed
    | BadStartup

  datatype Outcome = Ended(reason: Reason) | Spliced(clientIsTls: bool)

  datatype Env = Env(
    peer: Peer,
    dials: bool,
    sslWritten: nat,
    upstreamTls: bool,
    clientTls: bool,
    startupWritten: nat)

  /** "tailscale-unknown" */
  const TAILSCALE_UNKNOWN: Bytes :=
    [116, 97, 105, 108, 115, 99, 97, 108, 101, 45, 117, 110, 107, 110, 111, 119, 110]

  /** `identifyClient`: the identity to inject and whether it came from the tailnet. */
  function IdentifyClient(peer: Peer): (r: Option<(Bytes, bool)>)
    ensures r.Some? && r.value.0 == [] ==> peer == FlyPeer([])
  {
    match peer
    case FlyPeer(ident) => Some((ident, false))
    case TailscalePeer(login) => Some((if login == [] then TAILSCALE_UNKNOWN else login, true))
    case DisallowedPeer => None
  }

  /** `isPlaintextStartup` on the first eight bytes. */
  predicate IsPlaintextStartup(b: Bytes)
    requires |b| == 8
  {
    8 <= GetU32(b, 0) <= 65536 && GetU32(b, 4) == PROTO_V3
  }

  // ----------------------------------------------------- what a run may log

  /** The Postgres bytes of the client: inside TLS if it asked for TLS, else on the socket itself. */
  function ClientStream(socket: Bytes, inner: Bytes): Bytes {
    if SSL_START <= socket then inner else socket
  }

  /** The startup message the upstream is to receive for a client stream. */
  function Rewritten(peer: Peer, stream: Bytes): Option<(Bytes, Bytes)> {
    var who := IdentifyClient(peer);
    if who.None? then None else Forwarded(None, stream, who.value.0, who.value.1)
  }

  /** The bytes written inside the upstream TLS session. */
  function TlsBytes(log: seq<Event>): Bytes {
    if log == [] then []
    else TlsBytes(log[..|log| - 1]) + if log[|log| - 1].ToUpstreamTls? then log[|log| - 1].bytes else []
  }

  /** Nothing but (part of) the SSL request goes out in the clear, and everything else waits for upstream TLS. */
  ghost predicate Safe(log: seq<Event>) {
    && (forall i :: 0 <= i < |log| && log[i].ToUpstreamPlain? ==> i == 0 && log[i].bytes <= SSL_START)
    && (forall i :: 0 <= i < |log| && (log[i].ToClientPlain? || log[i].ClientTlsUp? || log[i].ToUpstreamTls?) ==>
          UpstreamTlsUp in log[..i])
    && (forall i :: 0 <= i < |log| && log[i].ToClientPlain? ==> log[i].bytes == [ACK])
  }

  lemma {:induction false} SafeAppend(log: seq<Event>, e: Event)
    requires Safe(log)
    requires e.ToUpstreamPlain? ==> log == [] && e.bytes <= SSL_START
    requires e.ToClientPlain? ==> e.bytes == [ACK]
    requires e.ToClientPlain? || e.ClientTlsUp? || e.ToUpstreamTls? ==> UpstreamTlsUp in log
    ensures Safe(log + [e])
    ensures TlsBytes(log + [e]) == TlsBytes(log) + if e.ToUpstreamTls? then e.bytes else []
  {
    var next := log + [e];
    assert next[..|log|] == log;
    assert forall i :: 0 <= i < |log| ==> next[i] == log[i] && next[..i] == log[..i];
  }

  function Min(a: nat, b: nat): nat {
    if a < b then a else b
  }

  /** The upstream accepts the connection, acknowledges the SSL request and completes TLS. */
  predicate UpstreamReady(env: Env, ack: Bytes) {
    env.dials && env.sslWritten >= 8 && |ack| >= 1 && ack[0] == ACK && env.upstreamTls
  }

  /** The client's choice: Ok(true) for TLS, Ok(false) for a plaintext startup. */
  function OpeningOf(socket: Bytes): Result<bool, Reason> {
    if |socket| < 8 then Err(NetworkError)
    else if SSL_START <= socket then Ok(true)
    else if IsPlaintextStartup(socket[..8]) then Ok(false)
    else Err(ClientBadProtocol)
  }

  /** The eight bytes in `buf` once the ack has been read; `separateAck` is false in the shipped code. */
  function BufAfterAck(separateAck: bool, socket: Bytes): Bytes
    requires |socket| >= 8
  {
    if separateAck then socket[..8] else socket[..8][0 := ACK]
  }

  /** What `forwardStartup` is to send, from inside TLS or from what is in `buf`, and what follows it. */
  function Sent(peer: Peer, separateAck: bool, socket: Bytes, inner: Bytes): Option<(Bytes, Bytes)> {
    var who := IdentifyClient(peer);
    if who.None? || |socket| < 8 then None
    else if SSL_START <= socket then Forwarded(None, inner, who.value.0, who.value.1)
    else Forwarded(Some(BufAfterAck(separateAck, socket)), socket[8..], who.value.0, who.value.1)
  }

  /** Exactly when a session reaches the copiers. */
  predicate ReachesSplice(env: Env, separateAck: bool, socket: Bytes, ack: Bytes, inner: Bytes) {
    && OpeningOf(socket).Ok? && UpstreamReady(env, ack)
    && (OpeningOf(socket) == Ok(true) ==> env.clientTls)
    && var out := Sent(env.peer, separateAck, socket, inner);
       out.Some? && env.startupWritten >= |out.value.0|
  }

  /** What `forwardStartup` sends for the bytes read ahead and the bytes still to come. */
  function Forwarded(prefix: Option<Bytes>, stream: Bytes, id: Bytes, ts: bool): Option<(Bytes, Bytes)> {
    var first := if prefix.Some? then MessageAfter(prefix.value, stream) else FirstMessage(stream);
    if first.Err? then None
    else
      var out := Rewrite(first.value.0, id, ts);
      if out.Err? then None else Some((out.value, first.value.1))
  }

  /** Why the upstream side fails, by the label it is counted under. */
  function UpstreamFailure(env: Env, ack: Bytes): (r: Option<Reason>)
    ensures r.None? <==> UpstreamReady(env, ack)
  {
    if !env.dials || env.sslWritten < 8 || |ack| < 1 then Some(NetworkError)
    else if ack[0] != ACK then Some(UpstreamBadProtocol)
    else if !env.upstreamTls then Some(UpstreamTlsFailed)
    else None
  }

  /** Why the client side fails, given what `forwardStartup` is to send. */
  function ClientFailure(env: Env, clientIsTls: bool, sent: Option<(Bytes, Bytes)>): Option<Reason> {
    if clientIsTls && !env.clientTls then Some(ClientTlsFailed)
    else if sent.None? then Some(BadStartup)
    else if env.startupWritten < |sent.value.0| then Some(NetworkError)
    else None
  }

  /** How a session ends. */
  function OutcomeOf(env: Env, separateAck: bool, socket: Bytes, ack: Bytes, inner: Bytes): (o: Outcome)
    ensures o.Spliced? <==> ReachesSplice(env, separateAck, socket, ack, inner)
  {
    if env.peer.DisallowedPeer? then Ended(DisallowedSource)
    else if OpeningOf(socket).Err? then Ended(OpeningOf(socket).error)
    else if UpstreamFailure(env, ack).Some? then Ended(UpstreamFailure(env, ack).value)
    else
      var clientIsTls := OpeningOf(socket).value;
      var failed := ClientFailure(env, clientIsTls, Sent(env.peer, separateAck, socket, inner));
      if failed.Some? then Ended(failed.value) else Spliced(clientIsTls)
  }

  /** Everything a session that reaches the copiers has sent, in order. */
  function SplicedLog(clientIsTls: bool, message: Bytes): seq<Event> {
    [ToUpstreamPlain(SSL_START), UpstreamTlsUp]
    + (if clientIsTls then [ToClientPlain([ACK]), ClientTlsUp] else [])
    + [ToUpstreamTls(message)]
  }

  /**
    The eight bytes read ahead, as `forwardStartup` gets them. Untouched they
    continue into the client's stream; with the ack in byte 0 the length is at
    least 0x53000000 and the message is refused.
   */
  lemma {:induction false} PlaintextPrefix(socket: Bytes, separateAck: bool, id: Bytes, ts: bool)
    requires |socket| >= 8
    ensures separateAck ==> Forwarded(Some(socket[..8]), socket[8..], id, ts) == Forwarded(None, socket, id, ts)
    ensures !separateAck ==> Forwarded(Some(socket[..8][0 := ACK]), socket[8..], id, ts) == None
  {
    hide Rewrite;
    PrefixLengthIrrelevant(socket);
    var b := socket[..8][0 := ACK];
    assert b[0] == ACK;
    assert GetU16(b, 0) >= 256 * 83;
  }

  /** Inside TLS, or with the ack kept apart, that is the client's message rewritten; otherwise it is nothing. */
  lemma {:induction false} SentIsRewritten(peer: Peer, separateAck: bool, socket: Bytes, inner: Bytes)
    requires |socket| >= 8
    ensures Sent(peer, separateAck, socket, inner) ==
            if SSL_START <= socket || separateAck then Rewritten(peer, ClientStream(socket, inner)) else None
  {
    var who := IdentifyClient(peer);
    if who.Some? && !(SSL_START <= socket) {
      PlaintextPrefix(socket, separateAck, who.value.0, who.value.1);
    }
    hide Forwarded;
  }

  // ------------------------------------------------- whose name is sent

  /** Who a session is attributed to: the Fly identity, the tailnet login, or the bytes of "tailscale-unknown". */
  function Attribution(peer: Peer): Bytes {
    match peer
    case FlyPeer(ident) => ident
    case TailscalePeer(login) =>
      if login != [] then login
      else [116, 97, 105, 108, 115, 99, 97, 108, 101, 45, 117, 110, 107, 110, 111, 119, 110]
    case DisallowedPeer => []
  }

  /** The name the upstream is to see: the client's own if it set one, on the tailnet with " (who)" behind it. */
  function NameFor(peer: Peer, clientVal: Bytes): Bytes {
    if clientVal == [] then Attribution(peer)
    else if peer.TailscalePeer? then clientVal + ([32, 40] + Attribution(peer) + [41])
    else clientVal
  }

  /** "application_name" */
  const APPLICATION_NAME: Bytes := [97, 112, 112, 108, 105, 99, 97, 116, 105, 111, 110, 95, 110, 97, 109, 101]

  /**
    The message sent for a client's stream carries that name. A message of
    another protocol is sent as it is; a v3 message parses, and its rewriting
    gives every other parameter its value, unless the name was set twice.
   */
  ghost predicate Attributed(peer: Peer, stream: Bytes, message: Bytes) {
    && FirstMessage(stream).Ok?
    && var first := FirstMessage(stream).value.0;
       && (GetU32(first, 4) != 196608 ==> message == first)
       && (GetU32(first, 4) == 196608 && Attribution(peer) != [] ==>
             && ParseList(first).Ok?
             && var ps := ParseList(first).value;
                NulFree(Attribution(peer)) && |Attribution(peer)| < TWO32 - 65554 && !Repeats(ps, APP_NAME) ==>
                  Params(message) == Ok(LastWins(ps)[APPLICATION_NAME := NameFor(peer,
                    Get(LastWins(ps), APPLICATION_NAME))]))
  }

  lemma {:induction false} IdentityOf(peer: Peer)
    requires !peer.DisallowedPeer?
    ensures IdentifyClient(peer) == Some((Attribution(peer), peer.TailscalePeer?))
    ensures APPLICATION_NAME == APP_NAME
  {
  }

  lemma {:induction false} FinalNameFor(peer: Peer, clientVal: Bytes)
    requires Attribution(peer) != []
    ensures FinalAppName(clientVal, Attribution(peer), peer.TailscalePeer?) == NameFor(peer, clientVal)
  {
    hide Attribution;
  }

  /** What `forwardStartup` sends is attributed. */
  lemma {:induction false} RewrittenIsAttributed(peer: Peer, stream: Bytes, message: Bytes, rest: Bytes)
    requires Rewritten(peer, stream) == Some((message, rest))
    ensures Attributed(peer, stream, message)
  {
    IdentityOf(peer);
    var first, id, ts := FirstMessage(stream).value.0, Attribution(peer), peer.TailscalePeer?;
    assert FirstMessage(stream).Ok? && Rewrite(first, id, ts) == Ok(message);
    hide Attribution, FirstMessage, Rewrite, Rewritten, IdentifyClient;
    RewriteAccepts(first, id, ts);
    if GetU32(first, 4) == 196608 && id != [] {
      AttributedParams(peer, stream, first, message);
    }
  }

  lemma {:induction false} AttributedParams(peer: Peer, stream: Bytes, first: Bytes, message: Bytes)
    requires FirstMessage(stream).Ok? && FirstMessage(stream).value.0 == first && Attribution(peer) != []
    requires Params(first).Ok? && Rewrite(first, Attribution(peer), peer.TailscalePeer?) == Ok(message)
    ensures ParseList(first).Ok?
    ensures var ps := ParseList(first).value;
            NulFree(Attribution(peer)) && |Attribution(peer)| < TWO32 - 65554 && !Repeats(ps, APP_NAME) ==>
              Params(message) == Ok(LastWins(ps)[APP_NAME := NameFor(peer, Get(LastWins(ps), APP_NAME))])
  {
    var ps, id, ts := ParseList(first).value, Attribution(peer), peer.TailscalePeer?;
    FinalNameFor(peer, Get(LastWins(ps), APP_NAME));
    hide Attribution, FirstMessage, Rewrite, ParseList, NameFor, FinalAppName, FitsHeader, LastWins, Repeats, KeepsName;
    if |id| < TWO32 - 65554 && !Repeats(ps, APP_NAME) {
      SessionMessagesFit(stream, id, ts);
      RewritePreservesMeaning(first, id, ts, ps, message);
    }
  }

  /** The ends of a session before its client is served. */
  lemma {:induction false} EarlyEnd(env: Env, separateAck: bool, socket: Bytes, ack: Bytes, inner: Bytes)
    ensures var o := OutcomeOf(env, separateAck, socket, ack, inner);
            && (env.peer.DisallowedPeer? ==> o == Ended(DisallowedSource))
            && (!env.peer.DisallowedPeer? ==>
                  if OpeningOf(socket).Err? then o == Ended(OpeningOf(socket).error)
                  else UpstreamFailure(env, ack).Some? ==> o == Ended(UpstreamFailure(env, ack).value))
  {
    hide OpeningOf, UpstreamFailure, ReachesSplice;
  }

  /** And after that: what is sent decides. */
  lemma {:induction false} LateEnd(env: Env, separateAck: bool, socket: Bytes, ack: Bytes, inner: Bytes)
    requires !env.peer.DisallowedPeer? && OpeningOf(socket).Ok? && UpstreamFailure(env, ack).None?
    ensures |socket| >= 8 && (OpeningOf(socket).value <==> SSL_START <= socket)
    ensures var (id, ts) := IdentifyClient(env.peer).value;
            var tls, sent := OpeningOf(socket).value, Sent(env.peer, separateAck, socket, inner);
            var failed := ClientFailure(env, tls, sent);
            && sent == (if tls then Forwarded(None, inner, id, ts)
                        else Forwarded(Some(BufAfterAck(separateAck, socket)), socket[8..], id, ts))
            && OutcomeOf(env, separateAck, socket, ack, inner) ==
              (if failed.Some? then Ended(failed.value) else Spliced(tls))
            && (sent.Some? ==>
                  && Rewritten(env.peer, ClientStream(socket, inner)) == sent
                  && Attributed(env.peer, ClientStream(socket, inner), sent.value.0))
  {
    SentIsRewritten(env.peer, separateAck, socket, inner);
    var sent := Sent(env.peer, separateAck, socket, inner);
    if sent.Some? {
      RewrittenIsAttributed(env.peer, ClientStream(socket, inner), sent.value.0, sent.value.1);
    }
    hide Attributed, Rewritten;
    hide IsPlaintextStartup, UpstreamFailure, ReachesSplice, Forwarded, BufAfterAck, ClientFailure;
  }

  class Session {
    /** False: the upstream's answer is read into the buffer that holds the client's first bytes, as shipped. */
    const separateAck: bool
    var log: seq<Event>

    constructor (separateAck: bool)
      ensures this.separateAck == separateAck && log == []
    {
      this.separateAck := separateAck;
      log := [];
    }

    method Emit(e: Event)
      requires Safe(log)
      requires e.ToUpstreamPlain? ==> log == [] && e.bytes <= SSL_START
      requires e.ToClientPlain? ==> e.bytes == [ACK]
      requires e.ToClientPlain? || e.ClientTlsUp? || e.ToUpstreamTls? ==> UpstreamTlsUp in log
      modifies this
      ensures log == old(log) + [e] && Safe(log)
      ensures TlsBytes(log) == TlsBytes(old(log)) + if e.ToUpstreamTls? then e.bytes else []
    {
      SafeAppend(log, e);
      log := log + [e];
    }

    /** The dial, the SSL request and its one-byte answer. */
    method AskUpstream(env: Env, up: Conn) returns (ack: Option<byte>)
      requires log == []
      modifies this, up
      ensures Safe(log) && TlsBytes(log) == []
      ensures var sent := old(up.Pending());
              if env.dials && env.sslWritten >= 8 && |sent| >= 1
              then ack == Some(sent[0]) && log == [ToUpstreamPlain(SSL_START)]
              else ack == None
    {
      assert Safe(log) && TlsBytes(log) == [];
      hide Safe, TlsBytes;
      if !env.dials {
        return None;
      }
      Emit(ToUpstreamPlain(SSL_START[..Min(8, env.sslWritten)]));
      if env.sslWritten < 8 {
        return None;
      }
      assert SSL_START[..8] == SSL_START;
      var read := up.ReadFull(1);
      ack := if read.None? then None else Some(read.value[0]);
    }

    /** That exchange and the upstream TLS handshake. */
    method UpstreamHandshake(env: Env, buf: array<byte>, up: Conn) returns (failed: Option<Reason>)
      requires log == [] && buf.Length == 8
      modifies this, buf, up
      ensures Safe(log) && TlsBytes(log) == []
      ensures failed == UpstreamFailure(env, old(up.Pending()))
      ensures failed.None? ==> log == [ToUpstreamPlain(SSL_START), UpstreamTlsUp]
      ensures failed.None? ==> buf[..] == if separateAck then old(buf[..]) else old(buf[..])[0 := ACK]
    {
      hide Safe, TlsBytes;
      var ack := AskUpstream(env, up);
      if ack.None? {
        return Some(NetworkError);
      }
      if !separateAck {
        buf[0] := ack.value;
      }
      if ack.value != ACK {
        return Some(UpstreamBadProtocol);
      }
      if !env.upstreamTls {
        return Some(UpstreamTlsFailed);
      }
      Emit(UpstreamTlsUp);
      failed := None;
    }

    /** `forwardStartup`: read the client's message, rewrite it, write it inside upstream TLS. */
    method ForwardStartup(env: Env, conn: Conn, prefix: Option<Bytes>, id: Bytes, ts: bool)
      returns (failed: Option<Reason>)
      requires Safe(log) && UpstreamTlsUp in log && TlsBytes(log) == []
      modifies this, conn
      ensures Safe(log)
      ensures failed == ClientFailure(env, false, Forwarded(prefix, old(conn.Pending()), id, ts))
      ensures match Forwarded(prefix, old(conn.Pending()), id, ts)
              case None => TlsBytes(log) == []
              case Some((out, rest)) =>
                && TlsBytes(log) == out[..Min(|out|, env.startupWritten)]
                && (failed.None? ==> log == old(log) + [ToUpstreamTls(out)])
                && conn.Pending() == rest
    {
      hide Rewrite, MessageAfter, FirstMessage, Safe, TlsBytes;
      var raw: Result<Bytes, ReadError>;
      if prefix.Some? {
        raw := ReadStartupMessageWithPrefix(conn, prefix.value);
      } else {
        raw := ReadStartupMessage(conn);
      }
      if raw.Err? {
        return Some(BadStartup);
      }
      var out := RewriteStartup(raw.value, id, ts);
      if out.Err? {
        return Some(BadStartup);
      }
      var sent := out.value[..Min(|out.value|, env.startupWritten)];
      assert [] + sent == sent && (env.startupWritten >= |out.value| ==> sent == out.value);
      Emit(ToUpstreamTls(sent));
      failed := if env.startupWritten < |out.value| then Some(NetworkError) else None;
    }

    /** The read of the client's first eight bytes. */
    method Opening(c: Conn, buf: array<byte>) returns (r: Result<bool, Reason>)
      requires buf.Length == 8
      modifies c, buf
      ensures r == OpeningOf(old(c.Pending()))
      ensures r.Ok? ==> buf[..] == old(c.Pending())[..8] && c.Pending() == old(c.Pending())[8..]
    {
      var first := c.ReadFull(8);
      if first.None? {
        return Err(NetworkError);
      }
      forall k | 0 <= k < 8 {
        buf[k] := first.value[k];
      }
      assert buf[..] == first.value;
      if buf[..] == SSL_START {
        r := Ok(true);
      } else if IsPlaintextStartup(buf[..]) {
        r := Ok(false);
      } else {
        r := Err(ClientBadProtocol);
      }
    }

    /** The client's TLS handshake, if it asked for one, and the startup message. */
    method ClientSide(env: Env, clientIsTls: bool, c: Conn, inner: Conn, buf: Bytes, id: Bytes, ts: bool)
      returns (failed: Option<Reason>)
      requires Safe(log) && UpstreamTlsUp in log && TlsBytes(log) == [] && c != inner
      modifies this, c, inner
      ensures Safe(log)
      ensures var sent := if clientIsTls then Forwarded(None, old(inner.Pending()), id, ts)
                          else Forwarded(Some(buf), old(c.Pending()), id, ts);
              && TlsBytes(log) <= (if sent.Some? then sent.value.0 else [])
              && failed == ClientFailure(env, clientIsTls, sent)
              && (failed.None? ==>
                    && log == old(log) + (if clientIsTls then [ToClientPlain([ACK]), ClientTlsUp] else [])
                              + [ToUpstreamTls(sent.value.0)]
                    && TlsBytes(log) == sent.value.0 && (if clientIsTls then inner else c).Pending() == sent.value.1)
    {
      hide Safe, TlsBytes, Forwarded;
      if clientIsTls {
        Emit(ToClientPlain([ACK]));
        if !env.clientTls {
          return Some(ClientTlsFailed);
        }
        Emit(ClientTlsUp);
        failed := ForwardStartup(env, inner, None, id, ts);
      } else {
        failed := ForwardStartup(env, c, Some(buf), id, ts);
      }
    }

    /**
      `serve`: c is the client's socket, inner the client's bytes inside TLS,
      up the upstream's answer to the SSL request.
     */
    method Serve(env: Env, c: Conn, up: Conn, inner: Conn) returns (o: Outcome)
      requires log == [] && c != up && c != inner && up != inner
      modifies this, c, up, inner
      ensures Safe(log)
      ensures o == OutcomeOf(env, separateAck, old(c.Pending()), old(up.Pending()), old(inner.Pending()))
      ensures var sent := Rewritten(env.peer, ClientStream(old(c.Pending()), old(inner.Pending())));
              && TlsBytes(log) <= (if sent.Some? then sent.value.0 else [])
              && (o.Spliced? ==>
                    && sent.Some? && TlsBytes(log) == sent.value.0 && log == SplicedLog(o.clientIsTls, sent.value.0)
                    && Attributed(env.peer, ClientStream(old(c.Pending()), old(inner.Pending())), TlsBytes(log))
                    && (o.clientIsTls <==> SSL_START <= old(c.Pending()))
                    && (if o.clientIsTls then inner else c).Pending() == sent.value.1)
    {
      assert TlsBytes(log) == [];
      hide Attributed, Safe, TlsBytes, Forwarded, OpeningOf, OutcomeOf, Sent, Rewritten, ClientStream, ClientFailure,
        UpstreamFailure;
      ghost var socket, answer, hidden := c.Pending(), up.Pending(), inner.Pending();
      EarlyEnd(env, separateAck, socket, answer, hidden);
      var who := IdentifyClient(env.peer);
      if who.None? {
        return Ended(DisallowedSource);
      }
      var buf := new byte[8];
      var opening := Opening(c, buf);
      if opening.Err? {
        return Ended(opening.error);
      }
      var failed := UpstreamHandshake(env, buf, up);
      if failed.Some? {
        return Ended(failed.value);
      }
      LateEnd(env, separateAck, socket, answer, hidden);
      assert buf[..] == BufAfterAck(separateAck, socket);
      hide BufAfterAck;
      failed := ClientSide(env, opening.value, c, inner, buf[..], who.value.0, who.value.1);
      o := if failed.Some? then Ended(failed.value) else Spliced(opening.value);
    }
  }
}
