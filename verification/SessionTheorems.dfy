/** A passthrough session and the splice that follows it, taken together. */
module SessionTheorems {
  import opened Octets
  import opened Wrappers
  import opened Startup
  import opened StartupReader
  import opened StartupTheorems
  import opened Passthrough
  import Splice
  import IdentityCache
  import Handshake
  import Managed = ManagedSession

  /**
    Conservation. Wherever the splice after a session stands, the bytes inside
    upstream TLS are a prefix of the rewritten first message followed by the
    rest of the client's stream, and all of it once that direction ended
    cleanly; the client holds a prefix of what the upstream sent.
   */
  lemma {:induction false} PassthroughConserves(
      peer: Peer, socket: Bytes, inner: Bytes, log: seq<Event>, message: Bytes, rest: Bytes,
      fromUpstream: Bytes, steps: seq<Splice.Step>, s: Splice.State)
    requires Rewritten(peer, ClientStream(socket, inner)) == Some((message, rest)) && TlsBytes(log) == message
    requires Splice.Run(1, Splice.Init(rest, fromUpstream), steps) == Some(s)
    ensures exists first ::
              && FirstMessage(ClientStream(socket, inner)) == Ok((first, rest))
              && ClientStream(socket, inner) == first + rest
              && Rewrite(first, IdentifyClient(peer).value.0, IdentifyClient(peer).value.1) == Ok(message)
    ensures TlsBytes(log) + s.fwd.written <= message + rest
    ensures s.fwd.copier == Splice.Done(true) ==> TlsBytes(log) + s.fwd.written == message + rest
    ensures s.rev.written <= fromUpstream && (s.rev.copier == Splice.Done(true) ==> s.rev.written == fromUpstream)
  {
    var first := FirstMessage(ClientStream(socket, inner)).value.0;
    assert FirstMessage(ClientStream(socket, inner)) == Ok((first, rest));
    hide *;
    Splice.OutputIsPrefix(1, rest, fromUpstream, steps, s);
    Splice.CleanEndDeliveredAll(1, rest, fromUpstream, steps, s);
    PrefixAfter(message, s.fwd.written, rest);
  }

  lemma {:induction false} PrefixAfter(head: Bytes, a: Bytes, b: Bytes)
    requires a <= b
    ensures head + a <= head + b
  {
    assert b == a + b[|a|..];
    ConcatAssoc(head, a, b[|a|..]);
  }

  /**
    The same for a managed session: from its login on, the upstream holds a
    prefix of what follows the client's startup message, and the client holds a
    prefix of the replay of the upstream's state followed by what the upstream
    sent. The replay decodes to that state unless a parameter holds a NUL.
   */
  lemma {:induction false} ManagedConserves(
      env: Managed.ManagedEnv, socket: Bytes, inner: Bytes, log: seq<Managed.ManagedEvent>,
        login: Option<Managed.Login>,
      o: Managed.ManagedOutcome, fromUpstream: Bytes, steps: seq<Splice.Step>, s: Splice.State)
    requires o == Managed.ManagedOutcomeOf(env, socket, inner) && o.Replayed?
    requires Managed.LogFits(log, env, OpeningOf(socket), login, o)
    requires env.state.value.pid < TWO32 && env.state.value.secret < TWO32
    requires Splice.Run(1, Splice.Init(Managed.ClientMessage(socket, inner).value.1, fromUpstream), steps) == Some(s)
    ensures exists first, rest, full ::
              && Managed.ClientMessage(socket, inner) == Some((first, rest)) &&
                ClientStream(socket, inner) == first + rest
              && s.fwd.written <= rest
              && log != [] && log[|log| - 1] == Managed.HandshakeSent(full)
              && (Handshake.Decode(full) == env.state <==> Handshake.AllNulFree(env.state.value.params))
              && full + s.rev.written <= full + fromUpstream
              && (s.fwd.copier == Splice.Done(true) ==> s.fwd.written == rest)
              && (s.rev.copier == Splice.Done(true) ==> s.rev.written == fromUpstream)
  {
    var (first, rest) := Managed.ClientMessage(socket, inner).value;
    var full := ReplayIn(env, socket, inner, log, login, o);
    hide *;
    Splice.OutputIsPrefix(1, rest, fromUpstream, steps, s);
    Splice.CleanEndDeliveredAll(1, rest, fromUpstream, steps, s);
    PrefixAfter(full, s.rev.written, fromUpstream);
  }

  /** The replay at the end of a managed session's log, and what it decodes to. */
  lemma {:induction false} ReplayIn(
      env: Managed.ManagedEnv, socket: Bytes, inner: Bytes, log: seq<Managed.ManagedEvent>,
        login: Option<Managed.Login>,
      o: Managed.ManagedOutcome) returns (full: Bytes)
    requires o == Managed.ManagedOutcomeOf(env, socket, inner) && o.Replayed?
    requires Managed.LogFits(log, env, OpeningOf(socket), login, o)
    requires env.state.value.pid < TWO32 && env.state.value.secret < TWO32
    ensures log != [] && log[|log| - 1] == Managed.HandshakeSent(full)
    ensures Handshake.Decode(full) == env.state <==> Handshake.AllNulFree(env.state.value.params)
    ensures Managed.ClientMessage(socket, inner).Some?
    ensures var (first, rest) := Managed.ClientMessage(socket, inner).value; ClientStream(socket, inner) == first + rest
  {
    hide OpeningOf, Managed.IsReplay, Handshake.Decode, Handshake.AllNulFree, Managed.OpeningLog, Managed.LoginLog;
    full :| Managed.IsReplay(full, env.state.value)
            && log == Managed.OpeningLog(env, OpeningOf(socket)) + Managed.LoginLog(env, login.value) +
              [Managed.HandshakeSent(full)];
    Managed.ReplayDecodes(full, env.state.value);
  }

  /** When each label is counted: by the first thing that goes wrong, told from the bytes and the environment. */
  lemma {:induction false} LabelsMean(env: Env, separateAck: bool, socket: Bytes, ack: Bytes, inner: Bytes)
    ensures var o, known := OutcomeOf(env, separateAck, socket, ack, inner), !env.peer.DisallowedPeer?;
            var hello := known && OpeningOf(socket).Ok?;
            var asked := hello && env.dials && env.sslWritten >= 8 && |ack| >= 1;
            var ready := asked && ack[0] == 83 && env.upstreamTls;
            && (o == Ended(DisallowedSource) <==> env.peer.DisallowedPeer?)
            && (o == Ended(ClientBadProtocol) <==> known && OpeningOf(socket) == Err(ClientBadProtocol))
            && (o == Ended(UpstreamBadProtocol) <==> asked && ack[0] != 83)
            && (o == Ended(UpstreamTlsFailed) <==> asked && ack[0] == 83 && !env.upstreamTls)
            && (o == Ended(ClientTlsFailed) <==> ready && OpeningOf(socket) == Ok(true) && !env.clientTls)
            && (o == Ended(BadStartup) <==>
                  && ready && (OpeningOf(socket) == Ok(true) ==> env.clientTls)
                  && Sent(env.peer, separateAck, socket, inner).None?)
            && (o == Ended(NetworkError) <==>
                  && known
                  && (|socket| < 8 || (hello && !asked)
                      || (ready && (OpeningOf(socket) == Ok(true) ==> env.clientTls)
                          && Sent(env.peer, separateAck, socket, inner).Some?
                          && env.startupWritten < |Sent(env.peer, separateAck, socket, inner).value.0|)))
  {
    OpeningMeans(socket);
    hide OpeningOf, Sent, ReachesSplice;
  }

  /** The openings, on the bytes: SSLRequest 80877103, a v3 message of a plausible length, anything else. */
  lemma {:induction false} OpeningMeans(socket: Bytes)
    ensures OpeningOf(socket) == Err(NetworkError) <==> |socket| < 8
    ensures OpeningOf(socket) == Ok(true) <==> |socket| >= 8 && GetU32(socket, 0) == 8 && GetU32(socket, 4) == 80877103
    ensures OpeningOf(socket) == Ok(false) <==>
            |socket| >= 8 && 8 <= GetU32(socket, 0) <= 65536 && GetU32(socket, 4) == 196608
    ensures OpeningOf(socket).Err? ==> OpeningOf(socket) in {Err(NetworkError), Err(ClientBadProtocol)}
  {
    if |socket| >= 8 {
      HeadU32(socket, 0);
      HeadU32(socket, 4);
      SslStartIs(socket);
      hide GetU32;
    }
  }

  lemma {:induction false} SslStartIs(socket: Bytes)
    requires |socket| >= 8
    ensures SSL_START <= socket <==> GetU32(socket, 0) == 8 && GetU32(socket, 4) == 80877103
  {
    assert GetU32(SSL_START, 0) == 8 && GetU32(SSL_START, 4) == 80877103;
    if GetU32(socket, 0) == 8 && GetU32(socket, 4) == 80877103 {
      SameHeader(socket, SSL_START);
      hide GetU32;
      assert socket[..8] == SSL_START[..8] == SSL_START;
    }
  }

  /**
    What goes out before the copiers: the SSL request in the clear, and for a TLS
    client one "S" after the upstream's TLS is up and before its own; then the
    startup message and nothing else.
   */
  lemma {:induction false} SplicedLogMeans(clientIsTls: bool, message: Bytes)
    ensures var log := SplicedLog(clientIsTls, message);
            && Safe(log) && TlsBytes(log) == message
            && log[0] == ToUpstreamPlain([0, 0, 0, 8, 4, 210, 22, 47]) && log[1] == UpstreamTlsUp
            && (ToClientPlain([83]) in log <==> clientIsTls)
            && (forall i :: 0 <= i < |log| && log[i].ToClientPlain? ==> i == 2 && ClientTlsUp in log[i..])
            && (forall i :: 0 <= i < |log| && log[i].ToUpstreamTls? ==> i == |log| - 1)
  {
    var log := SplicedLog(clientIsTls, message);
    assert ToClientPlain([83]) in log <==> clientIsTls by {
      assert clientIsTls ==> log[2] == ToClientPlain([83]);
    }
    if clientIsTls {
      assert log[3] == ClientTlsUp && log[2..][1] == log[3];
    }
    TlsBytesOfSpliced(log, message);
  }

  lemma {:induction false} TlsBytesOfSpliced(log: seq<Event>, message: Bytes)
    requires log != [] && log[|log| - 1] == ToUpstreamTls(message)
    requires forall i :: 0 <= i < |log| - 1 ==> !log[i].ToUpstreamTls?
    ensures TlsBytes(log) == message
  {
    NoTlsBytes(log[..|log| - 1]);
    assert [] + message == message;
  }

  lemma {:induction false} NoTlsBytes(log: seq<Event>)
    requires forall i :: 0 <= i < |log| ==> !log[i].ToUpstreamTls?
    ensures TlsBytes(log) == []
  {
    if log == [] {
    } else {
      NoTlsBytes(log[..|log| - 1]);
    }
  }

  /** What opens as plaintext is what the reader accepts: only the overwritten byte, or a short stream, stops it. */
  lemma {:induction false} PlaintextOpeningReads(socket: Bytes)
    requires OpeningOf(socket) == Ok(false)
    ensures match FirstMessage(socket)
            case Ok((m, rest)) => AnnouncesV3(m) && |m| == GetU32(socket, 0)
            case Err(e) => e == StreamEnded && |socket| < GetU32(socket, 0)
  {
    assert GetU32(socket[..8], 0) == GetU32(socket, 0) == GetU32(socket[..4], 0);
    assert GetU32(socket[..8], 4) == GetU32(socket, 4);
    if FirstMessage(socket).Ok? {
      var (m, rest) := FirstMessage(socket).value;
      assert forall k :: 0 <= k < 8 ==> m[k] == (m + rest)[k];
    }
  }

  /**
    As shipped, no session of a plaintext client reaches the splice, whatever the
    environment does: one that gets as far as the startup message is refused for
    it. With the ack read elsewhere it reaches the splice exactly when it should.
   */
  lemma {:induction false} PlaintextNeverSplices(env: Env, socket: Bytes, ack: Bytes, inner: Bytes)
    requires OpeningOf(socket) == Ok(false)
    ensures !ReachesSplice(env, false, socket, ack, inner)
    ensures !env.peer.DisallowedPeer? && UpstreamReady(env, ack) ==>
              OutcomeOf(env, false, socket, ack, inner) == Ended(BadStartup)
    ensures ReachesSplice(env, true, socket, ack, inner) <==>
            && UpstreamReady(env, ack)
            && Rewritten(env.peer, socket).Some?
            && env.startupWritten >= |Rewritten(env.peer, socket).value.0|
  {
    SentIsRewritten(env.peer, false, socket, inner);
    SentIsRewritten(env.peer, true, socket, inner);
    hide Sent, Rewritten;
  }

  /** Everything goes well for this environment. */
  const GOOD: Env := Env(FlyPeer([97]), true, 8, true, true, 65536)

  /** user=a in plaintext, as any client without TLS opens. */
  const PLAINTEXT: seq<Pair> := [Pair([117, 115, 101, 114], [97])]

  /** A real plaintext session: refused as shipped, spliced if the ack had its own byte. */
  lemma {:induction false} PlaintextSessionIsRefused(socket: Bytes)
    requires socket == Message(PLAINTEXT)
    ensures OpeningOf(socket) == Ok(false)
    ensures OutcomeOf(GOOD, false, socket, [ACK], []) == Ended(BadStartup)
    ensures OutcomeOf(GOOD, true, socket, [ACK], []) == Spliced(false)
  {
    hide *;
    PlaintextOpens(socket);
    PlaintextRewrites(socket);
    GoodIsGood();
    PlaintextNeverSplices(GOOD, socket, [ACK], []);
    LateEnd(GOOD, true, socket, [ACK], []);
  }

  lemma {:induction false} GoodIsGood()
    ensures !GOOD.peer.DisallowedPeer? && UpstreamReady(GOOD, [ACK]) && GOOD.startupWritten == 65536
    ensures GOOD.peer == FlyPeer([97])
  {
  }

  lemma {:induction false} PlaintextOpens(socket: Bytes)
    requires socket == Message(PLAINTEXT)
    ensures OpeningOf(socket) == Ok(false)
  {
    PlaintextMessage(socket);
    hide Message, Rewrite, GetU32;
    HeadU32(socket, 0);
    HeadU32(socket, 4);
    NotSslStart(socket);
  }

  lemma {:induction false} HeadU32(socket: Bytes, off: nat)
    requires |socket| >= 8 && off <= 4
    ensures GetU32(socket[..8], off) == GetU32(socket, off)
  {
    var head := socket[..8];
    assert forall k :: 0 <= k < 8 ==> head[k] == socket[k];
  }

  lemma {:induction false} NotSslStart(socket: Bytes)
    requires |socket| >= 8 && GetU32(socket, 4) == PROTO_V3
    ensures !(SSL_START <= socket)
  {
  }

  lemma {:induction false} PlaintextRewrites(socket: Bytes)
    requires socket == Message(PLAINTEXT)
    ensures Rewritten(FlyPeer([97]), socket).Some? && |Rewritten(FlyPeer([97]), socket).value.0| <= 65536
  {
    PlaintextOpens(socket);
    PlaintextMessage(socket);
    PlaintextOpeningReads(socket);
    hide Message, Rewrite, OpeningOf, FirstMessage;
    var (m, rest) := FirstMessage(socket).value;
    assert m == socket by { assert socket == m + rest; }
    RewriteSize(m, [97], false, Rewrite(m, [97], false).value);
  }

  lemma {:induction false} PlaintextMessage(socket: Bytes)
    requires socket == Message(PLAINTEXT)
    ensures |socket| == 16 && GetU32(socket, 0) == 16 && GetU32(socket, 4) == PROTO_V3
    ensures Rewrite(socket, [97], false).Ok?
  {
    assert PrintPairs(PLAINTEXT) == [117, 115, 101, 114, 0, 97, 0] + PrintPairs([]);
    assert WellFormed(PLAINTEXT);
    MessageRoundTrip(PLAINTEXT);
    SameRejections(socket, [97], false);
  }

  /** The identity of an admitted peer: for a Fly peer, whatever a lookup returned in some run of the caches. */
  predicate Identifies(s: IdentityCache.State, t: nat, peer: Peer) {
    peer.TailscalePeer? || (t in s.threads && s.threads[t].Finished? && peer == FlyPeer(s.threads[t].ident))
  }

  /** Every admitted peer gets an identity, so `rewriteStartup` is never called without one. */
  lemma {:induction false} AdmittedPeersHaveNames(lag: nat, steps: seq<IdentityCache.Step>, s: IdentityCache.State,
      t: nat, peer: Peer)
    requires IdentityCache.Run(lag, steps) == Some(s) && Identifies(s, t, peer)
    ensures IdentifyClient(peer).Some? && IdentifyClient(peer).value.0 != []
  {
    if !peer.TailscalePeer? {
      IdentityCache.ReturnedIdentity(lag, steps, s, t);
    }
  }

  /**
    Hence the bytes of a v3 message go through unchanged for one reason only:
    the first application_name is one the client set itself, and the peer is not
    attributed by suffix. A message that does not parse never goes through.
   */
  lemma {:induction false} UnchangedOnlyIfNamed(
      lag: nat, steps: seq<IdentityCache.Step>, s: IdentityCache.State, t: nat, peer: Peer, raw: Bytes, out: Bytes)
    requires IdentityCache.Run(lag, steps) == Some(s) && Identifies(s, t, peer)
    requires AnnouncesV3(raw) && NulFree(IdentifyClient(peer).value.0)
    requires Rewrite(raw, IdentifyClient(peer).value.0, IdentifyClient(peer).value.1) == Ok(out)
    ensures ParseList(raw).Ok?
    ensures out == raw <==> var ps := ParseList(raw).value; var i := FirstKey(ps, APP_NAME);
                            i >= 0 && ps[i].val != [] && !peer.TailscalePeer?
  {
    AdmittedPeersHaveNames(lag, steps, s, t, peer);
    UnchangedIff(raw, IdentifyClient(peer).value.0, IdentifyClient(peer).value.1, out);
  }

  lemma {:induction false} UnchangedIff(raw: Bytes, id: Bytes, ts: bool, out: Bytes)
    requires AnnouncesV3(raw) && id != [] && NulFree(id) && Rewrite(raw, id, ts) == Ok(out)
    ensures ParseList(raw).Ok?
    ensures out == raw <==> var ps := ParseList(raw).value; var i := FirstKey(ps, APP_NAME);
                            i >= 0 && ps[i].val != [] && !ts
  {
    SameRejections(raw, id, ts);
    var ps := ParseList(raw).value;
    RewriteShape(raw, id, ts);
    RewriteParses(raw, id, ts, ps, out);
    hide Rewrite, ParseList, Message;
    EditIsIdentity(ps, id, ts);
  }

  lemma {:induction false} EditIsIdentity(ps: seq<Pair>, id: Bytes, ts: bool)
    requires id != []
    ensures Edit(ps, id, ts) == ps <==> FirstKey(ps, APP_NAME) >= 0 && ps[FirstKey(ps, APP_NAME)].val != [] && !ts
  {
    var i := FirstKey(ps, APP_NAME);
    if i >= 0 {
      assert ps[i := Pair(APP_NAME, ps[i].val)] == ps;
    }
  }
}
