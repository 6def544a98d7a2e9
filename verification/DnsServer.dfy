/**
  The forwarder's choice of an answer (`dnsSelfAnswer`, `resolveAlias`, plain
  forwarding) and its TCP side (`readDNSTCP`, `writeDNSTCP`, `handleDNSTCP`).
  The local interfaces, the resolver and the forwarding exchange are oracles that
  may answer differently for every query.
 */
module DnsServer {
  import opened Octets
  import opened Wrappers
  import opened Stream
  import opened DnsQuestion
  import opened DnsAnswer
  import opened DnsAlias
  import Decoder = DnsDecoder

  const TYPE_A: nat := 1
  const TYPE_AAAA: nat := 28

  /** dnsSelfSuffix, aliasSuffix, internalDomain; an empty string turns the feature off. */
  datatype Config = Config(selfName: Bytes, alias: Bytes, internal: Bytes)

  /** Answers of the outside world to the k-th query of a connection. */
  datatype World = World(
    selfAddr: (nat, nat) -> Option<Addr>,
    lookup: (nat, nat, Bytes) -> Option<seq<Addr>>,
    resolver: (nat, Bytes) -> Option<seq<Bytes>>)   // what arrives after forwarding, in segments; None: no connection

  /** netip.Addr.Unmap: an IPv4-mapped IPv6 address becomes the IPv4 address. */
  function Unmap(a: Addr): Addr {
    if |a.octets| == 16 && a.octets[..12] == [0, 0, 0, 0, 0, 0, 0, 0, 0, 0, 255, 255] then Addr(a.octets[12..]) else a
  }

  predicate Is4(a: Addr) {
    |a.octets| == 4
  }

  /** A belongs with IPv4, AAAA with everything else. */
  predicate Fits(qtype: nat, a: Addr) {
    (qtype == TYPE_A && Is4(a)) || (qtype == TYPE_AAAA && !Is4(a))
  }

  /** The unmapped addresses of the right family, in order. */
  function Matching(qtype: nat, ips: seq<Addr>): (r: seq<Addr>)
    ensures forall i :: 0 <= i < |r| ==> Fits(qtype, r[i])
    ensures forall i :: 0 <= i < |ips| && Fits(qtype, Unmap(ips[i])) ==> Unmap(ips[i]) in r
  {
    if ips == [] then []
    else
      var rest := Matching(qtype, ips[..|ips| - 1]);
      var ip := Unmap(ips[|ips| - 1]);
      if Fits(qtype, ip) then rest + [ip] else rest
  }

  /** An address ::ffff:a.b.c.d becomes a.b.c.d, every other stays as it is. */
  lemma {:induction false} UnmapMeans(a: Addr)
    ensures var o := a.octets;
            var mapped := |o| == 16 && (forall i :: 0 <= i < 10 ==> o[i] == 0) && o[10] == 255 && o[11] == 255;
            Unmap(a) == if mapped then Addr([o[12], o[13], o[14], o[15]]) else a
  {
    var o := a.octets;
    if |o| == 16 {
      assert o[12..] == [o[12], o[13], o[14], o[15]];
      var head: Bytes := [0, 0, 0, 0, 0, 0, 0, 0, 0, 0, 255, 255];
      if (forall i :: 0 <= i < 10 ==> o[i] == 0) && o[10] == 255 && o[11] == 255 {
        assert o[..12] == head;
      } else {
        assert forall i :: 0 <= i < 12 ==> o[..12][i] == o[i];
      }
    }
  }

  /**
    What filtering does, by positions: the results are the unmapped addresses at
    exactly the positions that fit, in their order.
   */
  lemma {:induction false} MatchingIs(qtype: nat, ips: seq<Addr>) returns (at: seq<nat>)
    ensures |at| == |Matching(qtype, ips)|
    ensures forall k :: 0 <= k < |at| ==> at[k] < |ips| && Matching(qtype, ips)[k] == Unmap(ips[at[k]])
    ensures forall j, k :: 0 <= j < k < |at| ==> at[j] < at[k]
    ensures forall i :: 0 <= i < |ips| ==> (i in at <==> Fits(qtype, Unmap(ips[i])))
  {
    if ips == [] {
      at := [];
    } else {
      var n := |ips| - 1;
      var init := ips[..n];
      at := MatchingIs(qtype, init);
      assert forall i :: 0 <= i < n ==> init[i] == ips[i];
      hide Unmap, Fits;
      if Fits(qtype, Unmap(ips[n])) {
        at := at + [n];
      }
    }
  }

  /** The filtering loop of `resolveAlias`. */
  method FilterAddrs(qtype: nat, ips: seq<Addr>) returns (addrs: seq<Addr>)
    ensures addrs == Matching(qtype, ips)
  {
    addrs := [];
    var i := 0;
    while i < |ips|
      invariant 0 <= i <= |ips|
      invariant addrs == Matching(qtype, ips[..i])
    {
      assert ips[..i + 1][..i] == ips[..i];
      var ip := Unmap(ips[i]);
      if Fits(qtype, ip) {
        addrs := addrs + [ip];
      }
      i := i + 1;
    }
    assert ips[..i] == ips;
  }

  function SelfAnswer(cfg: Config, w: World, k: nat, query: Bytes): (r: Option<Bytes>) {
    match ParseQuestion(query)
    case None => None
    case Some(q) =>
      if cfg.selfName == [] || q.name != cfg.selfName || (q.qtype != TYPE_A && q.qtype != TYPE_AAAA) then None
      else
        match w.selfAddr(k, q.qtype)
        case None => None
        case Some(a) => BuildAnswer(query, q.qtype, [a], q.qend)
  }

  function AliasAnswer(cfg: Config, w: World, k: nat, query: Bytes): (r: Option<Bytes>) {
    match ParseQuestion(query)
    case None => None
    case Some(q) =>
      if q.qtype != TYPE_A && q.qtype != TYPE_AAAA then None
      else
        match AliasTarget(q.name, cfg.alias, cfg.internal)
        case None => None
        case Some(target) =>
          match w.lookup(k, q.qtype, target)
          case None => None
          case Some(ips) => BuildAnswer(query, q.qtype, Matching(q.qtype, ips), q.qend)
  }

  /** `forwardDNSTCP`: the first frame the resolver sends back. */
  function Forward(w: World, k: nat, query: Bytes): (r: Option<Bytes>)
    ensures r.Some? ==> |r.value| < 0x1_0000
  {
    match w.resolver(k, query)
    case None => None
    case Some(segments) =>
      match NextFrame(Flatten(segments))
      case None => None
      case Some((m, _)) => Some(m)
  }

  method ForwardDnsTcp(w: World, k: nat, query: Bytes) returns (r: Option<Bytes>)
    ensures r == Forward(w, k, query)
  {
    var segments := w.resolver(k, query);
    if segments.None? {
      return None;
    }
    var c := new Conn(segments.value);
    r := ReadDnsTcp(c);
  }

  /** Self first, then alias, then whatever the resolver says; None ends the connection. */
  function Choose(cfg: Config, w: World, k: nat, query: Bytes): (r: Option<Bytes>) {
    match SelfAnswer(cfg, w, k, query)
    case Some(a) => Some(a)
    case None =>
      match AliasAnswer(cfg, w, k, query)
      case Some(a) => Some(a)
      case None => Forward(w, k, query)
  }

  /** What a forwarded query brings back: the first whole frame, if there is one. */
  lemma {:induction false} ForwardMeans(w: World, k: nat, query: Bytes, m: Bytes)
    ensures Forward(w, k, query) == Some(m) <==>
            && w.resolver(k, query).Some? && |m| < 0x1_0000
            && exists rest :: Flatten(w.resolver(k, query).value) == Frame(m) + rest
  {
    hide Flatten;
    if w.resolver(k, query).Some? {
      var s := Flatten(w.resolver(k, query).value);
      if NextFrame(s).Some? {
        FrameOfNext(s);
      }
      if |m| < 0x1_0000 && exists rest :: s == Frame(m) + rest {
        var rest :| s == Frame(m) + rest;
        NextOfFrame(m, rest);
      }
      hide NextFrame, Frame;
    }
  }

  lemma {:induction false} FrameOfNext(s: Bytes)
    requires NextFrame(s).Some?
    ensures s == Frame(NextFrame(s).value.0) + NextFrame(s).value.1
  {
    var n := GetU16(s, 0);
    assert PutU16(n) == [s[0], s[1]] by {
      var hi: int, lo: int := s[0], s[1];
      assert n == 256 * hi + lo;
    }
    assert s == [s[0], s[1]] + s[2..2 + n] + s[2 + n..];
  }

  /** The same choice as the code makes it, with the calls in its order. */
  method ChooseAnswer(cfg: Config, w: World, k: nat, query: Bytes) returns (r: Option<Bytes>)
    ensures r == Choose(cfg, w, k, query)
  {
    hide Matching, BuildAnswer, ParseQuestion, AliasTarget, Forward;
    var q := ParseDnsQuestion(query);
    if q.Some? && (q.value.qtype == TYPE_A || q.value.qtype == TYPE_AAAA) {
      if cfg.selfName != [] && q.value.name == cfg.selfName {
        var addr := w.selfAddr(k, q.value.qtype);
        if addr.Some? {
          r := DnsAnswerMulti(query, q.value.qtype, [addr.value], q.value.qend);
          if r.Some? {
            return;
          }
        }
      }
      var target := AliasTarget(q.value.name, cfg.alias, cfg.internal);
      if target.Some? {
        var ips := w.lookup(k, q.value.qtype, target.value);
        if ips.Some? {
          var addrs := FilterAddrs(q.value.qtype, ips.value);
          r := DnsAnswerMulti(query, q.value.qtype, addrs, q.value.qend);
          if r.Some? {
            return;
          }
        }
      }
    }
    r := ForwardDnsTcp(w, k, query);
  }

  /**
    An alias answer, read back by the RFC 1035 decoder: the query's own ID and
    name (not the internal one), and exactly the looked-up addresses of the
    queried family.
   */
  lemma {:induction false} AliasAnswerMeans(
      cfg: Config, w: World, k: nat, query: Bytes, q: Question, target: Bytes, ips: seq<Addr>, resp: Bytes)
    requires ParseQuestion(query) == Some(q) && AliasTarget(q.name, cfg.alias, cfg.internal) == Some(target)
    requires w.lookup(k, q.qtype, target) == Some(ips) && AreAddrs(ips) && |Matching(q.qtype, ips)| < 0x1_0000
    requires AliasAnswer(cfg, w, k, query) == Some(resp)
    ensures Decoder.Decode(resp).Some?
    ensures var m := Decoder.Decode(resp).value;
            && m.header.id == GetU16(query, 0) && m.header.qr && m.header.rcode == 0 && m.trailing == []
            && m.answers == AnswersFor(AskedName(query), q.qtype, Matching(q.qtype, ips))
  {
    var addrs := Matching(q.qtype, ips);
    hide *;
    AliasAnswerBuilt(cfg, w, k, query, q, target, ips, resp);
    MatchingAddrs(q.qtype, ips);
    AnswerDecodes(query, q, addrs, resp);
    AnswerCompleteIff(query, q, addrs, resp, Decoder.Decode(resp).value);
  }

  /** A self answer is given for the own name only, and says the own address under it. */
  lemma {:induction false} SelfAnswerMeans(cfg: Config, w: World, k: nat, query: Bytes, q: Question, a: Addr,
      resp: Bytes)
    requires ParseQuestion(query) == Some(q) && w.selfAddr(k, q.qtype) == Some(a) && IsAddr(a)
    requires SelfAnswer(cfg, w, k, query) == Some(resp)
    ensures cfg.selfName != [] && Lower(Join(AskedName(query))) == cfg.selfName
    ensures Decoder.Decode(resp).Some?
    ensures var m := Decoder.Decode(resp).value;
            && m.header.id == GetU16(query, 0) && m.header.qr && m.header.rcode == 0 && m.trailing == []
            && m.answers == [AnswerFor(AskedName(query), q.qtype, a)]
  {
    hide *;
    SelfAnswerBuilt(cfg, w, k, query, q, a, resp);
    AnswerDecodes(query, q, [a], resp);
    AnswerCompleteIff(query, q, [a], resp, Decoder.Decode(resp).value);
    OneAnswer(AskedName(query), q.qtype, a);
  }

  lemma {:induction false} OneAnswer(owner: seq<Bytes>, qtype: nat, a: Addr)
    ensures AnswersFor(owner, qtype, [a]) == [AnswerFor(owner, qtype, a)]
  {
    assert [a][1..] == [];
    assert AnswersFor(owner, qtype, []) == [];
  }

  lemma {:induction false} SelfAnswerBuilt(cfg: Config, w: World, k: nat, query: Bytes, q: Question, a: Addr,
      resp: Bytes)
    requires ParseQuestion(query) == Some(q) && w.selfAddr(k, q.qtype) == Some(a) && IsAddr(a)
    requires SelfAnswer(cfg, w, k, query) == Some(resp)
    ensures cfg.selfName != [] && Lower(Join(AskedName(query))) == cfg.selfName
    ensures BuildAnswer(query, q.qtype, [a], q.qend) == Some(resp) && AreAddrs([a])
  {
    hide BuildAnswer, Lower, Join, ReadLabels, GetU16;
  }

  /**
    On a parsed query the alias scheme rewrites the lower-case labels that were
    asked for, if and only if they end with the alias or do not seem to once
    joined; so always if no label contains a dot.
   */
  lemma {:induction false} AliasOfQuestion(query: Bytes, q: Question, alias: seq<Bytes>, internal: seq<Bytes>)
    requires ParseQuestion(query) == Some(q)
    requires alias != [] && AllDotFree(alias) && Join(alias) != []
    requires internal == [] || Join(internal) != []
    ensures var ls := LowerAll(AskedName(query));
            && (Agrees(ls, alias, internal) <==> AliasLabels(ls, alias, internal).Some? || !SeemsAliased(q.name, alias))
            && AliasTarget(q.name, Join(alias), Join(internal)) == AliasTarget(Join(ls), Join(alias), Join(internal))
            && (AllDotFree(AskedName(query)) ==> Agrees(ls, alias, internal))
  {
    var ls := AskedName(query);
    LowerJoin(ls);
    hide AliasTarget, AliasLabels, Join, Agrees, SeemsAliased;
    assert forall i :: 0 <= i < |ls| ==> IsLabel(ls[i]);
    AliasAgreesIff(LowerAll(ls), alias, internal);
    if AllDotFree(ls) {
      assert forall i :: 0 <= i < |ls| ==> DotFree(ls[i]);
      AliasRefinesLabels(LowerAll(ls), alias, internal);
    }
  }

  lemma {:induction false} AliasAnswerBuilt(
      cfg: Config, w: World, k: nat, query: Bytes, q: Question, target: Bytes, ips: seq<Addr>, resp: Bytes)
    requires ParseQuestion(query) == Some(q) && AliasTarget(q.name, cfg.alias, cfg.internal) == Some(target)
    requires w.lookup(k, q.qtype, target) == Some(ips) && AliasAnswer(cfg, w, k, query) == Some(resp)
    ensures BuildAnswer(query, q.qtype, Matching(q.qtype, ips), q.qend) == Some(resp)
  {
    hide BuildAnswer, ParseQuestion, AliasTarget, Matching;
  }

  lemma {:induction false} MatchingAddrs(qtype: nat, ips: seq<Addr>)
    requires AreAddrs(ips)
    ensures AreAddrs(Matching(qtype, ips))
  {
    if ips == [] {
    } else {
      MatchingAddrs(qtype, ips[..|ips| - 1]);
      assert IsAddr(ips[|ips| - 1]);
    }
  }

  // ------------------------------------------------------------ TCP framing

  /** `writeDNSTCP`: a length of 16 bits, then the message. */
  function Frame(m: Bytes): (f: Bytes)
    ensures |f| == 2 + |m|
  {
    PutU16(|m|) + m
  }

  function Frames(ms: seq<Bytes>): Bytes {
    if ms == [] then [] else Frame(ms[0]) + Frames(ms[1..])
  }

  /** `readDNSTCP`: the first whole frame and what follows it. */
  function NextFrame(s: Bytes): (r: Option<(Bytes, Bytes)>)
    ensures r.Some? ==> |r.value.0| < 0x1_0000 && |r.value.1| < |s|
  {
    if |s| < 2 || |s| < 2 + GetU16(s, 0) then None
    else Some((s[2..2 + GetU16(s, 0)], s[2 + GetU16(s, 0)..]))
  }

  /** The messages of a byte stream, and the bytes after the last whole frame. */
  function Deframe(s: Bytes): (r: (seq<Bytes>, Bytes))
    decreases |s|
  {
    match NextFrame(s)
    case None => ([], s)
    case Some((m, rest)) => ([m] + Deframe(rest).0, Deframe(rest).1)
  }

  predicate AllShort(ms: seq<Bytes>) {
    forall i :: 0 <= i < |ms| ==> |ms[i]| < 0x1_0000
  }

  lemma {:induction false} NextOfFrame(m: Bytes, rest: Bytes)
    requires |m| < 0x1_0000
    ensures NextFrame(Frame(m) + rest) == Some((m, rest))
  {
    var s := Frame(m) + rest;
    assert s[0..2] == PutU16(|m|);
    hide PutU16, GetU16;
    SliceU16(s, 0, PutU16(|m|));
    assert s[2..2 + |m|] == m && s[2 + |m|..] == rest;
  }

  lemma {:induction false} DeframedShort(s: Bytes)
    ensures AllShort(Deframe(s).0)
    decreases |s|
  {
    match NextFrame(s)
    case None =>
    case Some((m, rest)) => DeframedShort(rest);
  }

  /** Concatenated frames give the messages back if and only if each is shorter than 65536 bytes. */
  lemma {:induction false} FramesRoundTrip(ms: seq<Bytes>)
    ensures Deframe(Frames(ms)) == (ms, []) <==> AllShort(ms)
  {
    if AllShort(ms) {
      FramesReadBack(ms, []);
      assert Frames(ms) + [] == Frames(ms);
      assert ms + [] == ms;
    } else {
      DeframedShort(Frames(ms));
    }
  }

  /** With more bytes behind, the messages come first. */
  lemma {:induction false} FramesReadBack(ms: seq<Bytes>, tail: Bytes)
    requires AllShort(ms)
    ensures Deframe(Frames(ms) + tail) == (ms + Deframe(tail).0, Deframe(tail).1)
  {
    if ms == [] {
      assert Frames(ms) + tail == tail;
      assert ms + Deframe(tail).0 == Deframe(tail).0;
    } else {
      var m, rest := ms[0], ms[1..];
      assert ms == [m] + rest;
      FramesCons(m, rest);
      ShortCons(m, rest);
      hide Frames, Deframe, AllShort;
      FramesReadBack(rest, tail);
      ConcatAssoc(Frame(m), Frames(rest), tail);
      DeframeFirst(m, Frames(rest) + tail);
      assert [m] + (rest + Deframe(tail).0) == ms + Deframe(tail).0;
    }
  }

  /** Frames can be told apart again if and only if each message is shorter than 65536 bytes. */
  lemma {:induction false} FramesAligned(ms: seq<Bytes>)
    ensures Deframe(Frames(ms)).0 <= ms <==> AllShort(ms)
  {
    if ms == [] {
    } else {
      var m, rest := ms[0], ms[1..];
      assert ms == [m] + rest;
      FramesCons(m, rest);
      ShortCons(m, rest);
      if |m| < 0x1_0000 {
        FramesAligned(rest);
        DeframeFirst(m, Frames(rest));
      } else {
        DeframeLong(m, Frames(rest));
      }
      hide Deframe, Frames, AllShort;
    }
  }

  lemma {:induction false} FramesCons(m: Bytes, ms: seq<Bytes>)
    ensures Frames([m] + ms) == Frame(m) + Frames(ms)
  {
    hide Frame;
    assert ([m] + ms)[1..] == ms;
  }

  lemma {:induction false} ShortCons(m: Bytes, ms: seq<Bytes>)
    ensures AllShort([m] + ms) <==> |m| < 0x1_0000 && AllShort(ms)
  {
    var all := [m] + ms;
    assert all[0] == m && forall i :: 0 <= i < |ms| ==> all[i + 1] == ms[i];
  }

  lemma {:induction false} DeframeFirst(m: Bytes, tail: Bytes)
    requires |m| < 0x1_0000
    ensures Deframe(Frame(m) + tail) == ([m] + Deframe(tail).0, Deframe(tail).1)
  {
    NextOfFrame(m, tail);
    hide NextFrame, Frame;
  }

  lemma {:induction false} DeframeLong(m: Bytes, tail: Bytes)
    requires |m| >= 0x1_0000
    ensures var got := Deframe(Frame(m) + tail).0; got != [] && got[0] != m
  {
    LongFrame(m, tail);
    hide NextFrame, Frame;
  }

  /** A message that does not fit its prefix is read back as a shorter one. */
  lemma {:induction false} LongFrame(m: Bytes, rest: Bytes)
    requires |m| >= 0x1_0000
    ensures NextFrame(Frame(m) + rest).Some? && NextFrame(Frame(m) + rest).value.0 != m
  {
    var s := Frame(m) + rest;
    assert s[0..2] == PutU16(|m|);
    hide PutU16, GetU16;
    SliceU16(s, 0, PutU16(|m|));
  }

  /** However early a connection fails, the whole frames it was sent are the first answers. */
  lemma {:induction false} FramesCut(ms: seq<Bytes>, room: nat)
    requires AllShort(ms)
    ensures Deframe(Take(Frames(ms), room)).0 <= ms
    ensures |Frames(ms)| <= room ==> Deframe(Take(Frames(ms), room)) == (ms, [])
  {
    if ms == [] {
    } else {
      var f, rest := Frame(ms[0]), Frames(ms[1..]);
      TakeConcatRoom(f, rest, room);
      hide Frame;
      if room < |f| {
        CutFrame(ms[0], room);
      } else {
        FramesCut(ms[1..], room - |f|);
        DeframeFirst(ms[0], Take(rest, room - |f|));
        hide Deframe, Take;
        assert ms == [ms[0]] + ms[1..];
      }
    }
  }

  lemma {:induction false} CutFrame(m: Bytes, room: nat)
    requires |m| < 0x1_0000 && room < |Frame(m)|
    ensures Deframe(Take(Frame(m), room)) == ([], Take(Frame(m), room))
  {
    var s := Take(Frame(m), room);
    if room >= 2 {
      assert s[0..2] == PutU16(|m|);
      hide PutU16, GetU16;
      SliceU16(s, 0, PutU16(|m|));
    }
  }

  method ReadDnsTcp(c: Conn) returns (r: Option<Bytes>)
    modifies c
    ensures match NextFrame(old(c.Pending()))
            case None => r == None
            case Some((m, rest)) => r == Some(m) && c.Pending() == rest
  {
    ghost var s := c.Pending();
    var ln := c.ReadFull(2);
    if ln.None? {
      return None;
    }
    assert GetU16(s, 0) == GetU16(ln.value, 0);
    hide GetU16;
    var n := GetU16(ln.value, 0);
    r := c.ReadFull(n);
    assert r.Some? ==> r.value == s[2..2 + n] && c.Pending() == s[2 + n..];
  }

  /** The writing side of a connection that takes `room` more bytes before it fails. */
  class Sink {
    var written: Bytes
    var room: nat

    constructor (room: nat)
      ensures written == [] && this.room == room
    {
      written, this.room := [], room;
    }

    method Write(b: Bytes) returns (ok: bool)
      modifies this
      ensures written == old(written) + Take(b, old(room)) && room == old(room) - |Take(b, old(room))|
      ensures ok <==> |b| <= old(room)
    {
      var part := Take(b, room);
      written := written + part;
      ok := |b| <= room;
      room := room - |part|;
    }

    /** `writeDNSTCP`: two writes, the second only if the first succeeded. */
    method WriteDnsTcp(m: Bytes) returns (ok: bool)
      modifies this
      ensures written == old(written) + Take(Frame(m), old(room)) && room == old(room) - |Take(Frame(m), old(room))|
      ensures ok <==> |Frame(m)| <= old(room)
    {
      TakeConcatRoom(PutU16(|m|), m, room);
      ok := Write(PutU16(|m|));
      if ok {
        ConcatAssoc(old(written), PutU16(|m|), Take(m, room));
        ok := Write(m);
      }
    }
  }

  function Take(b: Bytes, n: nat): (r: Bytes)
    ensures r <= b
  {
    if n < |b| then b[..n] else b
  }

  lemma {:induction false} TakeConcatRoom(a: Bytes, b: Bytes, n: nat)
    ensures Take(a + b, n) == if n < |a| then Take(a, n) else a + Take(b, n - |a|)
  {
    if |a| <= n {
      assert n < |a + b| ==> (a + b)[..n] == a + b[..n - |a|];
    } else {
      assert (a + b)[..n] == a[..n];
    }
  }

  // ------------------------------------------------------- one TCP connection

  /** The answers to a list of queries from the k-th on, up to the first that cannot be had. */
  function Answers(cfg: Config, w: World, k: nat, queries: seq<Bytes>): (r: seq<Bytes>)
    ensures |r| <= |queries|
    decreases |queries|
  {
    if queries == [] then []
    else
      match Choose(cfg, w, k, queries[0])
      case None => []
      case Some(a) => [a] + Answers(cfg, w, k + 1, queries[1..])
  }

  /** The i-th answer is chosen for the i-th query, and the list ends only where the next choice fails. */
  lemma {:induction false} AnswersInOrder(cfg: Config, w: World, k: nat, queries: seq<Bytes>)
    ensures var a := Answers(cfg, w, k, queries);
            && (forall i :: 0 <= i < |a| ==> Choose(cfg, w, k + i, queries[i]) == Some(a[i]))
            && (|a| < |queries| ==> Choose(cfg, w, k + |a|, queries[|a|]).None?)
    decreases |queries|
  {
    hide Choose;
    if queries == [] {
    } else if Choose(cfg, w, k, queries[0]).None? {
    } else {
      var rest := queries[1..];
      AnswersInOrder(cfg, w, k + 1, rest);
      var a, b := Answers(cfg, w, k, queries), Answers(cfg, w, k + 1, rest);
      assert a == [Choose(cfg, w, k, queries[0]).value] + b;
      hide Answers;
      forall i | 0 <= i < |a|
        ensures Choose(cfg, w, k + i, queries[i]) == Some(a[i])
      {
        if i == 0 {
        } else {
          assert Choose(cfg, w, k + 1 + (i - 1), rest[i - 1]) == Some(b[i - 1]);
        }
      }
      if |a| < |queries| {
        assert rest[|b|] == queries[|a|];
      }
    }
  }

  /** The addresses the gateway answers a question with by itself: its own, or the alias's; none means it forwards. */
  function OwnAddrs(cfg: Config, w: World, k: nat, q: Question): seq<Addr> {
    if q.qtype != TYPE_A && q.qtype != TYPE_AAAA then []
    else if cfg.selfName != [] && q.name == cfg.selfName && w.selfAddr(k, q.qtype).Some? then
      [w.selfAddr(k, q.qtype).value]
    else
      match AliasTarget(q.name, cfg.alias, cfg.internal)
      case None => []
      case Some(target) =>
        var ips := w.lookup(k, q.qtype, target);
        if ips.None? then [] else Matching(q.qtype, ips.value)
  }

  /** One record per address. */
  function RecordsSize(addrs: seq<Addr>): nat {
    if addrs == [] then 0 else 12 + |addrs[0].octets| + RecordsSize(addrs[1..])
  }

  lemma {:induction false} RecordsSizeIs(qtype: nat, addrs: seq<Addr>)
    ensures |RecordsBytes(qtype, addrs)| == RecordsSize(addrs)
  {
    if addrs == [] {
    } else {
      RecordsSizeIs(qtype, addrs[1..]);
      hide RecordBytes;
    }
  }

  /** With addresses of one family that is n * (12 + size). */
  lemma {:induction false} RecordsSizeOfFamily(addrs: seq<Addr>, size: nat)
    requires forall i :: 0 <= i < |addrs| ==> |addrs[i].octets| == size
    ensures RecordsSize(addrs) == |addrs| * (12 + size)
  {
    RecordsSizeIs(TYPE_A, addrs);
    RecordsLength(TYPE_A, addrs, size);
  }

  /** Question and records together fit the 16-bit length; what is forwarded always does. */
  predicate AnswerFits(cfg: Config, w: World, k: nat, query: Bytes) {
    match ParseQuestion(query)
    case None => true
    case Some(q) =>
      var addrs := OwnAddrs(cfg, w, k, q);
      addrs == [] || q.qend + RecordsSize(addrs) < 0x1_0000
  }

  /** The choice in one line: an own answer if there are addresses for one, else what the resolver says. */
  lemma {:induction false} ChooseByAddrs(cfg: Config, w: World, k: nat, query: Bytes)
    ensures Choose(cfg, w, k, query) ==
            match ParseQuestion(query)
            case None => Forward(w, k, query)
            case Some(q) =>
              var addrs := OwnAddrs(cfg, w, k, q);
              if addrs == [] then Forward(w, k, query) else BuildAnswer(query, q.qtype, addrs, q.qend)
  {
    BuildAnswerDefined(query);
    hide ParseQuestion, Matching, AliasTarget, Forward, BuildAnswer;
  }

  lemma {:induction false} BuildAnswerDefined(query: Bytes)
    ensures ParseQuestion(query).Some? ==>
              var q := ParseQuestion(query).value;
              forall addrs :: BuildAnswer(query, q.qtype, addrs, q.qend).Some? <==> addrs != []
  {
    hide AnswerHeader, RecordsBytes, ReadLabels;
  }

  /** Queries that differ only in the case of their names are answered from the same addresses, or both forwarded. */
  lemma {:induction false} CaseBlindChoice(
      cfg: Config, w: World, k: nat, a: Bytes, b: Bytes, ls: seq<Bytes>, ms: seq<Bytes>, off: nat)
    requires ReadLabels(a, 12) == Some((ls, off)) && ReadLabels(b, 12) == Some((ms, off)) && AllSameButCase(ls, ms)
    requires off + 4 <= |a| && off + 4 <= |b| && GetU16(a, off) == GetU16(b, off)
    requires |a| >= 12 && |b| >= 12 && GetU16(a, 4) >= 1 && GetU16(b, 4) >= 1
    ensures ParseQuestion(a).Some?
    ensures var q := ParseQuestion(a).value;
            var addrs := OwnAddrs(cfg, w, k, q);
            if addrs == [] then Choose(cfg, w, k, a) == Forward(w, k, a) && Choose(cfg, w, k, b) == Forward(w, k, b)
            else
              && Choose(cfg, w, k, a) == BuildAnswer(a, q.qtype, addrs, q.qend)
              && Choose(cfg, w, k, b) == BuildAnswer(b, q.qtype, addrs, q.qend)
  {
    hide *;
    CaseBlind(a, b, ls, ms, off);
    ChooseByAddrs(cfg, w, k, a);
    ChooseByAddrs(cfg, w, k, b);
  }

  /** An answer fits its length prefix if and only if the question and the addresses say so. */
  lemma {:induction false} AnswerShortIff(cfg: Config, w: World, k: nat, query: Bytes, resp: Bytes)
    requires Choose(cfg, w, k, query) == Some(resp)
    ensures |resp| < 0x1_0000 <==> AnswerFits(cfg, w, k, query)
  {
    ChooseByAddrs(cfg, w, k, query);
    hide Choose, OwnAddrs, Forward;
    if ParseQuestion(query).Some? {
      var q := ParseQuestion(query).value;
      var addrs := OwnAddrs(cfg, w, k, q);
      hide ParseQuestion, BuildAnswer;
      if addrs != [] {
        AnswerLayout(query, q.qtype, addrs, q.qend, resp);
        RecordsSizeIs(q.qtype, addrs);
        assert |resp| == q.qend + |resp[q.qend..]|;
      }
    }
  }

  predicate AllFit(cfg: Config, w: World, queries: seq<Bytes>, n: nat)
    requires n <= |queries|
  {
    forall i :: 0 <= i < n ==> AnswerFits(cfg, w, i, queries[i])
  }

  lemma {:induction false} AnswerShortAt(cfg: Config, w: World, queries: seq<Bytes>, i: nat)
    requires i < |Answers(cfg, w, 0, queries)|
    ensures |Answers(cfg, w, 0, queries)[i]| < 0x1_0000 <==> AnswerFits(cfg, w, i, queries[i])
  {
    hide *;
    AnswersInOrder(cfg, w, 0, queries);
    AnswerShortIff(cfg, w, i, queries[i], Answers(cfg, w, 0, queries)[i]);
  }

  lemma {:induction false} AnswersShortIff(cfg: Config, w: World, queries: seq<Bytes>)
    ensures var a := Answers(cfg, w, 0, queries); AllShort(a) <==> AllFit(cfg, w, queries, |a|)
  {
    hide Choose, AnswerFits, Answers;
    forall i | 0 <= i < |Answers(cfg, w, 0, queries)|
      ensures |Answers(cfg, w, 0, queries)[i]| < 0x1_0000 <==> AnswerFits(cfg, w, i, queries[i])
    {
      AnswerShortAt(cfg, w, queries, i);
    }
  }

  /**
    A connection's stream is frame-aligned wherever it is cut, and its k-th frame
    is the answer to the k-th query, if and only if every answer fits its prefix.
   */
  lemma {:induction false} StreamAlignedIff(cfg: Config, w: World, queries: seq<Bytes>)
    ensures var a := Answers(cfg, w, 0, queries);
            (forall room: nat :: Deframe(Take(Frames(a), room)).0 <= a) <==> AllFit(cfg, w, queries, |a|)
  {
    var a := Answers(cfg, w, 0, queries);
    AnswersShortIff(cfg, w, queries);
    hide Answers, AllFit, Deframe, Frames;
    if AllShort(a) {
      forall room: nat
        ensures Deframe(Take(Frames(a), room)).0 <= a
      {
        FramesCut(a, room);
      }
    } else {
      FramesAligned(a);
      assert Take(Frames(a), |Frames(a)|) == Frames(a);
    }
  }

  /** The query A a.b, under an alias domain b. */
  const QUERY_AB: Bytes := [0, 7, 1, 0, 0, 1, 0, 0, 0, 0, 0, 0, 1, 97, 1, 98, 0, 0, 1, 0, 1]

  const ALIAS_B: Config := Config([], [98], [])

  function Copies(n: nat): (r: seq<Addr>)
    ensures |r| == n && forall i :: 0 <= i < n ==> r[i] == Addr([10, 0, 0, 1])
  {
    seq(n, i => Addr([10, 0, 0, 1]))
  }

  /** An app with n addresses. */
  function Crowd(n: nat): World {
    World((k, qtype) => None, (k, qtype, name) => Some(Copies(n)), (k, query) => None)
  }

  lemma {:induction false} ParsesAB()
    ensures ParseQuestion(QUERY_AB) == Some(Question([97, DOT, 98], TYPE_A, 21))
  {
    var header: Bytes, ls: seq<Bytes> := QUERY_AB[..12], [[97], [98]];
    assert EncodeLabels(ls[1..]) == [1, 98] by { assert ls[1..] == [[98]] && ls[1..][1..] == []; }
    assert EncodeLabels(ls) == [1, 97, 1, 98];
    assert Join(ls) == [97, DOT, 98] by { assert ls[..1] == [[97]]; }
    assert Lower([97, DOT, 98]) == [97, DOT, 98];
    hide EncodeLabels, Join, Lower, ParseQuestion;
    assert PutU16(1) == [0, 1];
    assert QUERY_AB == header + ([1, 97, 1, 98] + [0]) + PutU16(1) + PutU16(1) + [];
    QuestionRoundTrip(header, ls, 1, 1, []);
  }

  /** The query AAAA A.B, in capitals. */
  const QUERY_UPPER_AB: Bytes := [0, 8, 1, 0, 0, 1, 0, 0, 0, 0, 0, 0, 1, 65, 1, 66, 0, 0, 28, 0, 1]

  lemma {:induction false} ParsesUpperAB()
    ensures ParseQuestion(QUERY_UPPER_AB) == Some(Question([97, DOT, 98], 28, 21))
  {
    var header: Bytes, ls: seq<Bytes> := QUERY_UPPER_AB[..12], [[65], [66]];
    assert EncodeLabels(ls[1..]) == [1, 66] by { assert ls[1..] == [[66]] && ls[1..][1..] == []; }
    assert EncodeLabels(ls) == [1, 65, 1, 66];
    assert Join(ls) == [65, DOT, 66] by { assert ls[..1] == [[65]]; }
    assert Lower([65, DOT, 66]) == [97, DOT, 98];
    hide EncodeLabels, Join, Lower, ParseQuestion;
    assert PutU16(1) == [0, 1] && PutU16(28) == [0, 28];
    assert QUERY_UPPER_AB == header + ([1, 65, 1, 66] + [0]) + PutU16(28) + PutU16(1) + [];
    QuestionRoundTrip(header, ls, 28, 1, []);
  }

  const MAPPED: Addr := Addr([0, 0, 0, 0, 0, 0, 0, 0, 0, 0, 255, 255, 10, 0, 0, 1])
  const V6: Addr := Addr([253, 170, 0, 0, 0, 0, 0, 0, 0, 0, 0, 0, 0, 0, 0, 3])

  /** An app with an address of each family, the IPv4 one mapped. */
  const MIXED: World := World((k, qtype) => None, (k, qtype, name) => Some([MAPPED, V6]), (k, query) => None)

  lemma {:induction false} MatchingSnoc(qtype: nat, ips: seq<Addr>, a: Addr)
    ensures Matching(qtype, ips + [a]) == Matching(qtype, ips) + if Fits(qtype, Unmap(a)) then [Unmap(a)] else []
  {
    hide Fits, Unmap;
    assert (ips + [a])[..|ips|] == ips;
  }

  lemma {:induction false} UnmapBoth()
    ensures Unmap(MAPPED) == Addr([10, 0, 0, 1]) && Unmap(V6) == V6
  {
    UnmapMeans(MAPPED);
    UnmapMeans(V6);
    assert V6.octets[0] != 0;
    hide Unmap;
  }

  lemma {:induction false} MixedFamilies()
    ensures Matching(1, [MAPPED, V6]) == [Addr([10, 0, 0, 1])] && Matching(28, [MAPPED, V6]) == [V6]
  {
    UnmapBoth();
    assert |V6.octets| == 16;
    hide Unmap;
    var four := Addr([10, 0, 0, 1]);
    assert Fits(1, four) && !Fits(28, four) && Fits(28, V6) && !Fits(1, V6);
    assert Matching(1, []) == [] && Matching(28, []) == [];
    assert [MAPPED] == [] + [MAPPED] && [MAPPED, V6] == [MAPPED] + [V6];
    hide Matching, Fits, MAPPED, V6;
    MatchingSnoc(1, [], MAPPED);
    MatchingSnoc(28, [], MAPPED);
    MatchingSnoc(1, [MAPPED], V6);
    MatchingSnoc(28, [MAPPED], V6);
  }

  /** AAAA A.B under the alias b is answered with the app's IPv6 address and nothing else. */
  lemma {:induction false} UpperAaaaIsAnswered()
    ensures Choose(ALIAS_B, MIXED, 0, QUERY_UPPER_AB) == BuildAnswer(QUERY_UPPER_AB, 28, [V6], 21)
  {
    var name: Bytes := [97, DOT, 98];
    assert name[1..] == [DOT] + [98] && name[..1] == [97];
    assert AliasTarget(name, [98], []) == Some([97]);
    ParsesUpperAB();
    ChooseByAddrs(ALIAS_B, MIXED, 0, QUERY_UPPER_AB);
    MixedFamilies();
    hide Choose, ParseQuestion, AliasTarget, Matching, BuildAnswer, Forward;
  }

  lemma {:induction false} MatchingAll(ips: seq<Addr>)
    requires forall i :: 0 <= i < |ips| ==> Is4(ips[i])
    ensures Matching(TYPE_A, ips) == ips
  {
    if ips == [] {
    } else {
      var n := |ips| - 1;
      MatchingAll(ips[..n]);
      assert Unmap(ips[n]) == ips[n] && Fits(TYPE_A, ips[n]);
      hide Unmap, Fits;
      assert ips == ips[..n] + [ips[n]];
    }
  }

  /** The answer the gateway gives for a.b when the app has n addresses. */
  lemma {:induction false} CrowdAnswer(n: nat)
    requires n > 0
    ensures OwnAddrs(ALIAS_B, Crowd(n), 0, Question([97, DOT, 98], TYPE_A, 21)) == Copies(n)
    ensures Choose(ALIAS_B, Crowd(n), 0, QUERY_AB) == BuildAnswer(QUERY_AB, TYPE_A, Copies(n), 21)
  {
    var name: Bytes := [97, DOT, 98];
    assert name[1..] == [DOT] + [98] && name[..1] == [97];
    assert AliasTarget(name, [98], []) == Some([97]);
    ParsesAB();
    ChooseByAddrs(ALIAS_B, Crowd(n), 0, QUERY_AB);
    MatchingAll(Copies(n));
    hide Choose, ParseQuestion, AliasTarget, Matching, BuildAnswer, Forward;
  }

  lemma {:induction false} CrowdBuilt(n: nat) returns (resp: Bytes)
    requires n > 0
    ensures BuildAnswer(QUERY_AB, TYPE_A, Copies(n), 21) == Some(resp)
    ensures Choose(ALIAS_B, Crowd(n), 0, QUERY_AB) == Some(resp)
    ensures AreAddrs(Copies(n)) && RecordsSize(Copies(n)) == n * 16
  {
    CrowdAnswer(n);
    hide Choose, OwnAddrs, RecordsBytes, AnswerHeader, RecordsSize;
    resp := BuildAnswer(QUERY_AB, TYPE_A, Copies(n), 21).value;
    RecordsSizeOfFamily(Copies(n), 4);
  }

  /** It fits only with fewer than 4095 addresses. */
  lemma {:induction false} CrowdFits(n: nat)
    requires n > 0
    ensures AnswerFits(ALIAS_B, Crowd(n), 0, QUERY_AB) <==> n < 4095
  {
    var resp := CrowdBuilt(n);
    ParsesAB();
    CrowdAnswer(n);
    hide Choose, OwnAddrs, RecordsSize, ParseQuestion, BuildAnswer;
  }

  /** A real answer too long for its prefix: 4096 addresses for a.b make 65557 bytes, announced as 21. */
  lemma {:induction false} LongAnswerMisaligns() returns (resp: Bytes)
    ensures Choose(ALIAS_B, Crowd(4096), 0, QUERY_AB) == Some(resp) && |resp| == 65557
    ensures !AnswerFits(ALIAS_B, Crowd(4096), 0, QUERY_AB)
    ensures var got := Deframe(Frame(resp)).0; got != [] && |got[0]| == 21
  {
    hide *;
    resp := CrowdBuilt(4096);
    CrowdFits(4096);
    AnswerLength(QUERY_AB, TYPE_A, Copies(4096), 21, resp, 4);
    FirstFrameOf65557(resp);
  }

  lemma {:induction false} FirstFrameOf65557(m: Bytes)
    requires |m| == 65557
    ensures var got := Deframe(Frame(m)).0; got != [] && |got[0]| == 21
  {
    var s := Frame(m);
    assert s[0..2] == PutU16(|m|);
    hide PutU16, GetU16;
    SliceU16(s, 0, PutU16(|m|));
    assert NextFrame(s) == Some((s[2..23], s[23..]));
  }

  /** 65536 addresses count as none. */
  lemma {:induction false} WrapsToNothing(query: Bytes, q: Question, addrs: seq<Addr>, resp: Bytes)
    requires ParseQuestion(query) == Some(q) && BuildAnswer(query, q.qtype, addrs, q.qend) == Some(resp)
    requires AreAddrs(addrs) && |addrs| == 0x1_0000
    ensures Decoder.Decode(resp).Some?
    ensures var m := Decoder.Decode(resp).value;
            m.answers == [] && m.header.anCount == 0 && m.trailing == RecordsBytes(q.qtype, addrs)
  {
    hide *;
    AnswerDecodes(query, q, addrs, resp);
    assert addrs[..0] == [] && addrs[0..] == addrs;
    NoAnswers(AskedName(query), q.qtype);
  }

  /** A real answer that says nothing: 65536 addresses for a.b are announced as none, and all are trailing bytes. */
  lemma {:induction false} FullAnswerIsEmpty() returns (resp: Bytes)
    ensures Choose(ALIAS_B, Crowd(0x1_0000), 0, QUERY_AB) == Some(resp) && Decoder.Decode(resp).Some?
    ensures var m := Decoder.Decode(resp).value;
            m.answers == [] && m.header.anCount == 0 && |m.trailing| == 0x10_0000
  {
    hide *;
    resp := CrowdBuilt(0x1_0000);
    ParsesAB();
    WrapsToNothing(QUERY_AB, Question([97, DOT, 98], TYPE_A, 21), Copies(0x1_0000), resp);
    RecordsSizeIs(TYPE_A, Copies(0x1_0000));
  }

  lemma {:induction false} NoAnswers(owner: seq<Bytes>, qtype: nat)
    ensures AnswersFor(owner, qtype, []) == []
  {
  }

  /**
    `handleDNSTCP`: whatever arrives in whatever segments, the connection is sent
    the frames of the answers to the framed queries, in order, cut short only
    where it stops taking bytes. If every answer fits its prefix, the whole frames
    that went out are the first answers, and all of them if there was room.
   */
  method HandleDnsTcp(cfg: Config, w: World, c: Conn, out: Sink)
    modifies c, out
    ensures var queries := Deframe(old(c.Pending())).0;
            var a, sent := Answers(cfg, w, 0, queries), Take(Frames(Answers(cfg, w, 0, queries)), old(out.room));
            && out.written == old(out.written) + sent
            && (AllFit(cfg, w, queries, |a|) ==>
                  Deframe(sent).0 <= a && (|Frames(a)| <= old(out.room) ==> Deframe(sent) == (a, [])))
  {
    ghost var queries := Deframe(c.Pending()).0;
    ghost var a := Answers(cfg, w, 0, queries);
    AnswersShortIff(cfg, w, queries);
    hide Deframe, Answers, Frames, Take, AllFit;
    if AllShort(a) {
      FramesCut(a, out.room);
    }
    AnswerAll(cfg, w, c, out);
  }

  /** Its loop. */
  method AnswerAll(cfg: Config, w: World, c: Conn, out: Sink)
    modifies c, out
    ensures var queries := Deframe(old(c.Pending())).0;
            out.written == old(out.written) + Take(Frames(Answers(cfg, w, 0, queries)), old(out.room))
  {
    hide Deframe, NextFrame, Choose, Answers, Frames, Frame, Take;
    ghost var all := Answers(cfg, w, 0, Deframe(c.Pending()).0);
    ghost var done: seq<Bytes>, limit, before := [], out.room, out.written;
    NoFrames(before);
    var k := 0;
    while true
      invariant all == done + Answers(cfg, w, k, Deframe(c.Pending()).0)
      invariant |Frames(done)| <= limit && out.room == limit - |Frames(done)|
      invariant out.written == before + Frames(done)
      decreases |c.Pending()|
    {
      ghost var s := c.Pending();
      AnswersStep(cfg, w, k, s);
      var msg := ReadDnsTcp(c);
      if msg.None? {
        Delivered(done, [], limit);
        assert done + [] == done;
        return;
      }
      var a := ChooseAnswer(cfg, w, k, msg.value);
      if a.None? {
        Delivered(done, [], limit);
        assert done + [] == done;
        return;
      }
      ghost var later := Answers(cfg, w, k + 1, Deframe(c.Pending()).0);
      Delivered(done, [a.value] + later, limit);
      FrameFirst(a.value, later, out.room);
      FramesSnoc(done, a.value);
      ConcatAssoc(before, Frames(done), Take(Frame(a.value), out.room));
      TakeAll(Frame(a.value), out.room);
      var ok := out.WriteDnsTcp(a.value);
      if !ok {
        return;
      }
      assert done + ([a.value] + later) == done + [a.value] + later;
      done := done + [a.value];
      k := k + 1;
    }
  }

  lemma {:induction false} NoFrames(before: Bytes)
    ensures Frames([]) == [] && before + [] == before
  {
  }

  lemma {:induction false} TakeAll(b: Bytes, n: nat)
    ensures |b| <= n ==> Take(b, n) == b
  {
  }

  /** What the next frame of a stream adds to its answers. */
  lemma {:induction false} AnswersStep(cfg: Config, w: World, k: nat, s: Bytes)
    ensures NextFrame(s).None? ==> Answers(cfg, w, k, Deframe(s).0) == []
    ensures NextFrame(s).Some? ==>
              var (m, rest) := NextFrame(s).value;
              var a := Choose(cfg, w, k, m);
              && |rest| < |s|
              && (a.None? ==> Answers(cfg, w, k, Deframe(s).0) == [])
              && (a.Some? ==> Answers(cfg, w, k, Deframe(s).0) == [a.value] + Answers(cfg, w, k + 1, Deframe(rest).0))
  {
    hide Choose, NextFrame;
    if NextFrame(s).Some? {
      var (m, rest) := NextFrame(s).value;
      assert ([m] + Deframe(rest).0)[1..] == Deframe(rest).0;
    }
  }

  lemma {:induction false} FramesConcat(a: seq<Bytes>, b: seq<Bytes>)
    ensures Frames(a + b) == Frames(a) + Frames(b)
  {
    hide Frame;
    if a == [] {
      assert a + b == b;
    } else {
      FramesConcat(a[1..], b);
      assert (a + b)[1..] == a[1..] + b;
      ConcatAssoc(Frame(a[0]), Frames(a[1..]), Frames(b));
    }
  }

  lemma {:induction false} FramesSnoc(a: seq<Bytes>, m: Bytes)
    ensures Frames(a + [m]) == Frames(a) + Frame(m)
  {
    hide Frame;
    FramesConcat(a, [m]);
    assert Frames([m]) == Frame(m) + [];
  }

  /** What a sink with this limit holds after the first frames and part of the others. */
  lemma {:induction false} Delivered(done: seq<Bytes>, more: seq<Bytes>, limit: nat)
    requires |Frames(done)| <= limit
    ensures Take(Frames(done + more), limit) == Frames(done) + Take(Frames(more), limit - |Frames(done)|)
    ensures more == [] ==> Take(Frames(done + more), limit) == Frames(done)
  {
    FramesConcat(done, more);
    TakeConcatRoom(Frames(done), Frames(more), limit);
    hide Frame;
    if more == [] {
      assert Frames(more) == [];
    }
  }

  lemma {:induction false} FrameFirst(m: Bytes, later: seq<Bytes>, room: nat)
    ensures room < |Frame(m)| ==> Take(Frames([m] + later), room) == Take(Frame(m), room)
  {
    hide Frame;
    assert ([m] + later)[1..] == later;
    TakeConcatRoom(Frame(m), Frames(later), room);
  }
}
