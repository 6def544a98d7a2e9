/**
  The session state a managed session replays to its client, as backend messages
  (PostgreSQL 16 documentation, section 55.7): AuthenticationOk, one
  ParameterStatus per parameter in sorted order, BackendKeyData, ReadyForQuery.
  Each message is a type byte, an Int32 length that counts itself, and a body.
 */
module Handshake {
  import opened Octets
  import opened Wrappers

  const STATUS: byte := 83  // 'S'

  // -------------------------------------------------- the order of names

  /** Strict byte-wise order, as sort.Strings uses it. */
  predicate Less(a: Bytes, b: Bytes) {
    b != [] && (a == [] || a[0] < b[0] || (a[0] == b[0] && Less(a[1..], b[1..])))
  }

  /** After k equal bytes a ends first, or has the smaller byte. */
  predicate LessAfter(a: Bytes, b: Bytes, k: nat) {
    k <= |a| && k < |b| && a[..k] == b[..k] && (k == |a| || a[k] < b[k])
  }

  /** The order of Go strings: bytes decide from the left, and a prefix comes first. */
  lemma {:induction false} LessMeans(a: Bytes, b: Bytes)
    ensures Less(a, b) <==> exists k: nat :: LessAfter(a, b, k)
  {
    if Less(a, b) {
      var k := LessWitness(a, b);
    } else if exists k: nat :: LessAfter(a, b, k) {
      var k: nat :| LessAfter(a, b, k);
      LessFrom(a, b, k);
    }
  }

  lemma {:induction false} LessWitness(a: Bytes, b: Bytes) returns (k: nat)
    requires Less(a, b)
    ensures LessAfter(a, b, k)
  {
    if a == [] || a[0] != b[0] {
      k := 0;
    } else {
      k := LessWitness(a[1..], b[1..]);
      k := k + 1;
      assert a[..k] == [a[0]] + a[1..][..k - 1] && b[..k] == [b[0]] + b[1..][..k - 1];
    }
  }

  lemma {:induction false} LessFrom(a: Bytes, b: Bytes, k: nat)
    requires LessAfter(a, b, k)
    ensures Less(a, b)
  {
    if k == 0 {
    } else {
      assert a[0] == a[..k][0] == b[..k][0] == b[0];
      assert a[1..][..k - 1] == a[..k][1..] && b[1..][..k - 1] == b[..k][1..];
      LessFrom(a[1..], b[1..], k - 1);
    }
  }

  lemma {:induction false} LessIrreflexive(a: Bytes)
    ensures !Less(a, a)
  {
    if a == [] {
    } else {
      LessIrreflexive(a[1..]);
    }
  }

  lemma {:induction false} LessTransitive(a: Bytes, b: Bytes, c: Bytes)
    requires Less(a, b) && Less(b, c)
    ensures Less(a, c)
  {
    if a != [] && a[0] == b[0] == c[0] {
      LessTransitive(a[1..], b[1..], c[1..]);
    }
  }

  lemma {:induction false} LessTotal(a: Bytes, b: Bytes)
    ensures a == b || Less(a, b) || Less(b, a)
  {
    if a != [] && b != [] && a[0] == b[0] {
      LessTotal(a[1..], b[1..]);
      assert a == [a[0]] + a[1..] && b == [b[0]] + b[1..];
    }
  }

  predicate Ascending(names: seq<Bytes>) {
    forall i, j :: 0 <= i < j < |names| ==> Less(names[i], names[j])
  }

  function SetOf(names: seq<Bytes>): set<Bytes> {
    set n | n in names
  }

  /** A set of names has only one ascending enumeration. */
  lemma {:induction false} AscendingUnique(a: seq<Bytes>, b: seq<Bytes>)
    requires Ascending(a) && Ascending(b) && SetOf(a) == SetOf(b)
    ensures a == b
  {
    if a == [] || b == [] {
      EmptySetOf(a);
      EmptySetOf(b);
    } else {
      FirstIsLeast(a, b[0]);
      FirstIsLeast(b, a[0]);
      if a[0] != b[0] {
        LessTransitive(a[0], b[0], a[0]);
        LessIrreflexive(a[0]);
      }
      TailSet(a);
      TailSet(b);
      AscendingUnique(a[1..], b[1..]);
      assert a == [a[0]] + a[1..] && b == [b[0]] + b[1..];
    }
  }

  lemma {:induction false} MemberOf(a: seq<Bytes>, x: Bytes)
    ensures x in SetOf(a) <==> x in a
  {
  }

  lemma {:induction false} EmptySetOf(a: seq<Bytes>)
    ensures SetOf(a) == {} <==> a == []
  {
    if a != [] {
      assert a[0] in SetOf(a);
    }
  }

  lemma {:induction false} FirstIsLeast(a: seq<Bytes>, x: Bytes)
    requires a != [] && Ascending(a)
    ensures a[0] in SetOf(a)
    ensures x in SetOf(a) ==> x == a[0] || Less(a[0], x)
  {
  }

  lemma {:induction false} TailSet(a: seq<Bytes>)
    requires a != [] && Ascending(a)
    ensures SetOf(a[1..]) == SetOf(a) - {a[0]}
  {
    forall n
      ensures n in SetOf(a[1..]) <==> n in SetOf(a) - {a[0]}
    {
      if n in a[1..] {
        FirstIsLeast(a, n);
        LessIrreflexive(a[0]);
        var k :| 0 <= k < |a[1..]| && a[1..][k] == n;
        assert Less(a[0], a[k + 1]);
      }
    }
  }

  /** Where a new name belongs. */
  function Insert(names: seq<Bytes>, x: Bytes): (r: seq<Bytes>)
    ensures SetOf(r) == SetOf(names) + {x}
  {
    if names == [] then [x]
    else if Less(x, names[0]) then
      assert forall n :: n in [x] + names <==> n == x || n in names;
      [x] + names
    else
      var rest := Insert(names[1..], x);
      assert forall n :: n in names <==> n == names[0] || n in names[1..];
      assert forall n :: n in [names[0]] + rest <==> n == names[0] || n in SetOf(rest);
      [names[0]] + rest
  }

  lemma {:induction false} InsertAscending(names: seq<Bytes>, x: Bytes)
    requires Ascending(names) && x !in names
    ensures Ascending(Insert(names, x))
  {
    if names == [] {
    } else {
      var tail := names[1..];
      if Less(x, names[0]) {
        forall j | 0 <= j < |names|
          ensures Less(x, names[j])
        {
          if j > 0 {
            LessTransitive(x, names[0], names[j]);
          }
        }
      } else {
        InsertAscending(tail, x);
        var r := Insert(tail, x);
        LessTotal(x, names[0]);
        forall j | 0 <= j < |r|
          ensures Less(names[0], r[j])
        {
          assert r[j] in SetOf(r);
        }
      }
    }
  }

  /** sort.Strings on the keys collected from a map: the result does not depend on the order they came in. */
  method SortNames(order: seq<Bytes>) returns (names: seq<Bytes>)
    requires forall i, j :: 0 <= i < j < |order| ==> order[i] != order[j]
    ensures Ascending(names) && SetOf(names) == SetOf(order)
  {
    names := [];
    var i := 0;
    while i < |order|
      invariant 0 <= i <= |order|
      invariant Ascending(names) && SetOf(names) == SetOf(order[..i])
    {
      MemberOf(names, order[i]);
      MemberOf(order[..i], order[i]);
      InsertAscending(names, order[i]);
      assert order[..i + 1] == order[..i] + [order[i]];
      names := Insert(names, order[i]);
      i := i + 1;
    }
    assert order[..i] == order;
  }

  // ------------------------------------------------------------- encoding

  /** What the upstream reported when the proxy logged in. */
  datatype SessionState = SessionState(params: map<Bytes, Bytes>, pid: nat, secret: nat, txStatus: byte)

  const AUTHENTICATION_OK: Bytes := [82, 0, 0, 0, 8, 0, 0, 0, 0]

  function StatusBody(name: Bytes, val: Bytes): Bytes {
    name + [0] + val + [0]
  }

  function Status(name: Bytes, val: Bytes): Bytes {
    [STATUS] + PutU32(4 + |StatusBody(name, val)|) + StatusBody(name, val)
  }

  function Statuses(params: map<Bytes, Bytes>, names: seq<Bytes>): Bytes
    requires forall n :: n in names ==> n in params
  {
    if names == [] then [] else Status(names[0], params[names[0]]) + Statuses(params, names[1..])
  }

  /** BackendKeyData and ReadyForQuery. */
  function Closing(pid: nat, secret: nat, txStatus: byte): (b: Bytes)
    ensures |b| == 19
  {
    [75] + PutU32(12) + PutU32(pid) + PutU32(secret) + [90] + PutU32(5) + [txStatus]
  }

  /** The longest message, its length field included, that the pgproto3 encoders accept. */
  const MAX_MESSAGE: nat := 0x3fff_fffe

  /** No message is over the limit, so the encoder accepts them all. */
  predicate Encodable(params: map<Bytes, Bytes>) {
    forall n :: n in params ==> 4 + |StatusBody(n, params[n])| <= MAX_MESSAGE
  }

  /** The replayed bytes, for any ascending enumeration of the parameter names. */
  function Replay(s: SessionState, names: seq<Bytes>): Bytes
    requires SetOf(names) == s.params.Keys
  {
    assert forall n :: n in names ==> n in SetOf(names);
    AUTHENTICATION_OK + Statuses(s.params, names) + Closing(s.pid, s.secret, s.txStatus)
  }

  /** `writeManagedHandshake`: `order` is the order in which the map happened to be iterated. */
  method WriteManagedHandshake(s: SessionState, order: seq<Bytes>) returns (r: Option<Bytes>)
    requires SetOf(order) == s.params.Keys
    requires forall i, j :: 0 <= i < j < |order| ==> order[i] != order[j]
    ensures r.Some? <==> Encodable(s.params)
    ensures r.Some? ==> exists names :: Ascending(names) && SetOf(names) == s.params.Keys
    ensures r.Some? ==> forall names :: Ascending(names) && SetOf(names) == s.params.Keys ==>
            r == Some(Replay(s, names))
  {
    var names := SortNames(order);
    var buf := AUTHENTICATION_OK;
    var i := 0;
    assert forall n :: n in names <==> n in SetOf(names);
    while i < |names|
      invariant 0 <= i <= |names|
      invariant forall n :: n in names <==> n in s.params
      invariant forall k :: 0 <= k < i ==> 4 + |StatusBody(names[k], s.params[names[k]])| <= MAX_MESSAGE
      invariant buf + Statuses(s.params, names[i..]) == AUTHENTICATION_OK + Statuses(s.params, names)
    {
      var name := names[i];
      if 4 + |StatusBody(name, s.params[name])| > MAX_MESSAGE {
        return None;
      }
      assert names[i..][1..] == names[i + 1..];
      ConcatAssoc(buf, Status(name, s.params[name]), Statuses(s.params, names[i + 1..]));
      buf := buf + Status(name, s.params[name]);
      i := i + 1;
    }
    assert buf == AUTHENTICATION_OK + Statuses(s.params, names);
    buf := buf + Closing(s.pid, s.secret, s.txStatus);
    assert Encodable(s.params);
    forall other | Ascending(other) && SetOf(other) == s.params.Keys
      ensures Some(buf) == Some(Replay(s, other))
    {
      AscendingUnique(names, other);
    }
    r := Some(buf);
  }

  // ------------------------------------------------------------- decoding

  /** A body that is exactly two NUL-terminated strings. */
  function DecodeStatusBody(body: Bytes): (r: Option<(Bytes, Bytes)>)
    ensures r.Some? ==> NulFree(r.value.0) && NulFree(r.value.1)
  {
    var i := IndexNul(body);
    if i < 0 then None
    else
      var rest := body[i + 1..];
      var j := IndexNul(rest);
      if j < 0 || j + 1 != |rest| then None else Some((body[..i], rest[..j]))
  }

  /** Reads ParameterStatus messages while there are any; the rest is what follows them. */
  function DecodeStatuses(b: Bytes, acc: map<Bytes, Bytes>): (r: Option<(map<Bytes, Bytes>, Bytes)>)
    decreases |b|
  {
    if b == [] || b[0] != 83 then Some((acc, b))
    else if |b| < 5 then None
    else
      var n := GetU32(b, 1);
      if n < 4 || 1 + n > |b| then None
      else
        match DecodeStatusBody(b[5..1 + n])
        case None => None
        case Some((name, val)) => DecodeStatuses(b[1 + n..], acc[name := val])
  }

  /** What a client makes of the replayed bytes. */
  function Decode(b: Bytes): (r: Option<SessionState>) {
    if |b| < 9 || b[..9] != [82, 0, 0, 0, 8, 0, 0, 0, 0] then None
    else
      match DecodeStatuses(b[9..], map[])
      case None => None
      case Some((params, rest)) => DecodeClosing(params, rest)
  }

  function DecodeClosing(params: map<Bytes, Bytes>, rest: Bytes): (r: Option<SessionState>) {
    if |rest| != 19 || rest[0] != 75 || GetU32(rest, 1) != 12 || rest[13] != 90 || GetU32(rest, 14) != 5 then None
    else Some(SessionState(params, GetU32(rest, 5), GetU32(rest, 9), rest[18]))
  }

  predicate AllNulFree(params: map<Bytes, Bytes>) {
    forall n :: n in params ==> NulFree(n) && NulFree(params[n])
  }

  lemma {:induction false} DecodeOneBody(name: Bytes, val: Bytes)
    requires NulFree(name) && NulFree(val)
    ensures DecodeStatusBody(StatusBody(name, val)) == Some((name, val))
  {
    var body := StatusBody(name, val);
    var rest := val + [0];
    assert body == name + [0] + rest;
    IndexNulAfter(name, rest);
    assert rest == val + [0] + [];
    IndexNulAfter(val, []);
    assert body[..|name|] == name && body[|name| + 1..] == rest && rest[..|val|] == val;
  }

  lemma {:induction false} StatusLayout(name: Bytes, val: Bytes, tail: Bytes)
    requires 4 + |StatusBody(name, val)| < TWO32
    ensures var n, b := |StatusBody(name, val)|, Status(name, val) + tail;
            && |b| == 5 + n + |tail| && b[0] == STATUS && GetU32(b, 1) == 4 + n
            && b[5..5 + n] == StatusBody(name, val) && b[5 + n..] == tail
  {
    hide StatusBody, PutU32, PutU16, GetU32;
    var body := StatusBody(name, val);
    var len := PutU32(4 + |body|);
    var b := Status(name, val) + tail;
    assert b[1..5] == len;
    SliceU32(b, 1, len);
  }

  /** One encoded ParameterStatus is read back and the rest is left. */
  lemma {:induction false} DecodeOneStatus(name: Bytes, val: Bytes, tail: Bytes, acc: map<Bytes, Bytes>)
    requires NulFree(name) && NulFree(val) && 4 + |StatusBody(name, val)| < TWO32
    ensures DecodeStatuses(Status(name, val) + tail, acc) == DecodeStatuses(tail, acc[name := val])
  {
    StatusLayout(name, val, tail);
    DecodeOneBody(name, val);
    hide StatusBody, Status, DecodeStatusBody, GetU32;
  }

  function Lookup(params: map<Bytes, Bytes>, names: seq<Bytes>): map<Bytes, Bytes>
    requires forall n :: n in names ==> n in params
  {
    map n | n in names :: params[n]
  }

  lemma {:induction false} DecodeAllStatuses(
      params: map<Bytes, Bytes>, names: seq<Bytes>, tail: Bytes, acc: map<Bytes, Bytes>)
    requires forall n :: n in names ==> n in params
    requires AllNulFree(params) && Encodable(params)
    requires tail != [] && tail[0] != STATUS
    ensures DecodeStatuses(Statuses(params, names) + tail, acc) == Some((acc + Lookup(params, names), tail))
  {
    if names == [] {
      assert Statuses(params, names) + tail == tail;
      assert acc + Lookup(params, names) == acc;
    } else {
      hide DecodeStatuses, Status, StatusBody;
      var n, rest := names[0], names[1..];
      ConcatAssoc(Status(n, params[n]), Statuses(params, rest), tail);
      DecodeOneStatus(n, params[n], Statuses(params, rest) + tail, acc);
      DecodeAllStatuses(params, rest, tail, acc[n := params[n]]);
      LookupCons(params, names, acc);
    }
  }

  lemma {:induction false} LookupCons(params: map<Bytes, Bytes>, names: seq<Bytes>, acc: map<Bytes, Bytes>)
    requires names != [] && forall n :: n in names ==> n in params
    ensures acc[names[0] := params[names[0]]] + Lookup(params, names[1..]) == acc + Lookup(params, names)
  {
    assert forall m :: m in names <==> m == names[0] || m in names[1..];
  }

  lemma {:induction false} DecodedNulFree(b: Bytes, acc: map<Bytes, Bytes>)
    requires AllNulFree(acc) && DecodeStatuses(b, acc).Some?
    ensures AllNulFree(DecodeStatuses(b, acc).value.0)
    decreases |b|
  {
    if b != [] && b[0] == STATUS {
      var n := GetU32(b, 1);
      var pair := DecodeStatusBody(b[5..1 + n]).value;
      DecodedNulFree(b[1 + n..], acc[pair.0 := pair.1]);
    }
  }

  lemma {:induction false} DecodeOwnClosing(s: SessionState)
    requires s.pid < TWO32 && s.secret < TWO32
    ensures DecodeClosing(s.params, Closing(s.pid, s.secret, s.txStatus)) == Some(s)
    ensures Closing(s.pid, s.secret, s.txStatus)[0] == 75
  {
    var b := Closing(s.pid, s.secret, s.txStatus);
    ClosingLayout(s.pid, s.secret, s.txStatus);
    hide PutU32, PutU16, GetU32, Closing;
    SliceU32(b, 1, PutU32(12));
    SliceU32(b, 5, PutU32(s.pid));
    SliceU32(b, 9, PutU32(s.secret));
    SliceU32(b, 14, PutU32(5));
  }

  lemma {:induction false} ClosingLayout(pid: nat, secret: nat, txStatus: byte)
    ensures var b := Closing(pid, secret, txStatus);
            && b[0] == 75 && b[13] == 90 && b[18] == txStatus
            && b[1..5] == PutU32(12) && b[5..9] == PutU32(pid) && b[9..13] == PutU32(secret) && b[14..18] == PutU32(5)
  {
    hide PutU32, PutU16, GetU32;
  }

  /**
    The client decodes the replayed bytes to exactly the upstream's parameters,
    key data and transaction status if and only if no parameter holds a NUL.
   */
  lemma {:induction false} ReplayRoundTrip(s: SessionState, names: seq<Bytes>)
    requires SetOf(names) == s.params.Keys && Encodable(s.params) && s.pid < TWO32 && s.secret < TWO32
    ensures Decode(Replay(s, names)) == Some(s) <==> AllNulFree(s.params)
  {
    hide *;
    if AllNulFree(s.params) {
      KeysOf(s.params, names);
      ReplayLayout(s, names);
      DecodeOwnClosing(s);
      var tail := Closing(s.pid, s.secret, s.txStatus);
      TailIsNoStatus(tail, s);
      DecodeAllStatuses(s.params, names, tail, map[]);
      DecodeParts(Replay(s, names), s.params, tail, s);
    } else {
      DecodedParamsNulFree(Replay(s, names));
    }
  }

  lemma {:induction false} TailIsNoStatus(tail: Bytes, s: SessionState)
    requires tail == Closing(s.pid, s.secret, s.txStatus) && tail[0] == 75
    ensures tail != [] && tail[0] != STATUS
  {
    hide Closing;
  }

  lemma {:induction false} KeysOf(params: map<Bytes, Bytes>, names: seq<Bytes>)
    requires SetOf(names) == params.Keys
    ensures forall n :: n in names ==> n in params
    ensures map[] + Lookup(params, names) == params
  {
    assert forall n :: n in names <==> n in SetOf(names);
  }

  lemma {:induction false} DecodeParts(b: Bytes, params: map<Bytes, Bytes>, rest: Bytes, s: SessionState)
    requires |b| >= 9 && b[..9] == AUTHENTICATION_OK && DecodeStatuses(b[9..], map[]) == Some((params, rest))
    requires DecodeClosing(params, rest) == Some(s)
    ensures Decode(b) == Some(s)
  {
    hide DecodeStatuses, DecodeClosing;
  }

  /** Nothing decodes to a parameter that holds a NUL. */
  lemma {:induction false} DecodedParamsNulFree(b: Bytes)
    ensures Decode(b).Some? ==> AllNulFree(Decode(b).value.params)
  {
    if Decode(b).Some? {
      DecodedNulFree(b[9..], map[]);
    }
  }

  lemma {:induction false} ReplayLayout(s: SessionState, names: seq<Bytes>)
    requires SetOf(names) == s.params.Keys && (forall n :: n in names ==> n in s.params)
    ensures var b := Replay(s, names);
            && |b| >= 9 && b[..9] == AUTHENTICATION_OK
            && b[9..] == Statuses(s.params, names) + Closing(s.pid, s.secret, s.txStatus)
  {
    hide Closing, Statuses;
    ConcatAssoc(AUTHENTICATION_OK, Statuses(s.params, names), Closing(s.pid, s.secret, s.txStatus));
  }
}
