/**
  The PostgreSQL StartupMessage: the grammar of its parameter list, the two
  parsers of the gateway (`rewriteStartup` builds a list, `parseStartupParams`
  a map) and the rewriting of `application_name`.

  Layout (PostgreSQL 16 documentation, section 55.7): Int32 length including
  itself, Int32 196608, then NUL-terminated key and value strings, then a NUL.
 */
module Startup {
  import opened Octets
  import opened Wrappers

  datatype Pair = Pair(key: Bytes, val: Bytes)

  datatype StartupError =
    | TooShort
    | LengthMismatch
    | NotV3
    | NotTerminated
    | MalformedKey
    | MalformedValue(key: Bytes)

  const PROTO_V3: nat := 0x0003_0000

  /** "application_name" */
  const APP_NAME: Bytes := [97, 112, 112, 108, 105, 99, 97, 116, 105, 111, 110, 95, 110, 97, 109, 101]

  // ---------------------------------------------------------------- grammar

  /** What one turn of either parse loop finds at the front of the body. */
  datatype Token =
    | Stop
    | Bad(error: StartupError)
    | Next(pair: Pair, tail: Bytes)

  function NextToken(body: Bytes): (t: Token)
    ensures t.Stop? ==> body == [] || body[0] == 0
    ensures t.Next? ==> WellFormedPair(t.pair) && body == PrintPair(t.pair) + t.tail && |t.tail| < |body|
  {
    if body == [] then Stop
    else
      var i := IndexNul(body);
      if i < 0 then Bad(MalformedKey)
      else if i == 0 then Stop
      else
        var rest := body[i + 1..];
        var j := IndexNul(rest);
        if j < 0 then Bad(MalformedValue(body[..i]))
        else
          assert body == body[..i] + [0] + rest && rest == rest[..j] + [0] + rest[j + 1..];
          Next(Pair(body[..i], rest[..j]), rest[j + 1..])
  }

  /** The parameter list in a message body (the bytes between the protocol and the last NUL). */
  function ParsePairs(body: Bytes): (r: Result<seq<Pair>, StartupError>)
    decreases |body|
  {
    match NextToken(body)
    case Stop => Ok([])
    case Bad(e) => Err(e)
    case Next(p, tail) => Prepend(p, ParsePairs(tail))
  }

  function Prepend(p: Pair, r: Result<seq<Pair>, StartupError>): Result<seq<Pair>, StartupError> {
    if r.Ok? then Ok([p] + r.value) else r
  }

  function PrintPair(p: Pair): Bytes {
    p.key + [0] + p.val + [0]
  }

  function PrintPairs(ps: seq<Pair>): Bytes {
    if ps == [] then [] else PrintPair(ps[0]) + PrintPairs(ps[1..])
  }

  predicate WellFormedPair(p: Pair) {
    p.key != [] && NulFree(p.key) && NulFree(p.val)
  }

  predicate WellFormed(ps: seq<Pair>) {
    forall i :: 0 <= i < |ps| ==> WellFormedPair(ps[i])
  }

  /** Where the scan of a body stops: at the first empty key, or at the end. */
  function ScanEnd(body: Bytes): (n: nat)
    ensures n <= |body|
    decreases |body|
  {
    match NextToken(body)
    case Next(p, tail) => |PrintPair(p)| + ScanEnd(tail)
    case _ => 0
  }

  /** One printed pair is read back as that pair. */
  lemma {:induction false} NextPrinted(p: Pair, tail: Bytes)
    requires WellFormedPair(p)
    ensures NextToken(PrintPair(p) + tail) == Next(p, tail)
  {
    var body := PrintPair(p) + tail;
    var rest := p.val + [0] + tail;
    assert body == p.key + [0] + rest;
    IndexNulAfter(p.key, rest);
    IndexNulAfter(p.val, tail);
    assert body[..|p.key|] == p.key && body[|p.key| + 1..] == rest;
    assert rest[..|p.val|] == p.val && rest[|p.val| + 1..] == tail;
  }

  /** Parse after print is the identity on well-formed lists. */
  lemma {:induction false} ParsePrint(ps: seq<Pair>)
    requires WellFormed(ps)
    ensures ParsePairs(PrintPairs(ps)) == Ok(ps)
  {
    hide *;
    if ps == [] {
      ParseNothing();
    } else {
      var p, rest := ps[0], ps[1..];
      assert [p] + rest == ps;
      WellFormedTail(ps);
      ParsePrint(rest);
      PrintCons(p, rest);
      NextPrinted(p, PrintPairs(rest));
      ParseNext(PrintPairs(ps), p, PrintPairs(rest), rest);
    }
  }

  lemma {:induction false} ParseNothing()
    ensures ParsePairs(PrintPairs([])) == Ok([])
  {
  }

  lemma {:induction false} WellFormedTail(ps: seq<Pair>)
    requires WellFormed(ps) && ps != []
    ensures WellFormedPair(ps[0]) && WellFormed(ps[1..])
  {
  }

  lemma {:induction false} ParseNext(body: Bytes, p: Pair, tail: Bytes, rest: seq<Pair>)
    requires NextToken(body) == Next(p, tail) && ParsePairs(tail) == Ok(rest)
    ensures ParsePairs(body) == Ok([p] + rest)
  {
    hide NextToken;
  }

  lemma {:induction false} ParsedWellFormed(body: Bytes)
    requires ParsePairs(body).Ok?
    ensures WellFormed(ParsePairs(body).value)
    decreases |body|
  {
    match NextToken(body)
    case Next(_, tail) => ParsedWellFormed(tail);
    case _ =>
  }

  /** The scan stops only at the end of the body or on a NUL in key position. */
  lemma {:induction false} ScanStops(body: Bytes)
    requires ParsePairs(body).Ok?
    ensures ScanEnd(body) < |body| ==> body[ScanEnd(body)] == 0
    decreases |body|
  {
    match NextToken(body)
    case Next(p, tail) =>
      ScanStops(tail);
      assert body == PrintPair(p) + tail;
      hide NextToken, PrintPair;
    case _ =>
  }

  /** Print after parse restores the scanned bytes; only what follows an early terminator is dropped. */
  lemma {:induction false} PrintParse(body: Bytes)
    requires ParsePairs(body).Ok?
    ensures PrintPairs(ParsePairs(body).value) == body[..ScanEnd(body)]
    decreases |body|
  {
    match NextToken(body)
    case Next(p, tail) =>
      PrintParse(tail);
      PrintCons(p, ParsePairs(tail).value);
      TakeConcat(PrintPair(p), tail, ScanEnd(tail));
    case _ =>
  }

  lemma {:induction false} PrintCons(p: Pair, ps: seq<Pair>)
    ensures PrintPairs([p] + ps) == PrintPair(p) + PrintPairs(ps)
  {
    assert ([p] + ps)[1..] == ps;
  }

  lemma {:induction false} PrintPairsConcat(ps: seq<Pair>, qs: seq<Pair>)
    ensures PrintPairs(ps + qs) == PrintPairs(ps) + PrintPairs(qs)
  {
    if ps == [] {
      assert ps + qs == qs;
    } else {
      PrintPairsConcat(ps[1..], qs);
      assert (ps + qs)[1..] == ps[1..] + qs;
      ConcatAssoc(PrintPair(ps[0]), PrintPairs(ps[1..]), PrintPairs(qs));
    }
  }

  // ------------------------------------------------------- the whole message

  /** The bytes the rewriter emits for a list; PutUint32 truncates the length to 32 bits. */
  function Message(ps: seq<Pair>): (m: Bytes)
    ensures |m| == 9 + |PrintPairs(ps)|
    ensures IsV3Message(m) && Body(m) == PrintPairs(ps)
  {
    var n := 9 + |PrintPairs(ps)|;
    var m := PutU32(n) + PutU32(PROTO_V3) + PrintPairs(ps) + [0];
    assert GetU32(m, 0) == GetU32(PutU32(n), 0);
    assert GetU32(m, 4) == GetU32(PutU32(PROTO_V3), 0);
    m
  }

  /** A terminated v3 message whose header is its own length, cut to 32 bits. */
  predicate IsV3Message(m: Bytes) {
    |m| >= 9 && GetU32(m, 0) == |m| % 0x1_0000_0000 && GetU32(m, 4) == PROTO_V3 && m[|m| - 1] == 0
  }

  function Body(raw: Bytes): Bytes
    requires |raw| >= 9
  {
    raw[8..|raw| - 1]
  }

  /** The ordered list of a complete v3 message: what both parsers read. */
  function ParseList(raw: Bytes): (r: Result<seq<Pair>, StartupError>) {
    if |raw| < 9 then Err(TooShort)
    else if GetU32(raw, 0) != |raw| then Err(LengthMismatch)
    else if GetU32(raw, 4) != PROTO_V3 then Err(NotV3)
    else if raw[|raw| - 1] != 0 then Err(NotTerminated)
    else ParsePairs(Body(raw))
  }

  /** A map in which a later duplicate overwrites an earlier one. */
  function LastWins(ps: seq<Pair>): map<Bytes, Bytes> {
    if ps == [] then map[]
    else LastWins(ps[..|ps| - 1])[ps[|ps| - 1].key := ps[|ps| - 1].val]
  }

  /** What `parseStartupParams` returns, with its errors. */
  function Params(raw: Bytes): (r: Result<map<Bytes, Bytes>, StartupError>) {
    match ParseList(raw)
    case Ok(ps) => Ok(LastWins(ps))
    case Err(e) => Err(e)
  }

  /** A printed list parses back if and only if its length fits the header. */
  lemma {:induction false} MessageRoundTrip(ps: seq<Pair>)
    requires WellFormed(ps)
    ensures ParseList(Message(ps)) == Ok(ps) <==> |Message(ps)| < TWO32
    ensures ParseList(Message(ps)).Ok? <==> |Message(ps)| < TWO32
  {
    ParsePrint(ps);
    HeaderFits(Message(ps));
  }

  lemma {:induction false} HeaderFits(m: Bytes)
    requires IsV3Message(m)
    ensures |m| < TWO32 ==> ParseList(m) == ParsePairs(Body(m))
    ensures |m| >= TWO32 ==> ParseList(m) == Err(LengthMismatch)
  {
  }

  /** Reprinting an accepted message gives it back unless a terminator came early. */
  lemma {:induction false} ReprintAccepted(raw: Bytes)
    requires ParseList(raw).Ok?
    ensures var m := Message(ParseList(raw).value);
            && |m| == 9 + ScanEnd(Body(raw)) <= |raw|
            && Body(m) == Body(raw)[..ScanEnd(Body(raw))]
            && (m == raw <==> ScanEnd(Body(raw)) == |Body(raw)|)
  {
    ReprintBytes(Message(ParseList(raw).value), raw);
  }

  lemma {:induction false} ReprintBytes(m: Bytes, raw: Bytes)
    requires ParseList(raw).Ok?
    requires IsV3Message(m) && Body(m) == PrintPairs(ParseList(raw).value)
    ensures |m| == 9 + ScanEnd(Body(raw)) <= |raw|
    ensures Body(m) == Body(raw)[..ScanEnd(Body(raw))]
    ensures m == raw <==> ScanEnd(Body(raw)) == |Body(raw)|
  {
    assert Body(m) == Body(raw)[..ScanEnd(Body(raw))] by { PrintParse(Body(raw)); }
    AcceptedIsV3(raw);
    if ScanEnd(Body(raw)) == |Body(raw)| {
      SameMessage(m, raw);
    }
  }

  lemma {:induction false} AcceptedIsV3(raw: Bytes)
    requires ParseList(raw).Ok?
    ensures IsV3Message(raw) && |raw| < TWO32
  {
  }

  lemma {:induction false} SameMessage(a: Bytes, b: Bytes)
    requires IsV3Message(a) && IsV3Message(b) && Body(a) == Body(b)
    ensures a == b
  {
    SameHeader(a, b);
    assert a == a[..8] + Body(a) + [0];
    assert b == b[..8] + Body(b) + [0];
  }

  /** Equal header numbers are equal header bytes. */
  lemma {:induction false} SameHeader(a: Bytes, b: Bytes)
    requires |a| >= 8 && |b| >= 8
    requires GetU32(a, 0) == GetU32(b, 0) && GetU32(a, 4) == GetU32(b, 4)
    ensures a[..8] == b[..8]
  {
    SameU32(a, b, 0);
    SameU32(a, b, 4);
  }

  lemma {:induction false} SameU32(a: Bytes, b: Bytes, off: nat)
    requires off + 4 <= |a| && off + 4 <= |b| && GetU32(a, off) == GetU32(b, off)
    ensures a[off] == b[off] && a[off + 1] == b[off + 1] && a[off + 2] == b[off + 2] && a[off + 3] == b[off + 3]
  {
    assert GetU16(a, off) == GetU16(b, off) && GetU16(a, off + 2) == GetU16(b, off + 2);
  }

  // -------------------------------------------------------------- rewriting

  /** The application_name that goes upstream for a client value and a peer identity. */
  function FinalAppName(clientVal: Bytes, identity: Bytes, fromTS: bool): Bytes {
    if identity == [] then clientVal
    else if clientVal == [] then identity
    else if fromTS then clientVal + Suffix(identity)
    else clientVal
  }

  /** " (identity)" */
  function Suffix(identity: Bytes): Bytes {
    [32, 40] + identity + [41]
  }

  /** Index of the first pair with this key, or -1. */
  function FirstKey(ps: seq<Pair>, k: Bytes): (i: int)
    ensures -1 <= i < |ps|
    ensures i >= 0 ==> ps[i].key == k
    ensures forall j :: 0 <= j < (if i < 0 then |ps| else i) ==> ps[j].key != k
  {
    if ps == [] then -1
    else if ps[0].key == k then 0
    else var j := FirstKey(ps[1..], k); if j < 0 then -1 else j + 1
  }

  function Edit(ps: seq<Pair>, identity: Bytes, fromTS: bool): seq<Pair> {
    var i := FirstKey(ps, APP_NAME);
    if i < 0 then ps + [Pair(APP_NAME, FinalAppName([], identity, fromTS))]
    else ps[i := Pair(APP_NAME, FinalAppName(ps[i].val, identity, fromTS))]
  }

  /** What `rewriteStartup` returns: an unchanged list keeps the client's own bytes. */
  function Rewrite(raw: Bytes, identity: Bytes, fromTS: bool): (r: Result<Bytes, StartupError>) {
    if |raw| < 8 then Err(TooShort)
    else if GetU32(raw, 0) != |raw| then Err(LengthMismatch)
    else if GetU32(raw, 4) != PROTO_V3 then Ok(raw)
    else if identity == [] then Ok(raw)
    else if |raw| < 9 || raw[|raw| - 1] != 0 then Err(NotTerminated)
    else
      match ParsePairs(Body(raw))
      case Err(e) => Err(e)
      case Ok(ps) =>
        var qs := Edit(ps, identity, fromTS);
        if qs == ps then Ok(raw) else Ok(Message(qs))
  }

  /** `rewriteStartup`; its three loops are ParseBody, FirstAppName and PrintMessage below. */
  method RewriteStartup(raw: Bytes, identity: Bytes, fromTS: bool) returns (r: Result<Bytes, StartupError>)
    ensures r == Rewrite(raw, identity, fromTS)
  {
    if |raw| < 8 {
      return Err(TooShort);
    }
    var length := GetU32(raw, 0);
    if length != |raw| {
      return Err(LengthMismatch);
    }
    if GetU32(raw, 4) != PROTO_V3 {
      return Ok(raw);
    }
    if identity == [] {
      return Ok(raw);
    }
    if length < 9 || raw[length - 1] != 0 {
      return Err(NotTerminated);
    }
    var parsed := ParseBody(raw[8..length - 1]);
    if parsed.Err? {
      return Err(parsed.error);
    }
    var pairs := parsed.value;
    var idx := FirstAppName(pairs);
    var existing := if idx >= 0 then pairs[idx].val else [];
    var newVal := FinalAppName(existing, identity, fromTS);
    if idx >= 0 && newVal == existing {
      assert Edit(pairs, identity, fromTS) == pairs;
      return Ok(raw);
    } else if idx >= 0 {
      pairs := pairs[idx := Pair(pairs[idx].key, newVal)];
      assert pairs[idx].val != parsed.value[idx].val;
    } else {
      pairs := pairs + [Pair(APP_NAME, newVal)];
    }
    assert pairs == Edit(parsed.value, identity, fromTS) != parsed.value;
    var out := PrintMessage(pairs);
    r := Ok(out);
  }

  /** The loop of `rewriteStartup` that consumes the body and grows the list. */
  method ParseBody(input: Bytes) returns (r: Result<seq<Pair>, StartupError>)
    ensures r == ParsePairs(input)
  {
    var body := input;
    var pairs: seq<Pair> := [];
    PrependNone(ParsePairs(body));
    while |body| > 0
      invariant ParsePairs(input) == PrependAll(pairs, ParsePairs(body))
      decreases |body|
    {
      ghost var token := NextToken(body);
      var i := IndexNul(body);
      if i < 0 {
        return Err(MalformedKey);
      }
      var key := body[..i];
      var rest := body[i + 1..];
      if key == [] {
        body := [];
        break;
      }
      var j := IndexNul(rest);
      if j < 0 {
        return Err(MalformedValue(key));
      }
      PrependAllSnoc(pairs, Pair(key, rest[..j]), ParsePairs(rest[j + 1..]));
      pairs := pairs + [Pair(key, rest[..j])];
      body := rest[j + 1..];
    }
    assert pairs + [] == pairs;
    r := Ok(pairs);
  }

  function PrependAll(ps: seq<Pair>, r: Result<seq<Pair>, StartupError>): Result<seq<Pair>, StartupError> {
    if r.Ok? then Ok(ps + r.value) else r
  }

  lemma {:induction false} PrependNone(r: Result<seq<Pair>, StartupError>)
    ensures PrependAll([], r) == r
  {
    if r.Ok? {
      assert [] + r.value == r.value;
    }
  }

  lemma {:induction false} PrependAllSnoc(ps: seq<Pair>, p: Pair, r: Result<seq<Pair>, StartupError>)
    ensures PrependAll(ps, Prepend(p, r)) == PrependAll(ps + [p], r)
  {
    if r.Ok? {
      assert ps + ([p] + r.value) == ps + [p] + r.value;
    }
  }

  /** The search loop for application_name. */
  method FirstAppName(ps: seq<Pair>) returns (idx: int)
    ensures idx == FirstKey(ps, APP_NAME)
  {
    idx := -1;
    var i := 0;
    while i < |ps|
      invariant 0 <= i <= |ps|
      invariant forall j :: 0 <= j < i ==> ps[j].key != APP_NAME
    {
      if ps[i].key == APP_NAME {
        idx := i;
        return;
      }
      i := i + 1;
    }
  }

  /** The output buffer: four placeholder bytes, the protocol, the pairs, a NUL, then the length patched in. */
  method PrintMessage(ps: seq<Pair>) returns (b: Bytes)
    ensures b == Message(ps)
  {
    var out: Bytes := [0, 0, 0, 0] + PutU32(PROTO_V3);
    ghost var head := out;
    var i := 0;
    while i < |ps|
      invariant 0 <= i <= |ps|
      invariant out == head + PrintPairs(ps[..i])
    {
      PrintSnoc(ps, i);
      ConcatAssoc(head, PrintPairs(ps[..i]), PrintPair(ps[i]));
      out := out + PrintPair(ps[i]);
      i := i + 1;
    }
    assert ps[..|ps|] == ps;
    out := out + [0];
    b := PutU32(|out|) + out[4..];
    assert out[4..] == PutU32(PROTO_V3) + PrintPairs(ps) + [0];
    assert b == PutU32(|out|) + PutU32(PROTO_V3) + PrintPairs(ps) + [0];
  }

  lemma {:induction false} PrintSnoc(ps: seq<Pair>, i: nat)
    requires i < |ps|
    ensures PrintPairs(ps[..i + 1]) == PrintPairs(ps[..i]) + PrintPair(ps[i])
  {
    PrintPairsConcat(ps[..i], [ps[i]]);
    assert ps[..i + 1] == ps[..i] + [ps[i]];
    PrintCons(ps[i], []);
    assert [ps[i]] + [] == [ps[i]];
  }

  /** `parseStartupParams`: the same scan, filling a map instead of a list. */
  method ParseStartupParams(raw: Bytes) returns (r: Result<map<Bytes, Bytes>, StartupError>)
    ensures r == Params(raw)
  {
    if |raw| < 9 {
      return Err(TooShort);
    }
    var length := GetU32(raw, 0);
    if length != |raw| {
      return Err(LengthMismatch);
    }
    if GetU32(raw, 4) != PROTO_V3 {
      return Err(NotV3);
    }
    if raw[length - 1] != 0 {
      return Err(NotTerminated);
    }
    r := FillParams(raw[8..length - 1]);
  }

  /** The loop of `parseStartupParams` that fills the map. */
  method FillParams(input: Bytes) returns (r: Result<map<Bytes, Bytes>, StartupError>)
    ensures r == match ParsePairs(input) case Ok(ps) => Ok(LastWins(ps)) case Err(e) => Err(e)
  {
    var params: map<Bytes, Bytes> := map[];
    ghost var pairs: seq<Pair> := [];
    var body := input;
    PrependNone(ParsePairs(body));
    while |body| > 0
      invariant ParsePairs(input) == PrependAll(pairs, ParsePairs(body))
      invariant params == LastWins(pairs)
      decreases |body|
    {
      ghost var token := NextToken(body);
      var i := IndexNul(body);
      if i < 0 {
        return Err(MalformedKey);
      }
      var key := body[..i];
      var rest := body[i + 1..];
      if key == [] {
        body := [];
        break;
      }
      var j := IndexNul(rest);
      if j < 0 {
        return Err(MalformedValue(key));
      }
      ghost var p := Pair(key, rest[..j]);
      PrependAllSnoc(pairs, p, ParsePairs(rest[j + 1..]));
      LastWinsSnoc(pairs, p);
      params := params[key := rest[..j]];
      pairs := pairs + [p];
      body := rest[j + 1..];
    }
    assert pairs + [] == pairs;
    r := Ok(params);
  }

  lemma {:induction false} LastWinsSnoc(ps: seq<Pair>, p: Pair)
    ensures LastWins(ps + [p]) == LastWins(ps)[p.key := p.val]
  {
    assert (ps + [p])[..|ps|] == ps;
  }
}
