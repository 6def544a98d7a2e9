/**
  What rewriting a StartupMessage means: which messages it rejects, what the
  upstream reads afterwards, how large the output is, and what applying it
  again does.
 */
module StartupTheorems {
  import opened Octets
  import opened Wrappers
  import opened Startup
  import opened StartupReader

  // ------------------------------------------------------ the edited list

  /** Overwriting the value at one index changes the map exactly when no later pair has the same key. */
  lemma {:induction false} LastWinsUpdate(ps: seq<Pair>, i: nat, v: Bytes)
    requires i < |ps|
    ensures LastWins(ps[i := Pair(ps[i].key, v)]) ==
            if OccursAfter(ps, i) then LastWins(ps) else LastWins(ps)[ps[i].key := v]
  {
    var n := |ps| - 1;
    var qs := ps[i := Pair(ps[i].key, v)];
    if i == n {
      assert qs[..n] == ps[..n];
    } else {
      LastWinsUpdate(ps[..n], i, v);
      assert qs[..n] == ps[..n][i := Pair(ps[i].key, v)];
      OccursAfterInit(ps, i);
    }
  }

  /** A later pair carries the same key as pair i. */
  predicate OccursAfter(ps: seq<Pair>, i: nat)
    requires i < |ps|
  {
    exists j :: i < j < |ps| && ps[j].key == ps[i].key
  }

  lemma {:induction false} OccursAfterInit(ps: seq<Pair>, i: nat)
    requires i + 1 < |ps|
    ensures OccursAfter(ps, i) <==> OccursAfter(ps[..|ps| - 1], i) || ps[|ps| - 1].key == ps[i].key
  {
    var init := ps[..|ps| - 1];
    assert forall j :: 0 <= j < |init| ==> init[j] == ps[j];
    if ps[|ps| - 1].key == ps[i].key {
      assert OccursAfter(ps, i);
    } else if OccursAfter(init, i) {
      var j :| i < j < |init| && init[j].key == init[i].key;
      assert ps[j].key == ps[i].key;
    }
  }

  /** A key is in the map exactly when some pair carries it. */
  lemma {:induction false} LastWinsKeys(ps: seq<Pair>, k: Bytes)
    ensures k in LastWins(ps) <==> FirstKey(ps, k) >= 0
  {
    if ps == [] {
    } else {
      var n := |ps| - 1;
      LastWinsKeys(ps[..n], k);
      if FirstKey(ps, k) >= 0 && ps[n].key != k {
        assert ps[..n][FirstKey(ps, k)].key == k;
      } else if FirstKey(ps[..n], k) >= 0 {
        assert ps[FirstKey(ps[..n], k)].key == k;
      }
    }
  }

  /** The key occurs at least twice. */
  predicate Repeats(ps: seq<Pair>, k: Bytes) {
    var i := FirstKey(ps, k);
    i >= 0 && OccursAfter(ps, i)
  }

  /** A key that does not repeat has its first value in the map. */
  lemma {:induction false} SoleValue(ps: seq<Pair>, k: Bytes)
    requires FirstKey(ps, k) >= 0 && !Repeats(ps, k)
    ensures k in LastWins(ps) && LastWins(ps)[k] == ps[FirstKey(ps, k)].val
  {
    var i := FirstKey(ps, k);
    LastWinsUpdate(ps, i, ps[i].val);
    assert ps[i := Pair(ps[i].key, ps[i].val)] == ps;
  }

  /** A missing parameter reads as the empty string. */
  function Get(m: map<Bytes, Bytes>, k: Bytes): Bytes {
    if k in m then m[k] else []
  }

  /** What editing the list does to the map. */
  lemma {:induction false} EditMeaning(ps: seq<Pair>, id: Bytes, ts: bool)
    ensures LastWins(Edit(ps, id, ts)) ==
            if Repeats(ps, APP_NAME) then LastWins(ps)
            else LastWins(ps)[APP_NAME := FinalAppName(Get(LastWins(ps), APP_NAME), id, ts)]
  {
    var i := FirstKey(ps, APP_NAME);
    LastWinsKeys(ps, APP_NAME);
    if i < 0 {
      var p := Pair(APP_NAME, FinalAppName([], id, ts));
      assert (ps + [p])[..|ps|] == ps;
    } else {
      LastWinsUpdate(ps, i, FinalAppName(ps[i].val, id, ts));
      if !Repeats(ps, APP_NAME) {
        SoleValue(ps, APP_NAME);
      }
    }
  }

  // --------------------------------------------------- acceptance and shape

  /** A complete message that announces protocol 3. */
  predicate AnnouncesV3(raw: Bytes) {
    |raw| >= 8 && GetU32(raw, 4) == PROTO_V3
  }

  /** With an identity, both parsers reject exactly the same v3 messages. */
  lemma {:induction false} SameRejections(raw: Bytes, id: Bytes, ts: bool)
    requires AnnouncesV3(raw) && id != []
    ensures Rewrite(raw, id, ts).Ok? <==> Params(raw).Ok?
    ensures Rewrite(raw, id, ts).Ok? <==> ParseList(raw).Ok?
  {
  }

  /**
    Exactly which byte strings are refused: a header that is not the length, and
    for a peer with an identity a v3 message that does not parse. A message that
    announces any other protocol comes out byte for byte.
   */
  lemma {:induction false} RewriteAccepts(raw: Bytes, id: Bytes, ts: bool)
    ensures Rewrite(raw, id, ts).Err? <==>
            || |raw| < 8 || GetU32(raw, 0) != |raw|
            || (GetU32(raw, 4) == 196608 && id != [] && Params(raw).Err?)
    ensures |raw| >= 8 && GetU32(raw, 0) == |raw| && (GetU32(raw, 4) != 196608 || id == []) ==>
              Rewrite(raw, id, ts) == Ok(raw)
  {
    hide ParsePairs, Edit, Message, LastWins;
  }

  /** A CancelRequest for process 1 with key 2 passes unchanged, whoever sends it. */
  lemma {:induction false} CancelRequestPasses(raw: Bytes, id: Bytes, ts: bool)
    requires raw == [0, 0, 0, 16, 4, 210, 22, 46, 0, 0, 0, 1, 0, 0, 0, 2]
    ensures Rewrite(raw, id, ts) == Ok(raw)
  {
    assert GetU32(raw, 0) == 16 && GetU32(raw, 4) != 196608;
    RewriteAccepts(raw, id, ts);
  }

  /** The rewritten bytes of an accepted message. */
  lemma {:induction false} RewriteShape(raw: Bytes, id: Bytes, ts: bool)
    requires ParseList(raw).Ok? && id != []
    ensures Rewrite(raw, id, ts) ==
            var ps := ParseList(raw).value;
            var qs := Edit(ps, id, ts);
            Ok(if qs == ps then raw else Message(qs))
  {
  }

  lemma {:induction false} FinalAppNameNul(clientVal: Bytes, id: Bytes, ts: bool)
    requires NulFree(clientVal)
    ensures NulFree(id) ==> NulFree(FinalAppName(clientVal, id, ts))
    ensures FinalAppName(clientVal, id, ts) != clientVal && NulFree(FinalAppName(clientVal, id, ts)) ==> NulFree(id)
  {
    var v := FinalAppName(clientVal, id, ts);
    if v != clientVal && clientVal != [] && NulFree(v) {
      forall k | 0 <= k < |id|
        ensures id[k] != 0
      {
        assert v[|clientVal| + 2 + k] == id[k];
      }
    }
  }

  lemma {:induction false} EditWellFormed(ps: seq<Pair>, id: Bytes, ts: bool)
    requires WellFormed(ps) && NulFree(id)
    ensures WellFormed(Edit(ps, id, ts))
  {
    var i := FirstKey(ps, APP_NAME);
    var was := if i < 0 then [] else ps[i].val;
    assert i >= 0 ==> WellFormedPair(ps[i]);
    FinalAppNameNul(was, id, ts);
    assert WellFormedPair(Pair(APP_NAME, FinalAppName(was, id, ts)));
  }

  /**
    What the scan keeps and what the edit adds fit the 32-bit length: known before
    the rewrite, from the message and the identity.
   */
  predicate FitsHeader(raw: Bytes, id: Bytes, ts: bool) {
    AnnouncesV3(raw) && id != [] && ParseList(raw).Ok? ==>
      9 + ScanEnd(Body(raw)) + Growth(ParseList(raw).value, id, ts) < TWO32
  }

  /** The exact length of a new message, and hence when the output fits. */
  lemma {:induction false} RewriteLength(raw: Bytes, id: Bytes, ts: bool, out: Bytes)
    requires Rewrite(raw, id, ts) == Ok(out)
    ensures out != raw ==> ParseList(raw).Ok? && |out| == 9 + ScanEnd(Body(raw)) + Growth(ParseList(raw).value, id, ts)
    ensures |out| < TWO32 <==> FitsHeader(raw, id, ts)
  {
    if id != [] && ParseList(raw).Ok? {
      var ps := ParseList(raw).value;
      RewriteShape(raw, id, ts);
      PrintParse(Body(raw));
      EditSize(ps, id, ts);
      AcceptedIsV3(raw);
      hide Rewrite, ParseList, Message, ParsePairs, ScanEnd;
      if Edit(ps, id, ts) == ps {
        assert Growth(ps, id, ts) == 0;
      }
    } else {
      hide ParsePairs, Message, Edit, ScanEnd, Growth;
    }
  }

  /** Every message a session reads fits, for any identity short of 4 GiB. */
  lemma {:induction false} SessionMessagesFit(stream: Bytes, id: Bytes, ts: bool)
    requires FirstMessage(stream).Ok? && |id| < TWO32 - 65554
    ensures FitsHeader(FirstMessage(stream).value.0, id, ts)
  {
    var raw := FirstMessage(stream).value.0;
    hide FirstMessage;
    if ParseList(raw).Ok? {
      AcceptedIsV3(raw);
      hide ParseList, ScanEnd;
      assert 9 + ScanEnd(Body(raw)) <= |raw| <= 65536;
    }
  }

  /** For a NUL-free identity the output parses, to the edited list, if and only if it fits the header. */
  lemma {:induction false} RewriteParses(raw: Bytes, id: Bytes, ts: bool, ps: seq<Pair>, out: Bytes)
    requires ParseList(raw) == Ok(ps) && id != [] && NulFree(id)
    requires Rewrite(raw, id, ts) == Ok(out)
    ensures ParseList(out) == Ok(Edit(ps, id, ts)) <==> FitsHeader(raw, id, ts)
    ensures ParseList(out).Ok? <==> FitsHeader(raw, id, ts)
  {
    RewriteLength(raw, id, ts, out);
    hide FitsHeader, Rewrite;
    RewriteParsesBySize(raw, id, ts, ps, out);
  }

  lemma {:induction false} RewriteParsesBySize(raw: Bytes, id: Bytes, ts: bool, ps: seq<Pair>, out: Bytes)
    requires ParseList(raw) == Ok(ps) && id != [] && NulFree(id)
    requires Rewrite(raw, id, ts) == Ok(out)
    ensures |out| < TWO32 ==> ParseList(out) == Ok(Edit(ps, id, ts))
    ensures |out| >= TWO32 ==> ParseList(out).Err?
  {
    RewriteShape(raw, id, ts);
    ParsedWellFormed(Body(raw));
    EditWellFormed(ps, id, ts);
    MessageRoundTrip(Edit(ps, id, ts));
    AcceptedIsV3(raw);
  }

  /** Values the map parser returns never hold a NUL. */
  lemma {:induction false} LastWinsNulFree(ps: seq<Pair>, k: Bytes)
    requires WellFormed(ps) && k in LastWins(ps)
    ensures NulFree(LastWins(ps)[k])
  {
    var n := |ps| - 1;
    if ps[n].key != k {
      LastWinsNulFree(ps[..n], k);
    } else {
      assert WellFormedPair(ps[n]);
    }
  }

  /** The map the upstream is meant to read after the rewrite. */
  function IntendedParams(m: map<Bytes, Bytes>, id: Bytes, ts: bool): map<Bytes, Bytes> {
    m[APP_NAME := FinalAppName(Get(m, APP_NAME), id, ts)]
  }

  /** The client named itself and is not attributed by suffix, so its bytes are kept. */
  predicate KeepsName(m: map<Bytes, Bytes>, ts: bool) {
    Get(m, APP_NAME) != [] && !ts
  }

  lemma {:induction false} EditUnchanged(ps: seq<Pair>, id: Bytes, ts: bool)
    requires id != [] && !Repeats(ps, APP_NAME)
    ensures Edit(ps, id, ts) == ps <==> KeepsName(LastWins(ps), ts)
    ensures KeepsName(LastWins(ps), ts) ==> IntendedParams(LastWins(ps), id, ts) == LastWins(ps)
  {
    var i := FirstKey(ps, APP_NAME);
    LastWinsKeys(ps, APP_NAME);
    if i >= 0 {
      SoleValue(ps, APP_NAME);
      assert ps[i := Pair(APP_NAME, ps[i].val)] == ps;
    }
  }

  /**
    Rewriting preserves meaning. If application_name occurs at most once, the
    upstream reads the client's map with the attributed name if and only if the
    name is kept, or the identity is NUL-free and the new length fits its header.
   */
  lemma {:induction false} RewritePreservesMeaning(raw: Bytes, id: Bytes, ts: bool, ps: seq<Pair>, out: Bytes)
    requires ParseList(raw) == Ok(ps) && id != [] && !Repeats(ps, APP_NAME)
    requires Rewrite(raw, id, ts) == Ok(out)
    ensures Params(out) == Ok(IntendedParams(LastWins(ps), id, ts))
            <==> KeepsName(LastWins(ps), ts) || (NulFree(id) && FitsHeader(raw, id, ts))
  {
    RewriteShape(raw, id, ts);
    EditUnchanged(ps, id, ts);
    hide FitsHeader;
    if !KeepsName(LastWins(ps), ts) {
      if NulFree(id) {
        RewriteParses(raw, id, ts, ps, out);
        EditMeaning(ps, id, ts);
      } else {
        ParsedWellFormed(Body(raw));
        NulNameIsLost(LastWins(ps), out, id, ts) by {
          if APP_NAME in LastWins(ps) {
            LastWinsNulFree(ps, APP_NAME);
          }
        }
      }
    }
  }

  /** No message parses to an attributed name that holds a NUL. */
  lemma {:induction false} NulNameIsLost(m: map<Bytes, Bytes>, out: Bytes, id: Bytes, ts: bool)
    requires id != [] && !NulFree(id) && !KeepsName(m, ts) && NulFree(Get(m, APP_NAME))
    ensures Params(out) != Ok(IntendedParams(m, id, ts))
  {
    if Params(out) == Ok(IntendedParams(m, id, ts)) {
      ParsedWellFormed(Body(out));
      LastWinsNulFree(ParseList(out).value, APP_NAME);
      FinalAppNameNul(Get(m, APP_NAME), id, ts);
    }
  }

  /** If application_name repeats, the edit hits the first and the map keeps the last: nothing changes. */
  lemma {:induction false} RewriteOfRepeatedName(raw: Bytes, id: Bytes, ts: bool, ps: seq<Pair>, out: Bytes)
    requires ParseList(raw) == Ok(ps) && id != [] && NulFree(id) && Repeats(ps, APP_NAME)
    requires Rewrite(raw, id, ts) == Ok(out) && FitsHeader(raw, id, ts)
    ensures Params(out) == Ok(LastWins(ps))
  {
    hide FitsHeader;
    RewriteParses(raw, id, ts, ps, out);
    EditMeaning(ps, id, ts);
  }

  /** The names "a" and "b" in one message: the upstream goes on reading "b", not "b (x)". */
  lemma {:induction false} RepeatedNameLosesAttribution(raw: Bytes) returns (out: Bytes)
    requires raw == Message([Pair(APP_NAME, [97]), Pair(APP_NAME, [98])])
    ensures Rewrite(raw, [120], true) == Ok(out)
    ensures Params(raw) == Ok(map[APP_NAME := [98]]) && Params(out) == Ok(map[APP_NAME := [98]])
    ensures IntendedParams(map[APP_NAME := [98]], [120], true) == map[APP_NAME := [98, 32, 40, 120, 41]]
  {
    var ps := [Pair(APP_NAME, [97]), Pair(APP_NAME, [98])];
    TwoPairs(ps, raw);
    hide Message;
    SameRejections(raw, [120], true) by { AcceptedIsV3(raw); }
    out := Rewrite(raw, [120], true).value;
    assert Params(raw) == Ok(map[APP_NAME := [98]]);
    hide *;
    FitsSmall(raw, ps, [120], true);
    RewriteOfRepeatedName(raw, [120], true, ps, out);
    AttributedB();
  }

  lemma {:induction false} AttributedB()
    ensures IntendedParams(map[APP_NAME := [98]], [120], true) == map[APP_NAME := [98, 32, 40, 120, 41]]
  {
    assert FinalAppName([98], [120], true) == [98, 32, 40, 120, 41];
  }

  /** A message with the same name twice. */
  lemma {:induction false} TwoPairs(ps: seq<Pair>, raw: Bytes)
    requires |ps| == 2 && ps[0].key == ps[1].key == APP_NAME && |ps[0].val| == |ps[1].val| == 1
    requires NulFree(ps[0].val) && NulFree(ps[1].val) && raw == Message(ps)
    ensures ParseList(raw) == Ok(ps) && |raw| < 1000
    ensures LastWins(ps) == map[APP_NAME := ps[1].val] && Repeats(ps, APP_NAME)
  {
    hide *;
    TwoPairsLength(ps);
    TwoWellFormed(ps);
    MessageRoundTrip(ps);
    TwoPairsMean(ps);
  }

  lemma {:induction false} TwoPairsLength(ps: seq<Pair>)
    requires |ps| == 2
    ensures |Message(ps)| == 9 + |PrintPair(ps[0])| + |PrintPair(ps[1])|
    ensures |PrintPair(ps[0])| == |ps[0].key| + |ps[0].val| + 2 && |PrintPair(ps[1])| == |ps[1].key| + |ps[1].val| + 2
  {
    var p, q := ps[0], ps[1];
    assert ps == [p] + ([q] + []);
    PrintCons(p, [q] + []);
    PrintCons(q, []);
    hide Message;
  }

  lemma {:induction false} TwoWellFormed(ps: seq<Pair>)
    requires |ps| == 2 && ps[0].key == ps[1].key == APP_NAME && NulFree(ps[0].val) && NulFree(ps[1].val)
    ensures WellFormed(ps) && |APP_NAME| == 16 && TWO32 > 1000
  {
  }

  lemma {:induction false} TwoPairsMean(ps: seq<Pair>)
    requires |ps| == 2 && ps[0].key == ps[1].key == APP_NAME
    ensures LastWins(ps) == map[APP_NAME := ps[1].val] && Repeats(ps, APP_NAME)
  {
    hide APP_NAME;
    assert OccursAfter(ps, 0);
    assert ps[..1] == [ps[0]] && ps[..1][..0] == [];
    assert LastWins(ps[..1]) == map[APP_NAME := ps[0].val];
  }

  lemma {:induction false} FitsSmall(raw: Bytes, ps: seq<Pair>, id: Bytes, ts: bool)
    requires ParseList(raw) == Ok(ps) && |raw| < 1000 && |id| < 1000
    ensures FitsHeader(raw, id, ts)
  {
    AcceptedIsV3(raw);
    hide ParseList, ScanEnd;
    assert 9 + ScanEnd(Body(raw)) <= |raw|;
  }

  /** The tailnet login "a" and a NUL, for a client without a name: the upstream reads "a" only. */
  lemma {:induction false} NulIdentityIsCut(raw: Bytes) returns (out: Bytes)
    requires raw == Message([])
    ensures Rewrite(raw, [97, 0], true) == Ok(out)
    ensures Params(out) == Ok(map[APP_NAME := [97]])
    ensures IntendedParams(map[], [97, 0], true) == map[APP_NAME := [97, 0]]
  {
    var p := Pair(APP_NAME, [97]);
    out := Message([Pair(APP_NAME, [97, 0])]);
    assert WellFormedPair(p);
    assert [97] + [0] == [97, 0];
    NamesNameless(raw, [97, 0], true);
    CutAtNul(p, out);
    hide Message, ParseList, Rewrite;
    assert [p][..0] == [] && LastWins([]) == map[];
  }

  /** A client without parameters gets the identity as its name. */
  lemma {:induction false} NamesNameless(raw: Bytes, id: Bytes, ts: bool)
    requires raw == Message([]) && id != []
    ensures Rewrite(raw, id, ts) == Ok(Message([Pair(APP_NAME, id)]))
  {
    hide *;
    NamelessParses(raw);
    RewriteShape(raw, id, ts);
    EditNothing(id, ts);
  }

  lemma {:induction false} NamelessParses(raw: Bytes)
    requires raw == Message([])
    ensures ParseList(raw) == Ok([])
  {
    assert PrintPairs([]) == [];
    hide Message, PrintPairs, ParseList;
    MessageRoundTrip([]);
  }

  lemma {:induction false} EditNothing(id: Bytes, ts: bool)
    ensures Edit([], id, ts) == [Pair(APP_NAME, FinalAppName([], id, ts))]
    ensures id != [] ==> FinalAppName([], id, ts) == id
  {
    hide APP_NAME;
  }

  /** A value that ends in a NUL is read without it. */
  lemma {:induction false} CutAtNul(p: Pair, out: Bytes)
    requires WellFormedPair(p) && |p.key| + |p.val| < 1000 && out == Message([Pair(p.key, p.val + [0])])
    ensures ParseList(out) == Ok([p])
  {
    var q := Pair(p.key, p.val + [0]);
    assert PrintPairs([q]) == PrintPair(q) by {
      PrintCons(q, []);
      assert [q] + [] == [q] && PrintPair(q) + [] == PrintPair(q);
    }
    assert PrintPair(q) == PrintPair(p) + [0] && |PrintPair(q)| < 1010 by {
      ConcatAssoc(p.key + [0], p.val, [0]);
    }
    assert IsV3Message(out) && |out| < TWO32 && Body(out) == PrintPair(p) + [0];
    hide *;
    HeaderFits(out);
    OnePair(p);
  }

  lemma {:induction false} OnePair(p: Pair)
    requires WellFormedPair(p)
    ensures ParsePairs(PrintPair(p) + [0]) == Ok([p])
  {
    NextPrinted(p, [0]);
    hide PrintPair;
    assert ParsePairs([0]) == Ok([]) by { assert NextToken([0]) == Stop; }
    assert [p] + [] == [p];
  }

  /**
    Managed and passthrough sessions agree. A managed session logs in with
    FinalAppName of the parsed value; a passthrough one sends the rewritten
    message. The upstream reads the same name from both if and only if the key
    does not repeat, or its last value would be kept anyway.
   */
  lemma {:induction false} ManagedAgreesWithPassthrough(
      raw: Bytes, id: Bytes, ts: bool, ps: seq<Pair>, out: Bytes)
    requires ParseList(raw) == Ok(ps) && id != [] && NulFree(id)
    requires Rewrite(raw, id, ts) == Ok(out) && FitsHeader(raw, id, ts)
    ensures Params(out).Ok?
    ensures Get(Params(out).value, APP_NAME) == FinalAppName(Get(LastWins(ps), APP_NAME), id, ts)
            <==> !Repeats(ps, APP_NAME) || KeepsName(LastWins(ps), ts)
  {
    hide FitsHeader;
    RewriteParses(raw, id, ts, ps, out);
    EditMeaning(ps, id, ts);
  }

  // ------------------------------------------------------------------ size

  lemma {:induction false} PrintUpdate(ps: seq<Pair>, i: nat, q: Pair)
    requires i < |ps|
    ensures |PrintPairs(ps[i := q])| == |PrintPairs(ps)| - |PrintPair(ps[i])| + |PrintPair(q)|
  {
    if i == 0 {
      assert ps[0 := q][1..] == ps[1..];
    } else {
      PrintUpdate(ps[1..], i - 1, q);
      assert ps[i := q][1..] == ps[1..][i - 1 := q];
    }
  }

  /** How many bytes the edit adds to the printed list. */
  function Growth(ps: seq<Pair>, id: Bytes, ts: bool): nat {
    var i := FirstKey(ps, APP_NAME);
    if i < 0 then |id| + 18
    else if ps[i].val == [] then |id|
    else if ts then |id| + 3
    else 0
  }

  lemma {:induction false} EditSize(ps: seq<Pair>, id: Bytes, ts: bool)
    requires id != []
    ensures |PrintPairs(Edit(ps, id, ts))| == |PrintPairs(ps)| + Growth(ps, id, ts)
  {
    var i := FirstKey(ps, APP_NAME);
    if i < 0 {
      var p := Pair(APP_NAME, FinalAppName([], id, ts));
      PrintPairsConcat(ps, [p]);
      PrintCons(p, []);
      assert [p] + [] == [p];
    } else {
      PrintUpdate(ps, i, Pair(APP_NAME, FinalAppName(ps[i].val, id, ts)));
    }
  }

  /** Every successful rewrite stays within the reserved capacity: keep, replace or append, early terminator or not. */
  lemma {:induction false} RewriteSize(raw: Bytes, id: Bytes, ts: bool, out: Bytes)
    requires Rewrite(raw, id, ts) == Ok(out)
    ensures 8 <= |out| <= |raw| + |id| + 18
  {
    RewriteCases(raw, id, ts, out);
    hide *;
    if out != raw {
      MessageSize(raw, out, id, ts);
    }
  }

  /** The header of a rewritten message is its length if and only if what goes into it fits 32 bits. */
  lemma {:induction false} RewriteHeader(raw: Bytes, id: Bytes, ts: bool, out: Bytes)
    requires Rewrite(raw, id, ts) == Ok(out)
    ensures |out| >= 8 && (GetU32(out, 0) == |out| <==> FitsHeader(raw, id, ts))
  {
    RewriteCases(raw, id, ts, out);
    RewriteLength(raw, id, ts, out);
    assert TWO32 == 0x1_0000_0000;
    hide *;
    FitsU32(|out|);
  }

  lemma {:induction false} FitsU32(n: nat)
    ensures n % 0x1_0000_0000 == n <==> n < 0x1_0000_0000
  {
  }

  /** A successful rewrite keeps the bytes, whose header was checked, or prints the edited list. */
  lemma {:induction false} RewriteCases(raw: Bytes, id: Bytes, ts: bool, out: Bytes)
    requires Rewrite(raw, id, ts) == Ok(out)
    ensures |out| >= 8 && GetU32(out, 0) == |out| % 0x1_0000_0000
    ensures out != raw ==> ParseList(raw).Ok? && id != [] && IsV3Message(out)
    ensures out != raw ==> Body(out) == PrintPairs(Edit(ParseList(raw).value, id, ts))
  {
    hide Message, Edit, ParsePairs, PrintPairs;
  }

  lemma {:induction false} MessageSize(raw: Bytes, out: Bytes, id: Bytes, ts: bool)
    requires ParseList(raw).Ok? && id != []
    requires IsV3Message(out) && Body(out) == PrintPairs(Edit(ParseList(raw).value, id, ts))
    ensures |out| <= |raw| + |id| + 18
  {
    PrintParse(Body(raw));
    EditSize(ParseList(raw).value, id, ts);
  }

  // ------------------------------------------------------------ re-applying

  /** n applications of the rewrite, stopping at the first error. */
  function RewriteN(raw: Bytes, id: Bytes, ts: bool, n: nat): (r: Result<Bytes, StartupError>) {
    if n == 0 then Ok(raw)
    else
      match RewriteN(raw, id, ts, n - 1)
      case Ok(out) => Rewrite(out, id, ts)
      case Err(e) => Err(e)
  }

  /** For a peer that is not on the tailnet the rewrite is byte-for-byte idempotent, as long as it fits. */
  lemma {:induction false} RewriteIdempotent(raw: Bytes, id: Bytes, out: Bytes)
    requires NulFree(id) && Rewrite(raw, id, false) == Ok(out)
    ensures Rewrite(out, id, false) == Ok(out) <==> FitsHeader(raw, id, false)
  {
    RewriteLength(raw, id, false, out);
    hide FitsHeader;
    if |out| >= TWO32 {
    } else if out != raw {
      RewriteCases(raw, id, false, out);
      var ps := ParseList(raw).value;
      RewriteParsesBySize(raw, id, false, ps, out);
      EditIdempotent(ps, id);
      RewriteShape(out, id, false);
    }
  }

  lemma {:induction false} EditIdempotent(ps: seq<Pair>, id: Bytes)
    requires id != []
    ensures Edit(Edit(ps, id, false), id, false) == Edit(ps, id, false)
  {
    EditKeepsFirst(ps, id, false);
  }

  /** After an edit the first application_name sits at a fixed index and is not empty. */
  lemma {:induction false} EditKeepsFirst(ps: seq<Pair>, id: Bytes, ts: bool)
    requires id != []
    ensures var i, qs := FirstKey(ps, APP_NAME), Edit(ps, id, ts);
            var k := if i < 0 then |ps| else i;
            && FirstKey(qs, APP_NAME) == k && qs[k].val != []
            && qs[k].val == FinalAppName(if i < 0 then [] else ps[i].val, id, ts)
  {
    var i, qs := FirstKey(ps, APP_NAME), Edit(ps, id, ts);
    var k := if i < 0 then |ps| else i;
    assert qs[k].key == APP_NAME;
    assert forall j :: 0 <= j < k ==> qs[j] == ps[j];
  }

  /** k copies of " (id)" */
  function Suffixes(id: Bytes, k: nat): Bytes {
    if k == 0 then [] else Suffixes(id, k - 1) + Suffix(id)
  }

  /** The list after one rewrite with k suffixes more on its first application_name. */
  function Suffixed(qs: seq<Pair>, id: Bytes, k: nat): seq<Pair> {
    var i := FirstKey(qs, APP_NAME);
    if i < 0 then qs else qs[i := Pair(APP_NAME, qs[i].val + Suffixes(id, k))]
  }

  lemma {:induction false} EditSuffixed(qs: seq<Pair>, id: Bytes, k: nat)
    requires id != [] && FirstKey(qs, APP_NAME) >= 0 && qs[FirstKey(qs, APP_NAME)].val != []
    ensures Edit(Suffixed(qs, id, k), id, true) == Suffixed(qs, id, k + 1)
  {
    var i := FirstKey(qs, APP_NAME);
    var sk := Suffixed(qs, id, k);
    assert sk[i].key == APP_NAME;
    assert forall j :: 0 <= j < i ==> sk[j] == qs[j];
    ConcatAssoc(qs[i].val, Suffixes(id, k), Suffix(id));
  }

  /** The bytes of the first rewrite and of n suffixes more, known before it. */
  function SizeAfter(raw: Bytes, id: Bytes, ps: seq<Pair>, n: nat): nat
    requires |raw| >= 9
  {
    9 + ScanEnd(Body(raw)) + Growth(ps, id, true) + |Suffixes(id, n)|
  }

  /**
    For a tailnet peer, n further applications append exactly n copies of
    " (id)" to the first application_name and change nothing else, if and only if
    all of it fits the 32-bit length.
   */
  lemma {:induction false} RewriteAgainAppends(raw: Bytes, id: Bytes, n: nat, ps: seq<Pair>, once: Bytes)
    requires ParseList(raw) == Ok(ps) && id != [] && NulFree(id) && Rewrite(raw, id, true) == Ok(once)
    ensures var r := RewriteN(once, id, true, n);
            && (r.Ok? && Prints(r.value, Suffixed(Edit(ps, id, true), id, n)) <==> SizeAfter(raw, id, ps, n) < TWO32)
            && (SizeAfter(raw, id, ps, n) < TWO32 ==> |r.value| == SizeAfter(raw, id, ps, n))
  {
    var r := RewriteN(once, id, true, n);
    if SizeAfter(raw, id, ps, n) < TWO32 {
      AppendsIfFits(raw, id, n, ps, once);
    } else if r.Ok? && Prints(r.value, Suffixed(Edit(ps, id, true), id, n)) {
      PrintedSize(r.value, Suffixed(Edit(ps, id, true), id, n));
      SuffixedSize(raw, id, n, ps);
    }
  }

  lemma {:induction false} PrintedSize(out: Bytes, ps: seq<Pair>)
    requires Prints(out, ps)
    ensures |out| == 9 + |PrintPairs(ps)| && |out| < TWO32
  {
    AcceptedIsV3(out);
    hide ParseList, PrintPairs;
  }

  lemma {:induction false} SuffixedSize(raw: Bytes, id: Bytes, n: nat, ps: seq<Pair>)
    requires ParseList(raw) == Ok(ps) && id != []
    ensures 9 + |PrintPairs(Suffixed(Edit(ps, id, true), id, n))| == SizeAfter(raw, id, ps, n)
  {
    var qs := Edit(ps, id, true);
    PrintParse(Body(raw));
    EditSize(ps, id, true);
    EditKeepsFirst(ps, id, true);
    hide ParseList, ParsePairs, Edit, ScanEnd, Growth, FirstKey, Suffixes;
    var i := FirstKey(qs, APP_NAME);
    PrintUpdate(qs, i, Pair(APP_NAME, qs[i].val + Suffixes(id, n)));
  }

  lemma {:induction false} AppendsIfFits(raw: Bytes, id: Bytes, n: nat, ps: seq<Pair>, once: Bytes)
    requires ParseList(raw) == Ok(ps) && id != [] && NulFree(id) && Rewrite(raw, id, true) == Ok(once)
    requires SizeAfter(raw, id, ps, n) < TWO32
    ensures RewriteN(once, id, true, n).Ok? && |RewriteN(once, id, true, n).value| == SizeAfter(raw, id, ps, n)
    ensures Prints(RewriteN(once, id, true, n).value, Suffixed(Edit(ps, id, true), id, n))
  {
    TailnetLength(raw, id, ps, once);
    FirstTailnetRewrite(raw, id, ps, once);
    EditKeepsFirst(ps, id, true);
    hide Rewrite, Edit, ParseList, ScanEnd, Growth;
    AppendMany(once, Edit(ps, id, true), id, n);
  }

  lemma {:induction false} TailnetLength(raw: Bytes, id: Bytes, ps: seq<Pair>, once: Bytes)
    requires ParseList(raw) == Ok(ps) && id != [] && Rewrite(raw, id, true) == Ok(once)
    ensures |once| == 9 + ScanEnd(Body(raw)) + Growth(ps, id, true)
  {
    RewriteShape(raw, id, true);
    PrintParse(Body(raw));
    EditSize(ps, id, true);
    hide Rewrite, ParseList, ScanEnd;
  }

  lemma {:induction false} AppendMany(out: Bytes, qs: seq<Pair>, id: Bytes, n: nat)
    requires Prints(out, qs) && id != [] && NulFree(id)
    requires FirstKey(qs, APP_NAME) >= 0 && qs[FirstKey(qs, APP_NAME)].val != []
    requires |out| + |Suffixes(id, n)| < TWO32
    ensures RewriteN(out, id, true, n).Ok?
    ensures |RewriteN(out, id, true, n).value| == |out| + |Suffixes(id, n)|
    ensures Prints(RewriteN(out, id, true, n).value, Suffixed(qs, id, n))
  {
    hide Rewrite, Edit, ParseList, FirstKey, Prints;
    if n == 0 {
      SuffixedZero(qs, id);
    } else {
      AppendMany(out, qs, id, n - 1);
      AppendStep(RewriteN(out, id, true, n - 1).value, qs, id, n - 1);
    }
  }

  lemma {:induction false} AppendStep(prev: Bytes, qs: seq<Pair>, id: Bytes, k: nat)
    requires Prints(prev, Suffixed(qs, id, k)) && id != [] && NulFree(id)
    requires FirstKey(qs, APP_NAME) >= 0 && qs[FirstKey(qs, APP_NAME)].val != []
    requires |prev| + |id| + 3 < TWO32
    ensures Rewrite(prev, id, true).Ok? && |Rewrite(prev, id, true).value| == |prev| + |id| + 3
    ensures Prints(Rewrite(prev, id, true).value, Suffixed(qs, id, k + 1))
  {
    SuffixedFirst(qs, id, k);
    AppendOnce(prev, Suffixed(qs, id, k), id);
    EditSuffixed(qs, id, k);
  }

  /** A message that parses to this list and holds nothing else. */
  predicate Prints(out: Bytes, ps: seq<Pair>) {
    ParseList(out) == Ok(ps) && PrintPairs(ps) == Body(out)
  }

  lemma {:induction false} SuffixedZero(qs: seq<Pair>, id: Bytes)
    ensures Suffixed(qs, id, 0) == qs
  {
    var i := FirstKey(qs, APP_NAME);
    assert i >= 0 ==> qs[i].val + Suffixes(id, 0) == qs[i].val;
  }

  lemma {:induction false} SuffixedFirst(qs: seq<Pair>, id: Bytes, k: nat)
    requires FirstKey(qs, APP_NAME) >= 0 && qs[FirstKey(qs, APP_NAME)].val != []
    ensures var i, sk := FirstKey(qs, APP_NAME), Suffixed(qs, id, k);
            FirstKey(sk, APP_NAME) == i && sk[i].val == qs[i].val + Suffixes(id, k) != []
  {
    var i, sk := FirstKey(qs, APP_NAME), Suffixed(qs, id, k);
    assert sk[i].key == APP_NAME;
    assert forall j :: 0 <= j < i ==> sk[j] == qs[j];
  }

  /** The first rewrite for a tailnet peer always prints a new message. */
  lemma {:induction false} FirstTailnetRewrite(raw: Bytes, id: Bytes, ps: seq<Pair>, out: Bytes)
    requires ParseList(raw) == Ok(ps) && id != [] && NulFree(id)
    requires Rewrite(raw, id, true) == Ok(out) && |out| < TWO32
    ensures Prints(out, Edit(ps, id, true))
  {
    RewriteShape(raw, id, true);
    RewriteParsesBySize(raw, id, true, ps, out);
    EditSize(ps, id, true);
  }

  lemma {:induction false} AppendOnce(out: Bytes, ps: seq<Pair>, id: Bytes)
    requires Prints(out, ps) && id != [] && NulFree(id)
    requires FirstKey(ps, APP_NAME) >= 0 && ps[FirstKey(ps, APP_NAME)].val != []
    requires |out| + |id| + 3 < TWO32
    ensures Rewrite(out, id, true).Ok?
    ensures var again := Rewrite(out, id, true).value;
            && |again| == |out| + |id| + 3
            && Prints(again, Edit(ps, id, true))
  {
    FirstTailnetRewriteSize(out, ps, id);
    FirstTailnetRewrite(out, id, ps, Rewrite(out, id, true).value);
  }

  lemma {:induction false} FirstTailnetRewriteSize(out: Bytes, ps: seq<Pair>, id: Bytes)
    requires Prints(out, ps) && id != []
    requires FirstKey(ps, APP_NAME) >= 0 && ps[FirstKey(ps, APP_NAME)].val != []
    ensures Rewrite(out, id, true).Ok?
    ensures |Rewrite(out, id, true).value| == |out| + |id| + 3
  {
    RewriteShape(out, id, true);
    EditSize(ps, id, true);
  }
}
