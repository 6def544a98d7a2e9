/** The responses the gateway builds itself (`dnsAnswerMulti`), checked against the RFC 1035 decoder. */
module DnsAnswer {
  import opened Octets
  import opened Wrappers
  import opened DnsQuestion
  import opened DnsDecoder

  /** A netip.Addr by its AsSlice bytes: 4 for IPv4, 16 for IPv6. */
  datatype Addr = Addr(octets: Bytes)

  predicate IsAddr(a: Addr) {
    |a.octets| == 4 || |a.octets| == 16
  }

  predicate AreAddrs(addrs: seq<Addr>) {
    forall i :: 0 <= i < |addrs| ==> IsAddr(addrs[i])
  }

  /** One answer record: a pointer to offset 12, type, class IN, TTL 30, the address. */
  function RecordBytes(qtype: nat, a: Addr): (b: Bytes)
    ensures |b| == 12 + |a.octets|
  {
    [0xC0, 0x0C] + PutU16(qtype) + PutU16(1) + PutU32(30) + PutU16(|a.octets|) + a.octets
  }

  function RecordsBytes(qtype: nat, addrs: seq<Addr>): Bytes {
    if addrs == [] then [] else RecordBytes(qtype, addrs[0]) + RecordsBytes(qtype, addrs[1..])
  }

  /** ID and RD kept, QR and RA set, one question, n answers cut to 16 bits. */
  function AnswerHeader(query: Bytes, n: nat): (h: Bytes)
    requires |query| >= 12
    ensures |h| == 12
  {
    query[..2] + [0x80 + query[2] % 2, 0x80] + PutU16(1) + PutU16(n) + PutU16(0) + PutU16(0)
  }

  /** What `dnsAnswerMulti` returns; None is nil. */
  function BuildAnswer(query: Bytes, qtype: nat, addrs: seq<Addr>, qend: int): (r: Option<Bytes>) {
    if qend < 12 || qend > |query| || addrs == [] then None
    else Some(AnswerHeader(query, |addrs|) + query[12..qend] + RecordsBytes(qtype, addrs))
  }

  /** Copy the question, patch the header in place, append a record per address. */
  method DnsAnswerMulti(query: Bytes, qtype: nat, addrs: seq<Addr>, qend: int) returns (r: Option<Bytes>)
    ensures r == BuildAnswer(query, qtype, addrs, qend)
  {
    if qend < 12 || qend > |query| || |addrs| == 0 {
      return None;
    }
    var resp := query[..qend];
    resp := resp[2 := 0x80 + query[2] % 2];
    resp := resp[3 := 0x80];
    resp := PatchU16(resp, 4, 1);
    resp := PatchU16(resp, 6, |addrs|);
    resp := PatchU16(resp, 8, 0);
    resp := PatchU16(resp, 10, 0);
    assert resp == AnswerHeader(query, |addrs|) + query[12..qend];
    ghost var head := resp;
    var i := 0;
    while i < |addrs|
      invariant 0 <= i <= |addrs|
      invariant resp + RecordsBytes(qtype, addrs[i..]) == head + RecordsBytes(qtype, addrs)
    {
      assert addrs[i..][1..] == addrs[i + 1..];
      ConcatAssoc(resp, RecordBytes(qtype, addrs[i]), RecordsBytes(qtype, addrs[i + 1..]));
      resp := resp + RecordBytes(qtype, addrs[i]);
      i := i + 1;
    }
    assert resp == head + RecordsBytes(qtype, addrs);
    r := Some(resp);
  }

  /** binary.BigEndian.PutUint16(b[off:off+2], uint16(n)) */
  function PatchU16(b: Bytes, off: nat, n: nat): (r: Bytes)
    requires off + 2 <= |b|
    ensures |r| == |b|
  {
    b[off := PutU16(n)[0]][off + 1 := PutU16(n)[1]]
  }

  // --------------------------------------------------------------- decoding

  /** Uncompressed labels are a name to the decoder too. */
  lemma {:induction false} LabelsDecode(msg: Bytes, off: nat, limit: nat, ls: seq<Bytes>, end: nat)
    requires ReadLabels(msg, off) == Some((ls, end))
    ensures DecodeName(msg, off, limit) == Some((ls, end))
    decreases |msg| - off
  {
    var n := msg[off];
    if n != 0 {
      LabelsDecode(msg, off + 1 + n, limit, ReadLabels(msg, off + 1 + n).value.0, end);
    }
  }

  /** The record an address is to appear as. */
  function AnswerFor(owner: seq<Bytes>, qtype: nat, a: Addr): Record {
    Record(owner, qtype, 1, 30, a.octets)
  }

  function AnswersFor(owner: seq<Bytes>, qtype: nat, addrs: seq<Addr>): (rs: seq<Record>)
    ensures |rs| == |addrs|
  {
    if addrs == [] then [] else [AnswerFor(owner, qtype, addrs[0])] + AnswersFor(owner, qtype, addrs[1..])
  }

  /** Offsets inside one record. */
  lemma {:induction false} RecordLayout(msg: Bytes, off: nat, qtype: nat, a: Addr)
    requires IsAddr(a) && qtype < 0x1_0000 && off + 12 + |a.octets| <= |msg| &&
             msg[off..off + 12 + |a.octets|] == RecordBytes(qtype, a)
    ensures msg[off] == 0xC0 && msg[off + 1] == 0x0C
    ensures GetU16(msg, off + 2) == qtype && GetU16(msg, off + 4) == 1 && GetU32(msg, off + 6) == 30
    ensures GetU16(msg, off + 10) == |a.octets| && msg[off + 12..off + 12 + |a.octets|] == a.octets
  {
    var e := RecordBytes(qtype, a);
    assert e[0] == 0xC0 && e[1] == 0x0C;
    assert e[2..4] == PutU16(qtype) && e[4..6] == PutU16(1) && e[6..10] == PutU32(30) &&
           e[10..12] == PutU16(|a.octets|);
    assert e[12..12 + |a.octets|] == a.octets;
    hide RecordBytes, PutU16, PutU32;
    assert msg[off] == msg[off..off + |e|][0] && msg[off + 1] == msg[off..off + |e|][1];
    SliceOf(msg, off, e, 2, 4);
    SliceOf(msg, off, e, 4, 6);
    SliceOf(msg, off, e, 6, 10);
    SliceOf(msg, off, e, 10, 12);
    SliceOf(msg, off, e, 12, 12 + |a.octets|);
    SliceU16(msg, off + 2, PutU16(qtype));
    SliceU16(msg, off + 4, PutU16(1));
    SliceU16(msg, off + 10, PutU16(|a.octets|));
    SliceU32(msg, off + 6, PutU32(30));
  }

  /** One record decodes to its address under the question's name, by following the pointer. */
  lemma {:induction false} RecordDecodes(msg: Bytes, off: nat, qtype: nat, a: Addr, owner: seq<Bytes>, end: nat)
    requires IsAddr(a) && 12 < off && off + 12 + |a.octets| <= |msg| && qtype < 0x1_0000
    requires msg[off..off + 12 + |a.octets|] == RecordBytes(qtype, a)
    requires DecodeName(msg, 12, 12) == Some((owner, end))
    ensures DecodeRecord(msg, off) == Some((AnswerFor(owner, qtype, a), off + 12 + |a.octets|))
  {
    RecordLayout(msg, off, qtype, a);
    hide RecordBytes, GetU16, GetU32;
    assert DecodeName(msg, off, off) == Some((owner, off + 2));
  }

  /** k records in a row decode to the first k addresses, and the rest is left. */
  lemma {:induction false} RecordsDecode(
      msg: Bytes, off: nat, qtype: nat, addrs: seq<Addr>, k: nat, owner: seq<Bytes>, end: nat) returns (e: nat)
    requires 12 < off <= |msg| && qtype < 0x1_0000 && k <= |addrs| && AreAddrs(addrs)
    requires msg[off..] == RecordsBytes(qtype, addrs)
    requires DecodeName(msg, 12, 12) == Some((owner, end))
    ensures DecodeRecords(msg, off, k) == Some((AnswersFor(owner, qtype, addrs[..k]), e))
    ensures e <= |msg| && msg[e..] == RecordsBytes(qtype, addrs[k..])
    decreases k
  {
    hide *;
    if k == 0 {
      assert addrs[..0] == [] && addrs[0..] == addrs;
      NoRecords(msg, off, owner, qtype);
      e := off;
    } else {
      var a, rest := addrs[0], addrs[1..];
      TailAddrs(addrs);
      SplitRecord(msg, off, qtype, addrs);
      RecordDecodes(msg, off, qtype, a, owner, end);
      e := RecordsDecode(msg, off + 12 + |a.octets|, qtype, rest, k - 1, owner, end);
      AnswersCons(owner, qtype, addrs, k);
      RecordsStep(msg, off, AnswerFor(owner, qtype, a), off + 12 + |a.octets|, k,
        AnswersFor(owner, qtype, rest[..k - 1]), e);
      assert addrs[k..] == rest[k - 1..];
    }
  }

  lemma {:induction false} NoRecords(msg: Bytes, off: nat, owner: seq<Bytes>, qtype: nat)
    ensures DecodeRecords(msg, off, 0) == Some((AnswersFor(owner, qtype, []), off))
  {
  }

  lemma {:induction false} TailAddrs(addrs: seq<Addr>)
    requires addrs != [] && AreAddrs(addrs)
    ensures IsAddr(addrs[0]) && AreAddrs(addrs[1..])
  {
  }

  lemma {:induction false} RecordsStep(msg: Bytes, off: nat, r: Record, next: nat, k: nat, rs: seq<Record>, e: nat)
    requires k > 0 && DecodeRecord(msg, off) == Some((r, next)) && DecodeRecords(msg, next, k - 1) == Some((rs, e))
    ensures DecodeRecords(msg, off, k) == Some(([r] + rs, e))
  {
    hide DecodeRecord;
  }

  lemma {:induction false} AnswersCons(owner: seq<Bytes>, qtype: nat, addrs: seq<Addr>, k: nat)
    requires 0 < k <= |addrs|
    ensures AnswersFor(owner, qtype, addrs[..k])
            == [AnswerFor(owner, qtype, addrs[0])] + AnswersFor(owner, qtype, addrs[1..][..k - 1])
  {
    hide AnswerFor;
    assert addrs[..k][1..] == addrs[1..][..k - 1];
  }

  lemma {:induction false} SplitRecord(msg: Bytes, off: nat, qtype: nat, addrs: seq<Addr>)
    requires off <= |msg| && addrs != [] && msg[off..] == RecordsBytes(qtype, addrs)
    ensures off + 12 + |addrs[0].octets| <= |msg|
    ensures msg[off..off + 12 + |addrs[0].octets|] == RecordBytes(qtype, addrs[0])
    ensures msg[off + 12 + |addrs[0].octets|..] == RecordsBytes(qtype, addrs[1..])
  {
    hide RecordBytes;
    var r := RecordBytes(qtype, addrs[0]);
    assert msg[off..] == r + RecordsBytes(qtype, addrs[1..]);
    assert msg[off..off + |r|] == msg[off..][..|r|];
    assert msg[off + |r|..] == msg[off..][|r|..];
  }

  /** Where the parts of a response lie. */
  lemma {:induction false} AnswerLayout(query: Bytes, qtype: nat, addrs: seq<Addr>, qend: nat, resp: Bytes)
    requires BuildAnswer(query, qtype, addrs, qend) == Some(resp)
    ensures |resp| >= qend >= 12 && |query| >= qend
    ensures resp[..12] == AnswerHeader(query, |addrs|)
    ensures resp[12..qend] == query[12..qend]
    ensures resp[qend..] == RecordsBytes(qtype, addrs)
  {
    hide AnswerHeader, RecordsBytes;
  }

  /** The header the decoder reads. */
  lemma {:induction false} HeaderDecodes(query: Bytes, n: nat, resp: Bytes)
    requires |query| >= 12 && |resp| >= 12 && resp[..12] == AnswerHeader(query, n)
    ensures DecodeHeader(resp) ==
            Header(GetU16(query, 0), true, 0, false, false, query[2] % 2 == 1, true, 0, 0, 1, n % 0x1_0000, 0, 0)
  {
    var h := AnswerHeader(query, n);
    assert h[0] == query[0] && h[1] == query[1] && h[2] == 0x80 + query[2] % 2 && h[3] == 0x80;
    assert h[4..6] == PutU16(1) && h[6..8] == PutU16(n) && h[8..10] == PutU16(0) && h[10..12] == PutU16(0);
    hide AnswerHeader, PutU16;
    assert forall k :: 0 <= k < 12 ==> resp[..12][k] == resp[k];
    assert resp[4..6] == h[4..6] && resp[6..8] == h[6..8] && resp[8..10] == h[8..10] && resp[10..12] == h[10..12];
    SliceU16(resp, 4, PutU16(1));
    SliceU16(resp, 6, PutU16(n));
    SliceU16(resp, 8, PutU16(0));
    SliceU16(resp, 10, PutU16(0));
  }

  /** The queried name, as labels in the case the client sent. */
  function AskedName(query: Bytes): seq<Bytes> {
    var r := ReadLabels(query, 12);
    if r.Some? then r.value.0 else []
  }

  /** The gateway's own parser sees the same question in the response as in the query. */
  lemma {:induction false} AnswerKeepsQuestion(query: Bytes, q: Question, addrs: seq<Addr>, resp: Bytes)
    requires ParseQuestion(query) == Some(q) && BuildAnswer(query, q.qtype, addrs, q.qend) == Some(resp)
    ensures ParseQuestion(resp) == Some(q)
    ensures ReadLabels(resp, 12) == Some((AskedName(query), q.qend - 4))
  {
    AnswerLayout(query, q.qtype, addrs, q.qend, resp);
    HeaderDecodes(query, |addrs|, resp);
    assert GetU16(resp, 4) == 1;
    hide BuildAnswer, DecodeHeader, AnswerHeader, GetU16;
    QuestionDependsOn(query, resp, q);
    var off := q.qend - 4;
    assert query[12..off] == resp[12..off] by { SameSlice(query, resp, 12, 12, off, q.qend); }
    LabelsDependOn(query, resp, 12, AskedName(query), off);
  }

  /**
    Every response built from a parsed query decodes, under RFC 1035, to the
    question asked and one record per address, in order, under the queried name
    with the query's ID and RD. ANCOUNT is 16 bits wide: the addresses beyond
    it become trailing bytes.
   */
  lemma {:induction false} AnswerDecodes(query: Bytes, q: Question, addrs: seq<Addr>, resp: Bytes)
    requires ParseQuestion(query) == Some(q) && BuildAnswer(query, q.qtype, addrs, q.qend) == Some(resp) &&
             AreAddrs(addrs)
    ensures var n := |addrs| % 0x1_0000;
            Decode(resp) == Some(Message(
              Header(GetU16(query, 0), true, 0, false, false, query[2] % 2 == 1, true, 0, 0, 1, n, 0, 0),
              [Asked(AskedName(query), q.qtype, GetU16(query, q.qend - 2))],
              AnswersFor(AskedName(query), q.qtype, addrs[..n]), [], [],
              RecordsBytes(q.qtype, addrs[n..])))
  {
    hide *;
    var n := |addrs| % 0x1_0000;
    var name := AskedName(query);
    AnswerLayout(query, q.qtype, addrs, q.qend, resp);
    AnswerKeepsQuestion(query, q, addrs, resp);
    HeaderDecodes(query, |addrs|, resp);
    QuestionDecodes(query, q, resp);
    LabelsDecode(resp, 12, 12, name, q.qend - 4);
    var e := RecordsDecode(resp, q.qend, q.qtype, addrs, n, name, q.qend - 4);
    DecodeAssembles(resp, DecodeHeader(resp), [Asked(name, q.qtype, GetU16(query, q.qend - 2))], q.qend,
                    AnswersFor(name, q.qtype, addrs[..n]), e);
  }

  /** A message with no authority or additional section, put together from its decoded parts. */
  lemma {:induction false} DecodeAssembles(
      resp: Bytes, h: Header, qs: seq<Asked>, a: nat, answers: seq<Record>, b: nat)
    requires |resp| >= 12 && DecodeHeader(resp) == h && h.nsCount == 0 && h.arCount == 0
    requires DecodeQuestions(resp, 12, h.qdCount) == Some((qs, a)) &&
             DecodeRecords(resp, a, h.anCount) == Some((answers, b))
    requires b <= |resp|
    ensures Decode(resp) == Some(Message(h, qs, answers, [], [], resp[b..]))
  {
    hide DecodeHeader, DecodeQuestions;
  }

  lemma {:induction false} QuestionDecodes(query: Bytes, q: Question, resp: Bytes)
    requires ParseQuestion(query) == Some(q) && |resp| >= q.qend && resp[12..q.qend] == query[12..q.qend]
    requires ReadLabels(resp, 12) == Some((AskedName(query), q.qend - 4))
    ensures DecodeQuestions(resp, 12, 1) ==
            Some(([Asked(AskedName(query), q.qtype, GetU16(query, q.qend - 2))], q.qend))
  {
    var at := q.qend - 4;
    LabelsDecode(resp, 12, 12, AskedName(query), at);
    var part := query[12..q.qend];
    assert forall k :: 12 <= k < q.qend ==> query[k] == part[k - 12] == resp[k];
    assert GetU16(resp, at) == GetU16(query, at) && GetU16(resp, at + 2) == GetU16(query, at + 2);
    assert q.qtype == GetU16(query, at);
    hide GetU16, ReadLabels, ParseQuestion, DecodeName;
    assert DecodeAsked(resp, 12) == Some((Asked(AskedName(query), q.qtype, GetU16(query, at + 2)), q.qend));
    assert DecodeQuestions(resp, q.qend, 0) == Some(([], q.qend));
    var asked := Asked(AskedName(query), q.qtype, GetU16(query, at + 2));
    assert [asked] + [] == [asked];
  }

  /** All addresses arrive, and nothing else, if and only if their number fits ANCOUNT. */
  lemma {:induction false} AnswerCompleteIff(query: Bytes, q: Question, addrs: seq<Addr>, resp: Bytes, m: Message)
    requires ParseQuestion(query) == Some(q) && BuildAnswer(query, q.qtype, addrs, q.qend) == Some(resp) &&
             AreAddrs(addrs)
    requires Decode(resp) == Some(m)
    ensures m.answers == AnswersFor(AskedName(query), q.qtype, addrs) && m.trailing == [] <==> |addrs| < 0x1_0000
  {
    hide *;
    AnswerDecodes(query, q, addrs, resp);
    var n := |addrs| % 0x1_0000;
    if |addrs| < 0x1_0000 {
      assert addrs[..n] == addrs && addrs[n..] == [];
      NoRecordBytes(q.qtype);
    } else {
      assert |m.answers| == n < |addrs|;
    }
  }

  lemma {:induction false} NoRecordBytes(qtype: nat)
    ensures RecordsBytes(qtype, []) == []
  {
  }

  /** The length of a response whose addresses are all of one family. */
  lemma {:induction false} AnswerLength(query: Bytes, qtype: nat, addrs: seq<Addr>, qend: nat, resp: Bytes, size: nat)
    requires BuildAnswer(query, qtype, addrs, qend) == Some(resp)
    requires forall i :: 0 <= i < |addrs| ==> |addrs[i].octets| == size
    ensures |resp| == qend + |addrs| * (12 + size)
  {
    AnswerLayout(query, qtype, addrs, qend, resp);
    RecordsLength(qtype, addrs, size);
  }

  lemma {:induction false} OneMore(n: nat, d: nat)
    ensures (n + 1) * d == n * d + d
  {
  }

  lemma {:induction false} RecordsLength(qtype: nat, addrs: seq<Addr>, size: nat)
    requires forall i :: 0 <= i < |addrs| ==> |addrs[i].octets| == size
    ensures |RecordsBytes(qtype, addrs)| == |addrs| * (12 + size)
  {
    if addrs == [] {
    } else {
      RecordsLength(qtype, addrs[1..], size);
      OneMore(|addrs[1..]|, 12 + size);
      hide RecordBytes;
    }
  }
}
