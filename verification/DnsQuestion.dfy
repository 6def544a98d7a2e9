/**
  The question section of a DNS message: the label grammar of section 3.1 of
  RFC 1035 and `parseDNSQuestion`, which reads the first question.
 */
module DnsQuestion {
  import opened Octets
  import opened Wrappers

  const DOT: byte := 46

  /** 1 to 63 bytes, as the two high bits of the length byte are clear. */
  predicate IsLabel(l: Bytes) {
    1 <= |l| <= 63
  }

  predicate AreLabels(ls: seq<Bytes>) {
    forall i :: 0 <= i < |ls| ==> IsLabel(ls[i])
  }

  /** Labels joined by dots. */
  function Join(ls: seq<Bytes>): Bytes {
    if |ls| == 0 then []
    else if |ls| == 1 then ls[0]
    else Join(ls[..|ls| - 1]) + [DOT] + ls[|ls| - 1]
  }

  /** ASCII lower case, byte by byte. */
  function Lower(s: Bytes): (r: Bytes)
    ensures |r| == |s|
  {
    seq(|s|, i requires 0 <= i < |s| => LowerByte(s[i]))
  }

  function LowerByte(b: byte): byte {
    if 65 <= b <= 90 then b + 32 else b
  }

  /** The wire form of a name without its final zero byte. */
  function EncodeLabels(ls: seq<Bytes>): Bytes
    requires AreLabels(ls)
  {
    if ls == [] then [] else [|ls[0]|] + ls[0] + EncodeLabels(ls[1..])
  }

  /** Uncompressed labels at an offset, and the offset after their zero byte. */
  function ReadLabels(msg: Bytes, off: nat): (r: Option<(seq<Bytes>, nat)>)
    ensures r.Some? ==> AreLabels(r.value.0) && off < r.value.1 <= |msg|
    decreases |msg| - off
  {
    if off >= |msg| then None
    else
      var n := msg[off];
      if n == 0 then Some(([], off + 1))
      else if n >= 64 || off + 1 + n > |msg| then None
      else Cons(msg[off + 1..off + 1 + n], ReadLabels(msg, off + 1 + n))
  }

  function Cons(l: Bytes, r: Option<(seq<Bytes>, nat)>): Option<(seq<Bytes>, nat)> {
    if r.None? then None else Some(([l] + r.value.0, r.value.1))
  }

  datatype Question = Question(name: Bytes, qtype: nat, qend: nat)

  /** What `parseDNSQuestion` returns; None is ok == false. */
  function ParseQuestion(msg: Bytes): (r: Option<Question>)
    ensures r.Some? ==> 17 <= r.value.qend <= |msg| && r.value.qtype < 0x1_0000
  {
    if |msg| < 12 || GetU16(msg, 4) < 1 then None
    else
      match ReadLabels(msg, 12)
      case None => None
      case Some((ls, off)) =>
        if off + 4 > |msg| then None
        else Some(Question(Lower(Join(ls)), GetU16(msg, off), off + 4))
  }

  /** The loop over `off` and the string builder. */
  method ParseDnsQuestion(msg: Bytes) returns (r: Option<Question>)
    ensures r == ParseQuestion(msg)
  {
    if |msg| < 12 || GetU16(msg, 4) < 1 {
      return None;
    }
    hide ReadLabels, ConsAll, Join, AreLabels;
    var sb: Bytes := [];
    var off := 12;
    ghost var ls: seq<Bytes> := [];
    NoLabelsYet(msg);
    while true
      invariant 12 <= off <= |msg|
      invariant ConsAll(ls, ReadLabels(msg, off)) == ReadLabels(msg, 12)
      invariant AreLabels(ls) && sb == Join(ls)
      decreases |msg| - off
    {
      LabelTurn(msg, off, ls);
      if off >= |msg| {
        return None;
      }
      var l := msg[off];
      off := off + 1;
      if l == 0 {
        break;
      }
      if l >= 64 || off + l > |msg| {
        return None;
      }
      if |sb| > 0 {
        sb := sb + [DOT];
      }
      sb := sb + msg[off..off + l];
      ls := ls + [msg[off..off + l]];
      off := off + l;
    }
    if off + 4 > |msg| {
      return None;
    }
    r := Some(Question(Lower(sb), GetU16(msg, off), off + 4));
  }

  lemma {:induction false} NoLabelsYet(msg: Bytes)
    ensures ConsAll([], ReadLabels(msg, 12)) == ReadLabels(msg, 12) && AreLabels([]) && Join([]) == []
  {
    ConsAllNone(ReadLabels(msg, 12));
  }

  /** What one turn of the loop finds at an offset, with the labels before it. */
  lemma {:induction false} LabelTurn(msg: Bytes, off: nat, ls: seq<Bytes>)
    requires AreLabels(ls)
    ensures off >= |msg| ==> ConsAll(ls, ReadLabels(msg, off)) == None
    ensures off < |msg| ==>
              var n := msg[off];
              if n == 0 then ConsAll(ls, ReadLabels(msg, off)) == Some((ls, off + 1))
              else if n >= 64 || off + 1 + n > |msg| then ConsAll(ls, ReadLabels(msg, off)) == None
              else
                var l := msg[off + 1..off + 1 + n];
                && ConsAll(ls + [l], ReadLabels(msg, off + 1 + n)) == ConsAll(ls, ReadLabels(msg, off))
                && AreLabels(ls + [l]) && Join(ls + [l]) == if Join(ls) == [] then l else Join(ls) + [DOT] + l
  {
    assert ls + [] == ls;
    if off < |msg| && 0 < msg[off] < 64 && off + 1 + msg[off] <= |msg| {
      var l := msg[off + 1..off + 1 + msg[off]];
      ConsAllSnoc(ls, l, ReadLabels(msg, off + 1 + msg[off]));
      hide ConsAll;
      JoinEmpty(ls);
      JoinSnoc(ls, l);
      hide Join;
    }
  }

  function ConsAll(ls: seq<Bytes>, r: Option<(seq<Bytes>, nat)>): Option<(seq<Bytes>, nat)> {
    if r.None? then None else Some((ls + r.value.0, r.value.1))
  }

  lemma {:induction false} ConsAllNone(r: Option<(seq<Bytes>, nat)>)
    ensures ConsAll([], r) == r
  {
    assert r.Some? ==> [] + r.value.0 == r.value.0;
  }

  lemma {:induction false} ConsAllSnoc(ls: seq<Bytes>, l: Bytes, r: Option<(seq<Bytes>, nat)>)
    ensures ConsAll(ls, Cons(l, r)) == ConsAll(ls + [l], r)
  {
    assert r.Some? ==> ls + ([l] + r.value.0) == ls + [l] + r.value.0;
  }

  lemma {:induction false} JoinSnoc(ls: seq<Bytes>, l: Bytes)
    ensures Join(ls + [l]) == if ls == [] then l else Join(ls) + [DOT] + l
  {
    assert (ls + [l])[..|ls|] == ls;
  }

  lemma {:induction false} JoinEmpty(ls: seq<Bytes>)
    requires AreLabels(ls)
    ensures Join(ls) == [] <==> ls == []
  {
    if ls != [] {
      assert IsLabel(ls[|ls| - 1]);
    }
  }

  // --------------------------------------------------------------- grammar

  /** The parser refines the grammar, one way: what it reads is the encoding of what it returns. */
  lemma {:induction false} ReadIsEncoding(msg: Bytes, off: nat, ls: seq<Bytes>, end: nat)
    requires ReadLabels(msg, off) == Some((ls, end))
    ensures msg[off..end] == EncodeLabels(ls) + [0]
    decreases |msg| - off
  {
    var n := msg[off];
    if n != 0 {
      var next := off + 1 + n;
      var rest := ReadLabels(msg, next).value.0;
      ReadIsEncoding(msg, next, rest, end);
      assert ls == [ls[0]] + rest && ls[1..] == rest;
      assert msg[off..end] == [n] + msg[off + 1..next] + msg[next..end];
      ConcatAssoc([n] + ls[0], EncodeLabels(rest), [0]);
    }
  }

  /** And the other way: every encoding is read back, whatever surrounds it. */
  lemma {:induction false} EncodingIsRead(msg: Bytes, off: nat, ls: seq<Bytes>)
    requires AreLabels(ls)
    requires off + |EncodeLabels(ls)| + 1 <= |msg|
    requires msg[off..off + |EncodeLabels(ls)| + 1] == EncodeLabels(ls) + [0]
    ensures ReadLabels(msg, off) == Some((ls, off + |EncodeLabels(ls)| + 1))
    decreases |ls|
  {
    var e := EncodeLabels(ls) + [0];
    assert msg[off] == msg[off..off + |e|][0] == e[0];
    if ls == [] {
    } else {
      var n := |ls[0]|;
      var tail := EncodeLabels(ls[1..]) + [0];
      assert IsLabel(ls[0]);
      assert e == [n] + ls[0] + tail by { ConcatAssoc([n] + ls[0], EncodeLabels(ls[1..]), [0]); }
      hide EncodeLabels;
      EncodingHead(msg, off, ls[0], tail);
      EncodingIsRead(msg, off + 1 + n, ls[1..]);
      assert [ls[0]] + ls[1..] == ls;
    }
  }

  lemma {:induction false} EncodingHead(msg: Bytes, off: nat, l: Bytes, tail: Bytes)
    requires IsLabel(l) && off + 1 + |l| + |tail| <= |msg|
    requires msg[off..off + 1 + |l| + |tail|] == [|l|] + l + tail
    ensures msg[off + 1..off + 1 + |l|] == l
    ensures msg[off + 1 + |l|..off + 1 + |l| + |tail|] == tail
  {
    var e := [|l|] + l + tail;
    SliceOf(msg, off, e, 1, 1 + |l|);
    SliceOf(msg, off, e, 1 + |l|, |e|);
  }

  lemma {:induction false} SliceOf(msg: Bytes, off: nat, e: Bytes, i: nat, j: nat)
    requires i <= j <= |e| && off + |e| <= |msg| && msg[off..off + |e|] == e
    ensures msg[off + i..off + j] == e[i..j]
  {
    forall k | 0 <= k < j - i
      ensures msg[off + i..off + j][k] == e[i..j][k]
    {
      assert msg[off + i + k] == msg[off..off + |e|][i + k];
    }
  }

  /** A name on the wire takes one byte more than in dotted form. */
  lemma {:induction false} EncodedLength(ls: seq<Bytes>)
    requires AreLabels(ls)
    ensures |EncodeLabels(ls)| == if ls == [] then 0 else |Join(ls)| + 1
  {
    if ls == [] {
    } else {
      var n := |ls| - 1;
      EncodedLength(ls[..n]);
      EncodeSnoc(ls[..n], ls[n]);
      assert ls[..n] + [ls[n]] == ls;
    }
  }

  lemma {:induction false} EncodeSnoc(ls: seq<Bytes>, l: Bytes)
    requires AreLabels(ls) && IsLabel(l)
    ensures AreLabels(ls + [l])
    ensures |EncodeLabels(ls + [l])| == |EncodeLabels(ls)| + 1 + |l|
  {
    if ls == [] {
    } else {
      EncodeSnoc(ls[1..], l);
      assert (ls + [l])[1..] == ls[1..] + [l];
    }
  }

  /** `qend` is the length of a non-empty name plus 18; for the root it is 17. */
  lemma {:induction false} QuestionEnd(msg: Bytes, q: Question)
    requires ParseQuestion(msg) == Some(q)
    ensures q.qend == |q.name| + if q.name == [] then 17 else 18
  {
    var (ls, off) := ReadLabels(msg, 12).value;
    ReadIsEncoding(msg, 12, ls, off);
    EncodedLength(ls);
    JoinEmpty(ls);
  }

  /** Every question built from 1 to 63 byte labels parses to the lowercased dotted name. */
  lemma {:induction false} QuestionRoundTrip(header: Bytes, ls: seq<Bytes>, qtype: nat, qclass: nat, more: Bytes)
    requires |header| == 12 && GetU16(header, 4) >= 1 && AreLabels(ls) && qtype < 0x1_0000
    ensures ParseQuestion(header + (EncodeLabels(ls) + [0]) + PutU16(qtype) + PutU16(qclass) + more)
            == Some(Question(Lower(Join(ls)), qtype, 17 + |EncodeLabels(ls)|))
  {
    var e := EncodeLabels(ls) + [0];
    var msg := header + e + PutU16(qtype) + PutU16(qclass) + more;
    assert msg[4] == header[4] && msg[5] == header[5];
    assert msg[12..12 + |e|] == e;
    EncodingIsRead(msg, 12, ls);
    var off := 12 + |e|;
    assert msg[off] == PutU16(qtype)[0] && msg[off + 1] == PutU16(qtype)[1];
    assert GetU16(msg, off) == GetU16(PutU16(qtype), 0);
  }

  /** The labels depend only on the bytes they occupy. */
  lemma {:induction false} LabelsDependOn(a: Bytes, b: Bytes, off: nat, ls: seq<Bytes>, end: nat)
    requires ReadLabels(a, off) == Some((ls, end)) && end <= |b| && a[off..end] == b[off..end]
    ensures ReadLabels(b, off) == Some((ls, end))
  {
    ReadIsEncoding(a, off, ls, end);
    EncodingIsRead(b, off, ls);
  }

  /** Only QDCOUNT and the bytes from 12 to qend matter. */
  lemma {:induction false} QuestionDependsOn(a: Bytes, b: Bytes, q: Question)
    requires ParseQuestion(a) == Some(q)
    requires q.qend <= |b| && GetU16(b, 4) >= 1 && a[12..q.qend] == b[12..q.qend]
    ensures ParseQuestion(b) == Some(q)
  {
    var (ls, off) := ReadLabels(a, 12).value;
    assert q.qend == off + 4;
    SameSlice(a, b, 12, 12, off, q.qend);
    SameSlice(a, b, 12, off, off + 2, q.qend);
    SameU16(a, b, off);
    hide ReadLabels, GetU16, Lower, Join;
    LabelsDependOn(a, b, 12, ls, off);
  }

  /** Exactly the messages with a question: a header that counts one, a name in labels, a type and a class. */
  lemma {:induction false} QuestionGrammar(msg: Bytes)
    ensures ParseQuestion(msg).Some? <==>
            && |msg| >= 12 && GetU16(msg, 4) >= 1
            && exists ls :: AreLabels(ls) && NameAt(msg, 12, ls) && 12 + |EncodeLabels(ls)| + 5 <= |msg|
  {
    if ParseQuestion(msg).Some? {
      var (ls, off) := ReadLabels(msg, 12).value;
      ReadIsEncoding(msg, 12, ls, off);
      hide ReadLabels;
      assert off == 12 + |EncodeLabels(ls)| + 1;
      assert NameAt(msg, 12, ls);
    } else if |msg| >= 12 && exists ls :: AreLabels(ls) && NameAt(msg, 12, ls) && 12 + |EncodeLabels(ls)| + 5 <= |msg| {
      var ls :| AreLabels(ls) && NameAt(msg, 12, ls) && 12 + |EncodeLabels(ls)| + 5 <= |msg|;
      EncodingIsRead(msg, 12, ls);
      hide ReadLabels, EncodeLabels;
    }
  }

  /** The encoding of these labels and a zero byte stand at an offset. */
  predicate NameAt(msg: Bytes, off: nat, ls: seq<Bytes>)
    requires AreLabels(ls)
  {
    var end := off + |EncodeLabels(ls)| + 1;
    end <= |msg| && msg[off..end] == EncodeLabels(ls) + [0]
  }

  // -------------------------------------------------------------- letter case

  /** The parsed name, byte by byte: capitals 65 to 90 are moved up by 32, everything else is kept. */
  lemma {:induction false} NameIsLower(msg: Bytes, q: Question, ls: seq<Bytes>, off: nat)
    requires ParseQuestion(msg) == Some(q) && ReadLabels(msg, 12) == Some((ls, off))
    ensures |q.name| == |Join(ls)|
    ensures forall i :: 0 <= i < |q.name| ==>
              && !(65 <= q.name[i] <= 90)
              && q.name[i] == if 65 <= Join(ls)[i] <= 90 then Join(ls)[i] + 32 else Join(ls)[i]
  {
    hide ReadLabels, Join;
  }

  /** The same letter, or the same other byte. */
  predicate SameLetter(x: byte, y: byte) {
    x == y || (65 <= x <= 90 && y == x + 32) || (65 <= y <= 90 && x == y + 32)
  }

  predicate SameButCase(x: Bytes, y: Bytes) {
    |x| == |y| && forall i :: 0 <= i < |x| ==> SameLetter(x[i], y[i])
  }

  predicate AllSameButCase(ls: seq<Bytes>, ms: seq<Bytes>) {
    |ls| == |ms| && forall i :: 0 <= i < |ls| ==> SameButCase(ls[i], ms[i])
  }

  lemma {:induction false} LowerBlind(x: Bytes, y: Bytes)
    requires SameButCase(x, y)
    ensures Lower(x) == Lower(y)
  {
    forall i | 0 <= i < |x|
      ensures Lower(x)[i] == Lower(y)[i]
    {
      assert SameLetter(x[i], y[i]);
    }
  }

  lemma {:induction false} JoinBlind(ls: seq<Bytes>, ms: seq<Bytes>)
    requires AllSameButCase(ls, ms)
    ensures SameButCase(Join(ls), Join(ms))
  {
    if |ls| <= 1 {
    } else {
      var n := |ls| - 1;
      JoinBlind(ls[..n], ms[..n]);
      assert SameButCase(ls[n], ms[n]);
      ConcatBlind(Join(ls[..n]), ls[n], Join(ms[..n]), ms[n]);
    }
  }

  lemma {:induction false} ConcatBlind(a: Bytes, b: Bytes, c: Bytes, d: Bytes)
    requires SameButCase(a, c) && SameButCase(b, d)
    ensures SameButCase(a + [DOT] + b, c + [DOT] + d)
  {
    hide SameLetter;
    assert SameLetter(DOT, DOT) by { assert DOT == DOT; SameAsItself(DOT); }
  }

  lemma {:induction false} SameAsItself(x: byte)
    ensures SameLetter(x, x)
  {
  }

  /** Questions that differ only in the case of their names are the same question. */
  lemma {:induction false} CaseBlind(a: Bytes, b: Bytes, ls: seq<Bytes>, ms: seq<Bytes>, off: nat)
    requires ReadLabels(a, 12) == Some((ls, off)) && ReadLabels(b, 12) == Some((ms, off)) && AllSameButCase(ls, ms)
    requires off + 4 <= |a| && off + 4 <= |b| && GetU16(a, off) == GetU16(b, off)
    requires |a| >= 12 && |b| >= 12 && GetU16(a, 4) >= 1 && GetU16(b, 4) >= 1
    ensures ParseQuestion(a).Some? && ParseQuestion(a) == ParseQuestion(b)
  {
    JoinBlind(ls, ms);
    LowerBlind(Join(ls), Join(ms));
    hide ReadLabels, Join, Lower, GetU16;
  }
}
