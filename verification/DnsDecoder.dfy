/**
  A decoder for whole DNS messages, written from sections 3.1 and 4.1.1 to 4.1.4
  of RFC 1035 alone. It follows compression pointers, which must lead to an
  earlier place in the message. It is the specification for the responses the
  gateway builds.
 */
module DnsDecoder {
  import opened Octets
  import opened Wrappers

  datatype Header = Header(
    id: nat, qr: bool, opcode: nat, aa: bool, tc: bool, rd: bool, ra: bool, z: nat, rcode: nat,
    qdCount: nat, anCount: nat, nsCount: nat, arCount: nat)

  datatype Asked = Asked(name: seq<Bytes>, qtype: nat, qclass: nat)

  datatype Record = Record(owner: seq<Bytes>, rtype: nat, rclass: nat, ttl: nat, rdata: Bytes)

  datatype Message = Message(
    header: Header, questions: seq<Asked>, answers: seq<Record>, authority: seq<Record>, additional: seq<Record>,
    trailing: Bytes)

  function DecodeHeader(msg: Bytes): Header
    requires |msg| >= 12
  {
    var a: int, b: int := msg[2], msg[3];
    Header(GetU16(msg, 0), a >= 128, a / 8 % 16, a / 4 % 2 == 1, a / 2 % 2 == 1, a % 2 == 1,
           b >= 128, b / 16 % 8, b % 16,
           GetU16(msg, 4), GetU16(msg, 6), GetU16(msg, 8), GetU16(msg, 10))
  }

  /** The name at an offset and the offset after it; a pointer must lead before `limit`, where this name began. */
  function DecodeName(msg: Bytes, off: nat, limit: nat): (r: Option<(seq<Bytes>, nat)>)
    ensures r.Some? ==> off < r.value.1 <= |msg|
    decreases limit, |msg| - off
  {
    if off >= |msg| then None
    else
      var n: int := msg[off];
      if n == 0 then Some(([], off + 1))
      else if n < 64 then
        if off + 1 + n > |msg| then None
        else
          match DecodeName(msg, off + 1 + n, limit)
          case None => None
          case Some((rest, next)) => Some(([msg[off + 1..off + 1 + n]] + rest, next))
      else if n >= 192 && off + 2 <= |msg| then
        var target := 256 * (n - 192) + msg[off + 1];
        if target >= limit then None
        else
          match DecodeName(msg, target, target)
          case None => None
          case Some((labels, _)) => Some((labels, off + 2))
      else None
  }

  function DecodeAsked(msg: Bytes, off: nat): (r: Option<(Asked, nat)>)
    ensures r.Some? ==> off < r.value.1 <= |msg|
  {
    match DecodeName(msg, off, off)
    case None => None
    case Some((name, at)) =>
      if at + 4 > |msg| then None else Some((Asked(name, GetU16(msg, at), GetU16(msg, at + 2)), at + 4))
  }

  function DecodeQuestions(msg: Bytes, off: nat, n: nat): (r: Option<(seq<Asked>, nat)>)
    ensures r.Some? && off <= |msg| ==> r.value.1 <= |msg|
    decreases n
  {
    if n == 0 then Some(([], off))
    else
      match DecodeAsked(msg, off)
      case None => None
      case Some((q, next)) =>
        match DecodeQuestions(msg, next, n - 1)
        case None => None
        case Some((rest, end)) => Some(([q] + rest, end))
  }

  function DecodeRecord(msg: Bytes, off: nat): (r: Option<(Record, nat)>)
    ensures r.Some? ==> off < r.value.1 <= |msg|
  {
    match DecodeName(msg, off, off)
    case None => None
    case Some((owner, at)) =>
      if at + 10 > |msg| then None
      else
        var len := GetU16(msg, at + 8);
        if at + 10 + len > |msg| then None
        else Some((Record(owner, GetU16(msg, at), GetU16(msg, at + 2), GetU32(msg, at + 4),
          msg[at + 10..at + 10 + len]),
                   at + 10 + len))
  }

  function DecodeRecords(msg: Bytes, off: nat, n: nat): (r: Option<(seq<Record>, nat)>)
    ensures r.Some? && off <= |msg| ==> r.value.1 <= |msg|
    decreases n
  {
    if n == 0 then Some(([], off))
    else
      match DecodeRecord(msg, off)
      case None => None
      case Some((q, next)) =>
        match DecodeRecords(msg, next, n - 1)
        case None => None
        case Some((rest, end)) => Some(([q] + rest, end))
  }

  function Decode(msg: Bytes): (r: Option<Message>) {
    if |msg| < 12 then None
    else
      var h := DecodeHeader(msg);
      match DecodeQuestions(msg, 12, h.qdCount)
      case None => None
      case Some((qs, a)) =>
        match DecodeRecords(msg, a, h.anCount)
        case None => None
        case Some((answers, b)) =>
          match DecodeRecords(msg, b, h.nsCount)
          case None => None
          case Some((authority, c)) =>
            match DecodeRecords(msg, c, h.arCount)
            case None => None
            case Some((additional, d)) => Some(Message(h, qs, answers, authority, additional, msg[d..]))
  }
}
