/**
  The reading side of a connection. The peer's bytes arrive in segments of
  arbitrary size and then the stream ends; every contract below speaks of their
  concatenation only, so it holds however the bytes were cut up.
 */
module Stream {
  import opened Octets
  import opened Wrappers

  class Conn {
    var segments: seq<Bytes>

    constructor (segments: seq<Bytes>)
      ensures this.segments == segments
    {
      this.segments := segments;
    }

    /** The bytes not read yet. */
    ghost function Pending(): Bytes
      reads this
    {
      Flatten(segments)
    }

    /** One Read call with room for `room` bytes: at most one segment, at most the room. */
    method Read(room: nat) returns (data: Bytes)
      requires room > 0 && segments != []
      modifies this
      ensures |data| <= room && old(Pending()) == data + Pending()
      ensures room - |data| + |segments| < room + old(|segments|)
    {
      var seg, rest := segments[0], segments[1..];
      var n := if |seg| <= room then |seg| else room;
      data := seg[..n];
      segments := if n == |seg| then rest else [seg[n..]] + rest;
      assert n < |seg| ==> segments[1..] == rest;
      assert Pending() == seg[n..] + Flatten(rest);
    }

    /** io.ReadFull into a buffer of n bytes: it fails exactly when the stream ends early. */
    method ReadFull(n: nat) returns (data: Option<Bytes>)
      modifies this
      ensures n <= |old(Pending())| ==> data == Some(old(Pending())[..n]) && Pending() == old(Pending())[n..]
      ensures n > |old(Pending())| ==> data == None && Pending() == []
    {
      hide Flatten;
      var got: Bytes := [];
      ghost var stream := Pending();
      while |got| < n && segments != []
        invariant |got| <= n && stream == got + Pending()
        decreases n - |got| + |segments|
      {
        var more := Read(n - |got|);
        ConcatAssoc(got, more, Pending());
        got := got + more;
      }
      FlattenNone(segments);
      data := if |got| == n then Some(got) else None;
    }
  }
}

/** Reading one StartupMessage off a connection (`readStartupMessage` and `readStartupMessageWithPrefix`). */
module StartupReader {
  import opened Octets
  import opened Wrappers
  import opened Stream

  datatype ReadError = PrefixTooShort | LengthOutOfRange(length: nat) | StreamEnded

  /** The message that starts with `prefix` and goes on in `stream`, and what follows it. */
  function MessageAfter(prefix: Bytes, stream: Bytes): (r: Result<(Bytes, Bytes), ReadError>)
    ensures r.Ok? && |prefix| <= 8 ==> prefix + stream == r.value.0 + r.value.1
    ensures r.Ok? ==> 8 <= |r.value.0| <= 65536
  {
    if |prefix| < 4 then Err(PrefixTooShort)
    else
      var length := GetU32(prefix, 0);
      if length < 8 || length > 65536 then Err(LengthOutOfRange(length))
      else
        var n := if |prefix| < length then |prefix| else length;
        if |stream| < length - n then Err(StreamEnded)
        else
          SplitAt(prefix, stream, n, length - n);
          Ok((prefix[..n] + stream[..length - n], stream[length - n..]))
  }

  lemma {:induction false} SplitAt(prefix: Bytes, stream: Bytes, n: nat, k: nat)
    requires n <= |prefix| && k <= |stream|
    ensures n == |prefix| ==> prefix + stream == prefix[..n] + stream[..k] + stream[k..]
  {
    assert stream == stream[..k] + stream[k..];
    if n == |prefix| {
      assert prefix[..n] == prefix;
      ConcatAssoc(prefix, stream[..k], stream[k..]);
    }
  }

  /** The first message of a stream, and what follows it. */
  function FirstMessage(stream: Bytes): (r: Result<(Bytes, Bytes), ReadError>)
    ensures r.Ok? ==> stream == r.value.0 + r.value.1 && 8 <= |r.value.0| <= 65536
  {
    if |stream| < 4 then Err(StreamEnded)
    else
      assert stream == stream[..4] + stream[4..];
      MessageAfter(stream[..4], stream[4..])
  }

  /** Reading four bytes ahead or eight makes no difference. */
  lemma {:induction false} PrefixLengthIrrelevant(stream: Bytes)
    requires |stream| >= 8
    ensures MessageAfter(stream[..8], stream[8..]) == FirstMessage(stream)
  {
    var length := GetU32(stream, 0);
    assert GetU32(stream[..8], 0) == length && GetU32(stream[..4], 0) == length;
    if 8 <= length <= 65536 && length <= |stream| {
      assert stream[..8][..8] + stream[8..][..length - 8] == stream[..length];
      assert stream[..4][..4] + stream[4..][..length - 4] == stream[..length];
      assert stream[8..][length - 8..] == stream[length..] == stream[4..][length - 4..];
    }
  }

  method ReadStartupMessageWithPrefix(c: Conn, prefix: Bytes) returns (r: Result<Bytes, ReadError>)
    modifies c
    ensures match MessageAfter(prefix, old(c.Pending()))
            case Ok((message, rest)) => r == Ok(message) && c.Pending() == rest
            case Err(e) => r == Err(e)
  {
    if |prefix| < 4 {
      return Err(PrefixTooShort);
    }
    var length := GetU32(prefix, 0);
    if length < 8 || length > 65536 {
      return Err(LengthOutOfRange(length));
    }
    var n := if |prefix| < length then |prefix| else length;
    var tail := c.ReadFull(length - n);
    if tail.None? {
      return Err(StreamEnded);
    }
    r := Ok(prefix[..n] + tail.value);
  }

  method ReadStartupMessage(c: Conn) returns (r: Result<Bytes, ReadError>)
    modifies c
    ensures match FirstMessage(old(c.Pending()))
            case Ok((message, rest)) => r == Ok(message) && c.Pending() == rest
            case Err(e) => r == Err(e)
  {
    var lenBuf := c.ReadFull(4);
    if lenBuf.None? {
      return Err(StreamEnded);
    }
    r := ReadStartupMessageWithPrefix(c, lenBuf.value);
  }
}
