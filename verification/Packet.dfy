/** Messages and the cursor that reads them: big-endian integers and C strings. */
module Packet {
  import opened Prelude
  import opened ProxyErrors
  import Utf8

  /** The position of the first NUL at or after `from`. */
  function FindNul(b: Bytes, from: nat): (r: Option<nat>)
    requires from <= |b|
    ensures r.Some? ==> from <= r.value < |b| && b[r.value] == 0 && 0 !in b[from..r.value]
    ensures r.None? ==> 0 !in b[from..]
    decreases |b| - from
  {
    if from == |b| then None else if b[from] == 0 then Some(from) else FindNul(b, from + 1)
  }

  /** `put_cstr`. */
  function CString(s: string): Bytes {
    Utf8.Encode(s) + [0]
  }

  /** The string a NUL-terminated field starts `b` with, and what follows it. */
  function ReadCString(b: Bytes): (r: Result<(string, Bytes), ProxyError>)
    ensures r.Ok? ==> |r.value.1| < |b|
  {
    match FindNul(b, 0)
    case None => Err(Connection(InvalidMessageLength))
    case Some(end) =>
      match Utf8.Decode(b[..end])
      case None => Err(Internal)
      case Some(s) => Ok((s, b[end + 1..]))
  }

  /** A tagged message; the length wraps as the source's `as u32` does. */
  function Message(tag: byte, body: Bytes): Bytes {
    [tag] + BigEndian((|body| + 4) % U32_LIMIT) + body
  }

  /** A NUL-free string reads back, wherever the message goes on. */
  lemma CStringReadsBack(s: string, rest: Bytes)
    requires '\0' !in s
    ensures ReadCString(CString(s) + rest) == Ok((s, rest))
  {
    var e := Utf8.Encode(s);
    var b := CString(s) + rest;
    Utf8.EncodeNul(s);
    assert b[|e|] == 0 && b[..|e|] == e && b[|e| + 1..] == rest;
    FindNulAt(b, 0, |e|);
    Utf8.EncodeThenDecode(s);
  }

  lemma {:induction false} FindNulAt(b: Bytes, from: nat, at: nat)
    requires from <= at < |b| && b[at] == 0
    requires forall i | from <= i < at :: b[i] != 0
    ensures FindNul(b, from) == Some(at)
    decreases at - from
  {
    if from < at {
      FindNulAt(b, from + 1, at);
    }
  }

  /** What is read as a C string was printed as one. */
  lemma ReadCStringInverts(b: Bytes)
    requires ReadCString(b).Ok?
    ensures var (s, rest) := ReadCString(b).value;
            b == CString(s) + rest && '\0' !in s
  {
    var end := FindNul(b, 0).value;
    var (s, rest) := ReadCString(b).value;
    Utf8.DecodeThenEncode(b[..end]);
    Utf8.EncodeNul(s);
    assert b[0..end] == b[..end];
    assert b == b[..end] + [b[end]] + b[end + 1..];
  }

  /** A cursor over one message body. */
  class MessageReader {
    const buf: Bytes
    var pos: nat

    ghost predicate Valid()
      reads this
    {
      pos <= |buf|
    }

    /** What has not been read yet. */
    function Rest(): Bytes
      requires Valid()
      reads this
    {
      buf[pos..]
    }

    constructor (buf: Bytes)
      ensures Valid() && Rest() == buf
    {
      this.buf := buf;
      pos := 0;
    }

    function Remaining(): (n: nat)
      requires Valid()
      reads this
      ensures n == |Rest()|
    {
      |buf| - pos
    }

    method ReadU32() returns (r: Result<u32, ProxyError>)
      requires Valid()
      modifies this
      ensures Valid()
      ensures |old(Rest())| < 4 ==> r == Err(Connection(InvalidMessageLength)) && Rest() == old(Rest())
      ensures |old(Rest())| >= 4 ==> r == Ok(FromBigEndian(old(Rest())[..4])) && Rest() == old(Rest())[4..]
    {
      if Remaining() < 4 {
        return Err(Connection(InvalidMessageLength));
      }
      assert buf[pos..pos + 4] == buf[pos..][..4];
      var value := FromBigEndian([buf[pos], buf[pos + 1], buf[pos + 2], buf[pos + 3]]);
      assert [buf[pos], buf[pos + 1], buf[pos + 2], buf[pos + 3]] == buf[pos..pos + 4];
      assert buf[pos..][4..] == buf[pos + 4..];
      pos := pos + 4;
      r := Ok(value);
    }

    method ReadString() returns (r: Result<string, ProxyError>)
      requires Valid()
      modifies this
      ensures Valid()
      ensures match ReadCString(old(Rest()))
              case Err(error) => r == Err(error)
              case Ok((s, rest)) => r == Ok(s) && Rest() == rest
    {
      var start := pos;
      ghost var whole := Rest();
      while pos < |buf|
        invariant start <= pos <= |buf|
        invariant forall i | start <= i < pos :: buf[i] != 0
      {
        if buf[pos] == 0 {
          NulFound(start, pos);
          var message := Utf8.Decode(buf[start..pos]);
          if message.None? {
            return Err(Internal);
          }
          pos := pos + 1;
          assert whole[pos - start..] == buf[pos..];
          return Ok(message.value);
        }
        pos := pos + 1;
      }
      assert buf[start..pos] == whole && whole[0..] == whole;
      r := Err(Connection(InvalidMessageLength));
    }

    lemma NulFound(start: nat, at: nat)
      requires start <= at < |buf| && buf[at] == 0 && forall i | start <= i < at :: buf[i] != 0
      ensures FindNul(buf[start..], 0) == Some(at - start)
      ensures buf[start..][..at - start] == buf[start..at]
    {
      FindNulAt(buf[start..], 0, at - start);
    }

    method ReadStringFixedSize(size: nat) returns (r: Result<string, ProxyError>)
      requires Valid()
      modifies this
      ensures Valid()
      ensures |old(Rest())| < size ==> r == Err(Connection(InvalidMessageLength)) && Rest() == old(Rest())
      ensures |old(Rest())| >= size ==>
                && Rest() == old(Rest())[size..]
                && r == match Utf8.Decode(old(Rest())[..size])
                        case None => Err(Internal)
                        case Some(s) => Ok(s)
    {
      if Remaining() < size {
        return Err(Connection(InvalidMessageLength));
      }
      var start, end := pos, pos + size;
      assert buf[start..][..size] == buf[start..end] && buf[start..][size..] == buf[end..];
      pos := end;
      match Utf8.Decode(buf[start..end]) {
        case None => r := Err(Internal);
        case Some(s) => r := Ok(s);
      }
    }
  }
}
