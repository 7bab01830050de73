/** Tagged protocol messages, and the bodies the startup phase reads out of them. */
module Frames {
  import opened Prelude
  import opened BackendErrors
  import opened Packet
  import Utf8

  const I32_LIMIT := 0x8000_0000

  datatype Frame = Frame(tag: byte, body: Bytes)

  /** A frame on the wire; a body this short needs no wrapping of its length. */
  function Print(f: Frame): (b: Bytes)
    requires |f.body| + 4 < I32_LIMIT
    ensures b == [f.tag] + BigEndian(|f.body| + 4) + f.body
  {
    Message(f.tag, f.body)
  }

  /** The frame `input` starts with and what follows it, as the backend link reads it. */
  function Read(input: Bytes, maxCapacity: nat): (r: Result<(Frame, Bytes), PgError>)
    ensures r.Ok? ==> |r.value.1| < |input|
  {
    if |input| < 5 then Err(Io)
    else
      var length := FromBigEndian(input[1..5]);
      if length < 4 || length >= I32_LIMIT || length - 4 > maxCapacity then Err(Protocol)
      else if |input| < length + 1 then Err(Io)
      else Ok((Frame(input[0], input[5..length + 1]), input[length + 1..]))
  }

  lemma PrintThenRead(f: Frame, rest: Bytes, maxCapacity: nat)
    requires |f.body| + 4 < I32_LIMIT && |f.body| <= maxCapacity
    ensures Read(Print(f) + rest, maxCapacity) == Ok((f, rest))
  {
    hide BigEndian, FromBigEndian;
    var input := Print(f) + rest;
    BigEndianRoundTrip(|f.body| + 4);
    assert input[1..5] == BigEndian(|f.body| + 4);
    assert input[5..|f.body| + 5] == f.body && input[|f.body| + 5..] == rest;
  }

  lemma ReadInverts(input: Bytes, maxCapacity: nat)
    requires Read(input, maxCapacity).Ok?
    ensures var (f, rest) := Read(input, maxCapacity).value;
            |f.body| + 4 < I32_LIMIT && |f.body| <= maxCapacity && input == Print(f) + rest
  {
    hide BigEndian, FromBigEndian;
    FromBigEndianRoundTrip(input[1..5]);
    var length := FromBigEndian(input[1..5]);
    assert input == [input[0]] + input[1..5] + input[5..length + 1] + input[length + 1..];
  }

  /** Lossy decoding of text the proxy only reports: a malformed field is replaced as a whole. */
  function Lossy(b: Bytes): string {
    match Utf8.Decode(b)
    case Some(s) => s
    case None => "\U{FFFD}"
  }

  /** The fields of an ErrorResponse body, up to the terminator or the end of the body. */
  function Fields(body: Bytes): seq<(byte, Bytes)>
    decreases |body|
  {
    if body == [] || body[0] == 0 then []
    else
      match FindNul(body, 1)
      case None => [(body[0], body[1..])]
      case Some(end) => [(body[0], body[1..end])] + Fields(body[end + 1..])
  }

  /** The value of the last field whose type is in `types`. */
  function LastField(fields: seq<(byte, Bytes)>, types: set<byte>, default: Bytes): Bytes {
    if fields == [] then default
    else if fields[|fields| - 1].0 in types then fields[|fields| - 1].1
    else LastField(fields[..|fields| - 1], types, default)
  }

  datatype ErrorText = ErrorText(severity: Bytes, code: Bytes, message: Bytes)

  const S_FIELD: byte := 'S' as int
  const V_FIELD: byte := 'V' as int
  const C_FIELD: byte := 'C' as int
  const M_FIELD: byte := 'M' as int

  function ErrorOf(fields: seq<(byte, Bytes)>): ErrorText {
    ErrorText(
      LastField(fields, {S_FIELD, V_FIELD}, Utf8.Encode("FATAL")),
      LastField(fields, {C_FIELD}, Utf8.Encode("XX000")),
      LastField(fields, {M_FIELD}, []))
  }

  /** `parse_error_response`: the index never leaves the body, whatever its bytes. */
  method ParseErrorResponse(body: Bytes) returns (r: ErrorText)
    ensures r == ErrorOf(Fields(body))
  {
    hide LastField, FindNul, Utf8.Encode, Fields, ErrorOf;
    var severity, code, message := Utf8.Encode("FATAL"), Utf8.Encode("XX000"), [];
    var position := 0;
    ghost var read: seq<(byte, Bytes)> := [];
    assert body[0..] == body;
    NothingYet();
    while position < |body| && body[position] != 0
      invariant 0 <= position <= |body| + 1
      invariant Fields(body) == read + (if position <= |body| then Fields(body[position..]) else [])
      invariant ErrorText(severity, code, message) == ErrorOf(read)
      decreases |body| + 1 - position
    {
      var field := body[position];
      ghost var at := position;
      position := position + 1;
      var start := position;
      while position < |body| && body[position] != 0
        invariant start <= position <= |body|
        invariant forall i | start <= i < position :: body[i] != 0
      {
        position := position + 1;
      }
      var value := body[start..position];
      FieldDone(body, at, position, read);
      FieldTaken(read, field, value);
      read := read + [(field, value)];
      position := position + 1;
      if field == S_FIELD || field == V_FIELD {
        severity := value;
      } else if field == C_FIELD {
        code := value;
      } else if field == M_FIELD {
        message := value;
      }
    }
    NoMoreFields(body, position);
    assert Fields(body) == read + [] == read;
    r := ErrorText(severity, code, message);
  }

  lemma NothingYet()
    ensures ErrorOf([]) == ErrorText(Utf8.Encode("FATAL"), Utf8.Encode("XX000"), [])
  {
  }

  lemma NoMoreFields(body: Bytes, position: nat)
    requires position < |body| ==> body[position] == 0
    ensures position <= |body| ==> Fields(body[position..]) == []
  {
  }

  lemma FieldRead(body: Bytes, at: nat, end: nat)
    requires at < end <= |body| && body[at] != 0
    requires forall i | at < i < end :: body[i] != 0
    requires end < |body| ==> body[end] == 0
    ensures Fields(body[at..]) == [(body[at], body[at + 1..end])] + (if end < |body| then Fields(body[end + 1..]) else [])
  {
    var rest := body[at..];
    if end < |body| {
      FindNulAt(rest, 1, end - at);
      assert rest[1..end - at] == body[at + 1..end] && rest[end - at + 1..] == body[end + 1..];
    } else {
      assert forall i | 1 <= i < |rest| :: rest[i] == body[at + i];
      assert rest[1..] == body[at + 1..end];
    }
  }

  lemma FieldDone(body: Bytes, at: nat, end: nat, read: seq<(byte, Bytes)>)
    requires at < end <= |body| && body[at] != 0
    requires forall i | at < i < end :: body[i] != 0
    requires end < |body| ==> body[end] == 0
    requires Fields(body) == read + Fields(body[at..])
    ensures Fields(body) == read + [(body[at], body[at + 1..end])] + (if end < |body| then Fields(body[end + 1..]) else [])
  {
    hide Fields;
    FieldRead(body, at, end);
  }

  lemma FieldTaken(read: seq<(byte, Bytes)>, field: byte, value: Bytes)
    ensures var (before, after) := (ErrorOf(read), ErrorOf(read + [(field, value)]));
            && after.severity == (if field == S_FIELD || field == V_FIELD then value else before.severity)
            && after.code == (if field == C_FIELD then value else before.code)
            && after.message == (if field == M_FIELD then value else before.message)
  {
    var fields := read + [(field, value)];
    assert fields[..|fields| - 1] == read;
  }

  function PrintFields(fields: seq<(byte, Bytes)>): Bytes {
    if fields == [] then [] else [fields[0].0] + fields[0].1 + [0] + PrintFields(fields[1..])
  }

  predicate PrintableField(field: (byte, Bytes)) {
    field.0 != 0 && 0 !in field.1
  }

  /** Any list of NUL-free fields reads back in order, whatever follows the terminator. */
  lemma {:induction false} FieldsReadBack(fields: seq<(byte, Bytes)>, rest: Bytes)
    requires forall field <- fields :: PrintableField(field)
    ensures Fields(PrintFields(fields) + [0] + rest) == fields
    decreases |fields|
  {
    var body := PrintFields(fields) + [0] + rest;
    if fields != [] {
      var (tag, value) := fields[0];
      assert PrintableField(fields[0]);
      var tail := PrintFields(fields[1..]) + [0] + rest;
      assert body == [tag] + value + [0] + tail;
      assert body[|value| + 1] == 0 && body[1..|value| + 1] == value && body[|value| + 2..] == tail;
      FindNulAt(body, 1, |value| + 1);
      FieldsReadBack(fields[1..], rest);
    }
  }

  /** `prepare_error_buf`. */
  function ErrorBody(severity: string, code: string, message: string): Bytes {
    [S_FIELD] + CString(severity) + [V_FIELD] + CString(severity) + [C_FIELD] + CString(code) + [M_FIELD] + CString(message) + [0]
  }

  /** Reading an ErrorResponse this proxy printed gives back what it said. */
  lemma ErrorRoundTrip(severity: string, code: string, message: string)
    requires '\0' !in severity && '\0' !in code && '\0' !in message
    ensures ErrorOf(Fields(ErrorBody(severity, code, message)))
         == ErrorText(Utf8.Encode(severity), Utf8.Encode(code), Utf8.Encode(message))
  {
    hide *;
    var (s, c, m) := (Utf8.Encode(severity), Utf8.Encode(code), Utf8.Encode(message));
    var fields := [(S_FIELD, s), (V_FIELD, s), (C_FIELD, c), (M_FIELD, m)];
    Utf8.EncodeNul(severity);
    Utf8.EncodeNul(code);
    Utf8.EncodeNul(message);
    ErrorBodyIs(severity, code, message);
    FourPrintable(s, c, m);
    FieldsReadBack(fields, []);
    FourFieldsSay(s, c, m);
  }

  lemma FourPrintable(s: Bytes, c: Bytes, m: Bytes)
    requires 0 !in s && 0 !in c && 0 !in m
    ensures forall field <- [(S_FIELD, s), (V_FIELD, s), (C_FIELD, c), (M_FIELD, m)] :: PrintableField(field)
  {
  }

  lemma ErrorBodyIs(severity: string, code: string, message: string)
    ensures var (s, c, m) := (Utf8.Encode(severity), Utf8.Encode(code), Utf8.Encode(message));
            ErrorBody(severity, code, message) == PrintFields([(S_FIELD, s), (V_FIELD, s), (C_FIELD, c), (M_FIELD, m)]) + [0] + []
  {
    hide Utf8.Encode;
    var (s, c, m) := (Utf8.Encode(severity), Utf8.Encode(code), Utf8.Encode(message));
    FourFields([(S_FIELD, s), (V_FIELD, s), (C_FIELD, c), (M_FIELD, m)]);
  }

  lemma FourFieldsSay(s: Bytes, c: Bytes, m: Bytes)
    ensures ErrorOf([(S_FIELD, s), (V_FIELD, s), (C_FIELD, c), (M_FIELD, m)]) == ErrorText(s, c, m)
  {
    hide ErrorOf;
    FieldTaken([(S_FIELD, s), (V_FIELD, s), (C_FIELD, c)], M_FIELD, m);
    FieldTaken([(S_FIELD, s), (V_FIELD, s)], C_FIELD, c);
    FieldTaken([(S_FIELD, s)], V_FIELD, s);
    assert [(S_FIELD, s)] + [(V_FIELD, s)] == [(S_FIELD, s), (V_FIELD, s)];
    assert [(S_FIELD, s), (V_FIELD, s)] + [(C_FIELD, c)] == [(S_FIELD, s), (V_FIELD, s), (C_FIELD, c)];
    assert [(S_FIELD, s), (V_FIELD, s), (C_FIELD, c)] + [(M_FIELD, m)] == [(S_FIELD, s), (V_FIELD, s), (C_FIELD, c), (M_FIELD, m)];
  }

  lemma FourFields(f: seq<(byte, Bytes)>)
    requires |f| == 4
    ensures PrintFields(f)
         == [f[0].0] + f[0].1 + [0] + [f[1].0] + f[1].1 + [0] + [f[2].0] + f[2].1 + [0] + [f[3].0] + f[3].1 + [0]
  {
    assert f[1..][1..] == f[2..] && f[2..][1..] == f[3..] && f[3..][1..] == [];
    assert PrintFields(f[3..]) == [f[3].0] + f[3].1 + [0] + [];
    assert PrintFields(f[2..]) == [f[2].0] + f[2].1 + [0] + PrintFields(f[3..]);
    assert PrintFields(f[1..]) == [f[1].0] + f[1].1 + [0] + PrintFields(f[2..]);
  }
}
