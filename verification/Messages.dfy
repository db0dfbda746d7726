/**
 Whole messages (D-Bus Specification, "Message Format" and "Header Fields"): written,
 measured from their first sixteen bytes, and read back.
 */
module Messages {
  import opened Results
  import opened Bytes
  import opened Utf8Text
  import opened Signatures
  import opened Wire
  import Codec

  const PROTOCOL_VERSION: byte := 1
  const LITTLE_ENDIAN: byte := 108  // 'l'
  const FIXED_HEADER: nat := 16
  const MAX_MESSAGE: nat := 0x800_0000
  const MAX_INCOMING: nat := 0x100_0000

  const METHOD_CALL: byte := 1
  const METHOD_RETURN: byte := 2
  const ERROR: byte := 3

  const FIELD_PATH: byte := 1
  const FIELD_INTERFACE: byte := 2
  const FIELD_MEMBER: byte := 3
  const FIELD_ERROR_NAME: byte := 4
  const FIELD_REPLY_SERIAL: byte := 5
  const FIELD_DESTINATION: byte := 6
  const FIELD_SENDER: byte := 7
  const FIELD_SIGNATURE: byte := 8
  const FIELD_UNIX_FDS: byte := 9

  /** `yyyyuua(yv)` */
  const HEADER_SIG: seq<byte> := [121, 121, 121, 121, 117, 117, 97, 40, 121, 118, 41]

  const FIELD_TYPE: Type := Type.Struct([Type.Byte, Type.Variant])

  const HEADER_TYPES: seq<Type> :=
    [Type.Byte, Type.Byte, Type.Byte, Type.Byte, Type.Uint32, Type.Uint32, Type.Array(FIELD_TYPE)]

  datatype Field = Field(code: byte, value: Value)

  /** One message off the wire, its body still marshalled. */
  datatype Message = Message(
    kind: byte,
    replySerial: Option<u32>,
    errorName: Option<Text>,
    sender: Option<Text>,
    signature: Text,
    unixFds: u32,
    body: seq<byte>)

  // ----- writing -----

  function FieldValue(field: Field): Value {
    Value.Struct([Value.Byte(field.code), Value.Variant(field.value)])
  }

  function FieldValues(fields: seq<Field>): (vs: seq<Value>)
    ensures |vs| == |fields|
    ensures forall i :: 0 <= i < |fields| ==> vs[i] == FieldValue(fields[i])
  {
    seq(|fields|, i requires 0 <= i < |fields| => FieldValue(fields[i]))
  }

  function HeaderValues(kind: byte, flags: byte, serial: u32, fields: seq<Field>, bodyLen: nat): seq<Value>
    requires bodyLen <= MAX_MESSAGE
  {
    [ Value.Byte(LITTLE_ENDIAN), Value.Byte(kind), Value.Byte(flags), Value.Byte(PROTOCOL_VERSION),
      Value.Uint32(bodyLen), Value.Uint32(serial), Value.Array(FieldValues(fields)) ]
  }

  /** `encode_message`: the header, padding to 8, the body. */
  function EncodeMessage(kind: byte, flags: byte, serial: u32, fields: seq<Field>, body: seq<byte>)
    : Wired<seq<byte>>
  {
    if |body| > MAX_MESSAGE then Err(MessageTooLong(|body|))
    else
      var header :- Encode(HEADER_SIG, HeaderValues(kind, flags, serial, fields, |body|));
      var message := header + Zeros(PadLen(|header|, 8)) + body;
      if |message| > MAX_MESSAGE then Err(MessageTooLong(|message|)) else Ok(message)
  }

  method WriteMessage(kind: byte, flags: byte, serial: u32, fields: seq<Field>, body: seq<byte>)
    returns (r: Wired<seq<byte>>)
    ensures r == EncodeMessage(kind, flags, serial, fields, body)
  {
    hide Encode;
    if |body| > MAX_MESSAGE {
      return Err(MessageTooLong(|body|));
    }
    var header := Codec.EncodeBlock(HEADER_SIG, HeaderValues(kind, flags, serial, fields, |body|));
    if header.Err? {
      return header;
    }
    var message := new Codec.Buffer();
    message.Push(header.value);
    message.Pad(8);
    message.Push(body);
    assert [] + header.value == header.value;
    if |message.data| > MAX_MESSAGE {
      return Err(MessageTooLong(|message.data|));
    }
    r := Ok(message.data);
  }

  // ----- measuring -----

  /** `n` rounded up to a multiple of `align`. */
  function AlignUp(n: nat, align: nat): nat
    requires align != 0
  {
    (n + align - 1) / align * align
  }

  /** `frame`: where the body of the message `head` begins with starts, and how long it is. */
  function Frame(head: seq<byte>): (r: Wired<(nat, nat)>)
    ensures r.Ok? ==> |head| >= FIXED_HEADER && FIXED_HEADER <= r.value.0
    ensures r.Ok? ==> r.value.0 % 8 == 0 && r.value.0 + r.value.1 <= MAX_INCOMING
  {
    if |head| < FIXED_HEADER then Err(Truncated)
    else if head[0] != LITTLE_ENDIAN then Err(Endianness(head[0]))
    else if head[3] != PROTOCOL_VERSION then Err(BadMessage("a message of an unknown version"))
    else
      var bodyLen := UnLe(head[4..8]);
      var fieldsLen := UnLe(head[12..16]);
      if fieldsLen > MAX_ARRAY then Err(ArrayTooLong(fieldsLen))
      else if bodyLen > MAX_INCOMING then Err(MessageTooLong(bodyLen))
      else
        var bodyAt := AlignUp(FIXED_HEADER + fieldsLen, 8);
        if bodyAt + bodyLen > MAX_INCOMING then Err(MessageTooLong(bodyAt + bodyLen))
        else Ok((bodyAt, bodyLen))
  }

  lemma AlignUpPads(n: nat)
    ensures AlignUp(n, 8) == n + PadLen(n, 8)
  {
  }

  /** A message is measured by its fixed header alone, however much follows it. */
  lemma FrameOfPrefix(head: seq<byte>, more: seq<byte>)
    requires |head| >= FIXED_HEADER && head <= more
    ensures Frame(more) == Frame(head)
  {
    assert more[4..8] == head[4..8] && more[12..16] == head[12..16];
  }

  // ----- reading -----

  /** What the known header fields say, gathered field by field. */
  datatype Fields = Fields(
    replySerial: Option<u32>,
    errorName: Option<Text>,
    sender: Option<Text>,
    signature: Text,
    unixFds: u32)

  const NO_FIELDS: Fields := Fields(None, None, None, [], 0)

  /** Whether a header field has the type "Header Fields" gives its code; unknown codes may have any. */
  predicate WellTyped(code: byte, v: Value) {
    if code == FIELD_REPLY_SERIAL || code == FIELD_UNIX_FDS then v.Uint32?
    else if code == FIELD_ERROR_NAME || code == FIELD_SENDER then v.Str?
    else if code == FIELD_SIGNATURE then v.Signature?
    else if code == FIELD_PATH then v.ObjectPath?
    else if code == FIELD_INTERFACE || code == FIELD_MEMBER || code == FIELD_DESTINATION then v.Str?
    else true
  }

  function Gather(known: Fields, code: byte, v: Value): Fields
    requires WellTyped(code, v)
  {
    if code == FIELD_REPLY_SERIAL then known.(replySerial := Some(v.uint32))
    else if code == FIELD_ERROR_NAME then known.(errorName := Some(v.text))
    else if code == FIELD_SENDER then known.(sender := Some(v.text))
    else if code == FIELD_SIGNATURE then known.(signature := v.sig)
    else if code == FIELD_UNIX_FDS then known.(unixFds := v.uint32)
    else known
  }

  function GatherAll(known: Fields, seen: seq<byte>, fields: seq<Value>): Wired<Fields>
    decreases |fields|
  {
    if fields == [] then Ok(known)
    else
      var field := fields[0];
      if !(field.Struct? && |field.fields| == 2 && field.fields[0].Byte? && field.fields[1].Variant?)
      then Err(BadMessage("a header field it could not read"))
      else
        var code, v := field.fields[0].octet, field.fields[1].inner;
        if code in seen then Err(BadMessage("a header field twice"))
        else if !WellTyped(code, v) then Err(BadMessage("a header field of the wrong type"))
        else GatherAll(Gather(known, code, v), seen + [code], fields[1..])
  }

  /** `decode_message` */
  function DecodeMessage(message: seq<byte>): Wired<Message> {
    var framed :- Frame(message);
    var fieldsEnd := FIXED_HEADER + UnLe(message[12..16]);
    var header :- Take(message, 0, fieldsEnd);
    var values :- Decode(HEADER_SIG, header);
    if !(|values| == 7 && values[1].Byte? && values[6].Array?) then Err(BadMessage("a header it could not read"))
    else
      AlignUpPads(fieldsEnd);
      var padding :- Take(message, fieldsEnd, framed.0 - fieldsEnd);
      if !AllZero(padding) then Err(Padding)
      else
        var body :- Take(message, framed.0, framed.1);
        var known :- GatherAll(NO_FIELDS, [], values[6].items);
        if known.signature == [] && body != [] then Err(BadMessage("a body with no signature"))
        else
          Ok(Message(values[1].octet, known.replySerial, known.errorName, known.sender,
                     known.signature, known.unixFds, body))
  }

  /** `decode_message` as it runs: the header fields are walked in a loop. */
  method ReadMessage(message: seq<byte>) returns (r: Wired<Message>)
    ensures r == DecodeMessage(message)
  {
    hide Decode, Utf8;
    var framed := Frame(message);
    if framed.Err? {
      return Err(framed.error);
    }
    var (bodyAt, bodyLen) := framed.value;
    var fieldsEnd := FIXED_HEADER + UnLe(message[12..16]);
    if fieldsEnd > |message| {
      return Err(Truncated);
    }
    var values := Codec.DecodeBlock(HEADER_SIG, message[0..fieldsEnd]);
    if values.Err? {
      return Err(values.error);
    }
    if !(|values.value| == 7 && values.value[1].Byte? && values.value[6].Array?) {
      return Err(BadMessage("a header it could not read"));
    }
    AlignUpPads(fieldsEnd);
    if bodyAt > |message| {
      return Err(Truncated);
    }
    if !AllZero(message[fieldsEnd..bodyAt]) {
      return Err(Padding);
    }
    if bodyAt + bodyLen > |message| {
      return Err(Truncated);
    }
    var body := message[bodyAt..bodyAt + bodyLen];
    var known := ReadFields(values.value[6].items);
    if known.Err? {
      return Err(known.error);
    }
    if known.value.signature == [] && body != [] {
      return Err(BadMessage("a body with no signature"));
    }
    r := Ok(Message(values.value[1].octet, known.value.replySerial, known.value.errorName,
                    known.value.sender, known.value.signature, known.value.unixFds, body));
  }

  method ReadFields(fields: seq<Value>) returns (r: Wired<Fields>)
    ensures r == GatherAll(NO_FIELDS, [], fields)
  {
    var known := NO_FIELDS;
    var seen: seq<byte> := [];
    var i := 0;
    assert fields[0..] == fields;
    while i < |fields|
      invariant i <= |fields|
      invariant GatherAll(NO_FIELDS, [], fields) == GatherAll(known, seen, fields[i..])
    {
      var field := fields[i];
      assert fields[i..][0] == field && fields[i..][1..] == fields[i + 1..];
      if !(field.Struct? && |field.fields| == 2 && field.fields[0].Byte? && field.fields[1].Variant?) {
        return Err(BadMessage("a header field it could not read"));
      }
      var code, v := field.fields[0].octet, field.fields[1].inner;
      if code in seen {
        return Err(BadMessage("a header field twice"));
      }
      if !WellTyped(code, v) {
        return Err(BadMessage("a header field of the wrong type"));
      }
      known := Gather(known, code, v);
      seen := seen + [code];
      i := i + 1;
    }
    r := Ok(known);
  }
}
