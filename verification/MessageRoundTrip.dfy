/** What `encode_message` writes, `frame` measures and `decode_message` reads back. */
module MessageRoundTrip {
  import opened Results
  import opened Bytes
  import opened Utf8Text
  import opened Signatures
  import opened Wire
  import opened RoundTrip
  import opened Messages

  // ----- the layout of a header -----

  lemma HeaderSignature()
    ensures ParseSignature(HEADER_SIG) == Some(HEADER_TYPES)
  {
    hide Render, RenderAll, Legal, ParseSignature;
    HeaderRenders();
    FieldTypeRenders();
    BasicRenders();
    SignatureIffRendered(HEADER_SIG, HEADER_TYPES);
  }

  lemma HeaderRenders()
    ensures RenderAll(HEADER_TYPES) == HEADER_SIG
  {
    hide Render, RenderAll, Legal;
    FieldTypeRenders();
    BasicRenders();
    var t1 := [Type.Array(FIELD_TYPE)];
    var t2 := [Type.Uint32] + t1;
    var t3 := [Type.Uint32] + t2;
    var t4 := [Type.Byte] + t3;
    var t5 := [Type.Byte] + t4;
    var t6 := [Type.Byte] + t5;
    RenderLast(Type.Array(FIELD_TYPE));
    RenderHead(Type.Uint32, t1);
    RenderHead(Type.Uint32, t2);
    RenderHead(Type.Byte, t3);
    RenderHead(Type.Byte, t4);
    RenderHead(Type.Byte, t5);
    RenderHead(Type.Byte, t6);
    assert [Type.Byte] + t6 == HEADER_TYPES;
  }

  lemma RenderLast(ty: Type)
    ensures RenderAll([ty]) == Render(ty)
  {
    hide Render;
    assert RenderAll([ty]) == Render(ty) + RenderAll([]);
  }

  lemma FieldTypeRenders()
    ensures Render(Type.Array(FIELD_TYPE)) == [97, 40, 121, 118, 41]
    ensures Legal(Type.Array(FIELD_TYPE), 0, 0)
  {
    var pair := [Type.Byte, Type.Variant];
    assert RenderAll(pair) == [121, 118] by {
      assert RenderAll(pair) == Render(Type.Byte) + RenderAll(pair[1..]);
      assert RenderAll(pair[1..]) == Render(Type.Variant) + RenderAll([]);
    }
    assert Render(Type.Array(FIELD_TYPE)) == [97] + ([40] + [121, 118] + [41]);
  }

  lemma BasicRenders()
    ensures Render(Type.Byte) == [121] && Legal(Type.Byte, 0, 0)
    ensures Render(Type.Uint32) == [117] && Legal(Type.Uint32, 0, 0)
  {
  }

  lemma RenderHead(ty: Type, types: seq<Type>)
    ensures RenderAll([ty] + types) == Render(ty) + RenderAll(types)
  {
    hide Render;
    assert ([ty] + types)[1..] == types;
  }

  function Prepend(bytes: seq<byte>, rest: Wired<seq<byte>>): Wired<seq<byte>> {
    if rest.Ok? then Ok(bytes + rest.value) else rest
  }

  lemma ByteFirst(pos: nat, b: byte, types: seq<Type>, vs: seq<Value>)
    requires |types| == |vs|
    ensures EncFields(pos, [Type.Byte] + types, [Value.Byte(b)] + vs, 0)
         == Prepend([b], EncFields(pos + 1, types, vs, 0))
  {
    assert ([Type.Byte] + types)[1..] == types && ([Value.Byte(b)] + vs)[1..] == vs;
    assert Le(b, 1) == [b];
    assert Enc(pos, Type.Byte, Value.Byte(b), 0) == Ok([b]) by {
      assert Zeros(0) + [b] == [b];
    }
  }

  lemma WordFirst(pos: nat, n: u32, types: seq<Type>, vs: seq<Value>)
    requires |types| == |vs| && pos % 4 == 0
    ensures EncFields(pos, [Type.Uint32] + types, [Value.Uint32(n)] + vs, 0)
         == Prepend(Le(n, 4), EncFields(pos + 4, types, vs, 0))
  {
    hide Le;
    assert ([Type.Uint32] + types)[1..] == types && ([Value.Uint32(n)] + vs)[1..] == vs;
    assert Enc(pos, Type.Uint32, Value.Uint32(n), 0) == Ok(Le(n, 4)) by {
      assert Zeros(0) + Le(n, 4) == Le(n, 4);
    }
  }

  lemma FieldsLast(fields: seq<Field>)
    ensures
      var v := Value.Array(FieldValues(fields));
      var whole := EncFields(12, [Type.Array(FIELD_TYPE)], [v], 0);
      match EncItems(16, FIELD_TYPE, v.items, 1)
      case Ok(es) => whole == if |es| > MAX_ARRAY then Err(ArrayTooLong(|es|)) else Ok(Le(|es|, 4) + es)
      case Err(why) => whole == Err(why)
  {
    hide EncItems, Le;
    var v := Value.Array(FieldValues(fields));
    var arr := EncArray(12, FIELD_TYPE, v, 0);
    ArrayShape(12, FIELD_TYPE, v, 0);
    assert EncElements(16, FIELD_TYPE, v, 1) == EncItems(16, FIELD_TYPE, v.items, 1);
    assert Enc(12, Type.Array(FIELD_TYPE), v, 0) == arr by {
      if arr.Ok? {
        assert Zeros(0) + arr.value == arr.value;
      }
    }
    if arr.Ok? {
      var es := EncElements(16, FIELD_TYPE, v, 1).value;
      assert Le(|es|, 4) + Zeros(0) + es == Le(|es|, 4) + es;
      assert arr.value + [] == arr.value;
    }
  }

  /** The sixteen fixed bytes, ending in the length of the field array that follows them. */
  function FixedPart(kind: byte, flags: byte, serial: u32, bodyLen: nat, fieldsLen: nat): (head: seq<byte>)
    ensures |head| == FIXED_HEADER
  {
    [LITTLE_ENDIAN, kind, flags, PROTOCOL_VERSION] + Le(bodyLen, 4) + Le(serial, 4) + Le(fieldsLen, 4)
  }

  lemma HeaderLayout(kind: byte, flags: byte, serial: u32, fields: seq<Field>, bodyLen: nat)
    requires bodyLen <= MAX_MESSAGE
    ensures
      var whole := Encode(HEADER_SIG, HeaderValues(kind, flags, serial, fields, bodyLen));
      match EncItems(16, FIELD_TYPE, FieldValues(fields), 1)
      case Ok(es) =>
        whole == if |es| > MAX_ARRAY then Err(ArrayTooLong(|es|))
                 else Ok(FixedPart(kind, flags, serial, bodyLen, |es|) + es)
      case Err(why) => whole == Err(why)
  {
    hide EncFields, EncItems, Le, ParseSignature;
    HeaderSignature();
    var t7, v7 := [Type.Array(FIELD_TYPE)], [Value.Array(FieldValues(fields))];
    var t6, v6 := [Type.Uint32] + t7, [Value.Uint32(serial)] + v7;
    var t5, v5 := [Type.Uint32] + t6, [Value.Uint32(bodyLen)] + v6;
    var t4, v4 := [Type.Byte] + t5, [Value.Byte(PROTOCOL_VERSION)] + v5;
    var t3, v3 := [Type.Byte] + t4, [Value.Byte(flags)] + v4;
    var t2, v2 := [Type.Byte] + t3, [Value.Byte(kind)] + v3;
    assert HEADER_TYPES == [Type.Byte] + t2;
    assert HeaderValues(kind, flags, serial, fields, bodyLen) == [Value.Byte(LITTLE_ENDIAN)] + v2;
    ByteFirst(0, LITTLE_ENDIAN, t2, v2);
    ByteFirst(1, kind, t3, v3);
    ByteFirst(2, flags, t4, v4);
    ByteFirst(3, PROTOCOL_VERSION, t5, v5);
    WordFirst(4, bodyLen, t6, v6);
    WordFirst(8, serial, t7, v7);
    FieldsLast(fields);
    var es := EncItems(16, FIELD_TYPE, FieldValues(fields), 1);
    if es.Ok? && |es.value| <= MAX_ARRAY {
      assert [LITTLE_ENDIAN] + ([kind] + ([flags] + ([PROTOCOL_VERSION]
               + (Le(bodyLen, 4) + (Le(serial, 4) + (Le(|es.value|, 4) + es.value))))))
          == FixedPart(kind, flags, serial, bodyLen, |es.value|) + es.value;
    }
  }

  // ----- what the fixed part says of the whole message -----

  lemma FixedPartReads(kind: byte, flags: byte, serial: u32, bodyLen: nat, fieldsLen: nat, message: seq<byte>)
    requires bodyLen < 0x1_0000_0000 && fieldsLen < 0x1_0000_0000
    requires FixedPart(kind, flags, serial, bodyLen, fieldsLen) <= message
    ensures message[0] == LITTLE_ENDIAN && message[3] == PROTOCOL_VERSION
    ensures UnLe(message[4..8]) == bodyLen && UnLe(message[12..16]) == fieldsLen
  {
    hide Le, UnLe;
    var head := FixedPart(kind, flags, serial, bodyLen, fieldsLen);
    Powers();
    UnLeOfLe(bodyLen, 4);
    UnLeOfLe(fieldsLen, 4);
    assert message[4..8] == head[4..8] == Le(bodyLen, 4);
    assert message[12..16] == head[12..16] == Le(fieldsLen, 4);
  }

  /** A message within the limits is framed so that its body ends where it does, at a multiple of 8. */
  lemma FrameOfEncoded(kind: byte, flags: byte, serial: u32, fields: seq<Field>, body: seq<byte>)
    requires EncodeMessage(kind, flags, serial, fields, body).Ok?
    ensures var message := EncodeMessage(kind, flags, serial, fields, body).value;
            && |message| >= FIXED_HEADER
            && |body| <= |message|
            && var bodyAt := |message| - |body|;
            && bodyAt % 8 == 0
            && message[bodyAt..] == body
            && Frame(message) == if |body| > MAX_INCOMING then Err(MessageTooLong(|body|))
                                 else if |message| > MAX_INCOMING then Err(MessageTooLong(|message|))
                                 else Ok((bodyAt, |body|))
  {
    hide Encode, EncItems, Le, UnLe;
    var message := EncodeMessage(kind, flags, serial, fields, body).value;
    HeaderLayout(kind, flags, serial, fields, |body|);
    var es := EncItems(16, FIELD_TYPE, FieldValues(fields), 1).value;
    var head := FixedPart(kind, flags, serial, |body|, |es|);
    assert message == head + (es + Zeros(PadLen(16 + |es|, 8)) + body);
    FixedPartReads(kind, flags, serial, |body|, |es|, message);
    AlignUpPads(16 + |es|);
  }

  // ----- the header fields -----

  /** The value a message gives a header field. */
  function Lookup(fields: seq<Field>, code: byte): Option<Value> {
    if fields == [] then None
    else if fields[0].code == code then Some(fields[0].value)
    else Lookup(fields[1..], code)
  }

  predicate AllWellTyped(fields: seq<Field>) {
    forall i :: 0 <= i < |fields| ==> WellTyped(fields[i].code, fields[i].value)
  }

  predicate Distinct(fields: seq<Field>) {
    forall i, j :: 0 <= i < j < |fields| ==> fields[i].code != fields[j].code
  }

  lemma {:induction false} LookupTyped(fields: seq<Field>, code: byte)
    requires AllWellTyped(fields)
    ensures Lookup(fields, code).Some? ==> WellTyped(code, Lookup(fields, code).value)
  {
    if fields != [] {
      LookupTyped(fields[1..], code);
    }
  }

  /** The known fields as `fields` gives them, and as `known` has them otherwise. */
  function Override(known: Fields, fields: seq<Field>): Fields
    requires AllWellTyped(fields)
  {
    LookupTyped(fields, FIELD_REPLY_SERIAL);
    LookupTyped(fields, FIELD_ERROR_NAME);
    LookupTyped(fields, FIELD_SENDER);
    LookupTyped(fields, FIELD_SIGNATURE);
    LookupTyped(fields, FIELD_UNIX_FDS);
    var reply := Lookup(fields, FIELD_REPLY_SERIAL);
    var error := Lookup(fields, FIELD_ERROR_NAME);
    var sender := Lookup(fields, FIELD_SENDER);
    var signature := Lookup(fields, FIELD_SIGNATURE);
    var fds := Lookup(fields, FIELD_UNIX_FDS);
    Fields(
      if reply.Some? then Some(reply.value.uint32) else known.replySerial,
      if error.Some? then Some(error.value.text) else known.errorName,
      if sender.Some? then Some(sender.value.text) else known.sender,
      if signature.Some? then signature.value.sig else known.signature,
      if fds.Some? then fds.value.uint32 else known.unixFds)
  }

  predicate Fresh(seen: seq<byte>, fields: seq<Field>) {
    forall i :: 0 <= i < |fields| ==> fields[i].code !in seen
  }

  lemma {:induction false} LookupAbsent(fields: seq<Field>, code: byte)
    requires forall i :: 0 <= i < |fields| ==> fields[i].code != code
    ensures Lookup(fields, code).None?
  {
    if fields != [] {
      LookupAbsent(fields[1..], code);
    }
  }

  /** Fields are gathered exactly when none comes twice and each known one has its type. */
  lemma {:induction false} Gathered(known: Fields, seen: seq<byte>, fields: seq<Field>)
    ensures
      var r := GatherAll(known, seen, FieldValues(fields));
      if Distinct(fields) && Fresh(seen, fields) && AllWellTyped(fields)
      then r == Ok(Override(known, fields))
      else r.Err? && r.error.BadMessage?
    decreases |fields|
  {
    hide Utf8;
    if fields != [] {
      var field, rest := fields[0], fields[1..];
      assert FieldValues(fields)[1..] == FieldValues(rest);
      if field.code !in seen && WellTyped(field.code, field.value) {
        var next := Gather(known, field.code, field.value);
        Gathered(next, seen + [field.code], rest);
        SplitFirst(seen, fields);
        if Distinct(fields) && Fresh(seen, fields) && AllWellTyped(fields) {
          LookupAbsent(rest, field.code);
        }
      }
    }
  }

  lemma SplitFirst(seen: seq<byte>, fields: seq<Field>)
    requires fields != [] && fields[0].code !in seen && WellTyped(fields[0].code, fields[0].value)
    ensures (Distinct(fields) && Fresh(seen, fields) && AllWellTyped(fields)) <==>
            (Distinct(fields[1..]) && Fresh(seen + [fields[0].code], fields[1..]) && AllWellTyped(fields[1..]))
  {
    var code, rest := fields[0].code, fields[1..];
    if Distinct(rest) && Fresh(seen + [code], rest) && AllWellTyped(rest) {
      forall i, j | 0 <= i < j < |fields|
        ensures fields[i].code != fields[j].code
      {
        assert rest[j - 1] == fields[j];
        assert rest[j - 1].code !in seen + [code];
        if i > 0 {
          assert rest[i - 1] == fields[i];
        }
      }
      forall i | 0 <= i < |fields|
        ensures fields[i].code !in seen && WellTyped(fields[i].code, fields[i].value)
      {
        if i > 0 {
          assert rest[i - 1] == fields[i];
          assert rest[i - 1].code !in seen + [code];
        }
      }
    }
    if Distinct(fields) && Fresh(seen, fields) && AllWellTyped(fields) {
      forall i | 0 <= i < |rest|
        ensures rest[i].code !in seen + [code]
      {
        assert rest[i] == fields[i + 1];
      }
      assert forall i :: 0 <= i < |rest| ==> rest[i] == fields[i + 1];
    }
  }

  // ----- the whole message -----

  /** What a peer must have put in a message for it to be read, beyond its being well formed. */
  predicate Readable(fields: seq<Field>, body: seq<byte>) {
    && Distinct(fields) && AllWellTyped(fields)
    && (body == [] || (Lookup(fields, FIELD_SIGNATURE).Some?
                       && Lookup(fields, FIELD_SIGNATURE).value.Signature?
                       && Lookup(fields, FIELD_SIGNATURE).value.sig != []))
  }

  /**
   A message this client or a conforming peer marshals comes back whole: its kind, its body
   and every header field it names, when no field comes twice, each has its type and a body
   has a signature; and it is refused as malformed otherwise.
   */
  lemma {:induction false} DecodeOfEncodedMessage(
    kind: byte, flags: byte, serial: u32, fields: seq<Field>, body: seq<byte>)
    requires EncodeMessage(kind, flags, serial, fields, body).Ok?
    requires |EncodeMessage(kind, flags, serial, fields, body).value| <= MAX_INCOMING
    requires CostAll(HeaderValues(kind, flags, serial, fields, |body|)) <= MAX_VALUES
    ensures
      var r := DecodeMessage(EncodeMessage(kind, flags, serial, fields, body).value);
      if Readable(fields, body) then
        var known := Override(NO_FIELDS, fields);
        r == Ok(Message(kind, known.replySerial, known.errorName, known.sender,
                        known.signature, known.unixFds, body))
      else r.Err? && r.error.BadMessage?
  {
    hide Encode, Decode, EncItems, Frame, Le, UnLe, GatherAll, Override, Utf8, Cost, CostAll, PadLen;
    var vs := HeaderValues(kind, flags, serial, fields, |body|);
    var message := EncodeMessage(kind, flags, serial, fields, body).value;
    var fieldsEnd := |Encode(HEADER_SIG, vs).value|;
    FrameOfEncoded(kind, flags, serial, fields, body);
    HeaderOfEncoded(kind, flags, serial, fields, body);
    DecodeOfEncode(HEADER_SIG, vs);
    AllZeroIsZeros(Zeros(PadLen(fieldsEnd, 8)));
    assert message[|message| - |body|..|message|] == body;
    Gathered(NO_FIELDS, [], fields);
    if AllWellTyped(fields) {
      SignatureOverridden(fields);
    }
  }

  /** The header of an encoded message, cut out where its fixed part says it ends. */
  lemma HeaderOfEncoded(kind: byte, flags: byte, serial: u32, fields: seq<Field>, body: seq<byte>)
    requires EncodeMessage(kind, flags, serial, fields, body).Ok?
    ensures
      var message := EncodeMessage(kind, flags, serial, fields, body).value;
      var header := Encode(HEADER_SIG, HeaderValues(kind, flags, serial, fields, |body|)).value;
      && |header| <= |message| - |body|
      && |message| >= FIXED_HEADER
      && FIXED_HEADER + UnLe(message[12..16]) == |header|
      && message[0..|header|] == header
      && AllZero(message[|header|..|message| - |body|])
  {
    hide Encode, EncItems, Le, UnLe;
    var message := EncodeMessage(kind, flags, serial, fields, body).value;
    var header := Encode(HEADER_SIG, HeaderValues(kind, flags, serial, fields, |body|)).value;
    HeaderLayout(kind, flags, serial, fields, |body|);
    var es := EncItems(16, FIELD_TYPE, FieldValues(fields), 1).value;
    assert message == header + Zeros(PadLen(|header|, 8)) + body;
    assert FixedPart(kind, flags, serial, |body|, |es|) <= header <= message;
    FixedPartReads(kind, flags, serial, |body|, |es|, message);
    assert message[|header|..|message| - |body|] == Zeros(PadLen(|header|, 8));
  }

  lemma SignatureOverridden(fields: seq<Field>)
    requires AllWellTyped(fields)
    ensures Override(NO_FIELDS, fields).signature == [] <==>
            !(&& Lookup(fields, FIELD_SIGNATURE).Some?
              && Lookup(fields, FIELD_SIGNATURE).value.Signature?
              && Lookup(fields, FIELD_SIGNATURE).value.sig != [])
  {
    LookupTyped(fields, FIELD_SIGNATURE);
  }
}
