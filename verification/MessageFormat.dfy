/**
 Messages as the D-Bus Specification has them ("Message Format", "Header Fields"), said of their
 bytes: what `encode_message` writes is one, and `decode_message` understands exactly them.
 */
module MessageFormat {
  import opened Results
  import opened Bytes
  import opened Utf8Text
  import opened Signatures
  import opened Wire
  import opened RoundTrip
  import opened Canonical
  import opened Messages
  import opened MessageRoundTrip
  import opened Format
  import opened Conformance

  // ----- the format -----

  /** `b` is a block of the signature `text`. */
  ghost predicate TextBlock(text: string, b: seq<byte>, vs: seq<Value>) {
    exists sig: seq<byte> :: SpelledOut(sig, text) && BlockAt(sig, b, vs)
  }

  /**
   A header: the letter `l`, the kind of message, flags, version 1, the length of the body, the
   serial, and the header fields, each a code and a value of any one type.
   */
  ghost predicate HeaderAt(h: seq<byte>, kind: byte, flags: byte, serial: u32, bodyLen: u32, fields: seq<Field>) {
    TextBlock("yyyyuua(yv)", h,
      [ Value.Byte('l' as int), Value.Byte(kind), Value.Byte(flags), Value.Byte(1),
        Value.Uint32(bodyLen), Value.Uint32(serial), Value.Array(FieldValues(fields)) ])
  }

  /** A message: its header, NULs up to a boundary of 8, and its body. */
  ghost predicate MessageAt(
    b: seq<byte>, end: nat, kind: byte, flags: byte, serial: u32, fields: seq<Field>, body: seq<byte>)
  {
    && end <= |b| && |body| < 0x1_0000_0000
    && HeaderAt(b[..end], kind, flags, serial, |body|, fields)
    && |b| == First(end, 8) + |body| && NulBetween(b, end, First(end, 8)) && b[First(end, 8)..] == body
  }

  lemma HeaderText()
    ensures SpelledOut(HEADER_SIG, "yyyyuua(yv)")
  {
  }

  lemma HeaderBlock(h: seq<byte>, vs: seq<Value>)
    ensures TextBlock("yyyyuua(yv)", h, vs) <==> BlockAt(HEADER_SIG, h, vs)
  {
    hide BlockAt, SpelledOut;
    HeaderText();
    if TextBlock("yyyyuua(yv)", h, vs) {
      var sig: seq<byte> :| SpelledOut(sig, "yyyyuua(yv)") && BlockAt(sig, h, vs);
      SpelledOnce(sig, HEADER_SIG, "yyyyuua(yv)");
    }
  }

  /** What is marshalled is a message, with the fields and the body it was to have. */
  lemma EncodedMessageIs(kind: byte, flags: byte, serial: u32, fields: seq<Field>, body: seq<byte>)
    requires EncodeMessage(kind, flags, serial, fields, body).Ok?
    ensures exists end: nat ::
              MessageAt(EncodeMessage(kind, flags, serial, fields, body).value, end, kind, flags, serial, fields, body)
  {
    hide Encode, BlockAt, First, HeaderAt, TextBlock;
    var vs := HeaderValues(kind, flags, serial, fields, |body|);
    var header := Encode(HEADER_SIG, vs).value;
    var message := EncodeMessage(kind, flags, serial, fields, body).value;
    EncodeIsOfTheFormat(HEADER_SIG, vs);
    HeaderBlock(header, vs);
    PaddingIsLeast(|header|, 8);
    assert message == header + (Zeros(PadLen(|header|, 8)) + body);
    assert message[..|header|] == header;
    assert message[|header| + PadLen(|header|, 8)..] == body;
    HeaderIsBlock(header, kind, flags, serial, |body|, fields);
    assert NulBetween(message, |header|, First(|header|, 8)) by {
      assert forall i :: |header| <= i < First(|header|, 8) ==> message[i] == Zeros(PadLen(|header|, 8))[i - |header|];
    }
    assert MessageAt(message, |header|, kind, flags, serial, fields, body);
  }

  /** And every message is so marshalled, up to 2^27 bytes, whose fields can be named and counted; none longer is. */
  lemma EncodeWritesEveryMessage(
    b: seq<byte>, end: nat, kind: byte, flags: byte, serial: u32, fields: seq<Field>, body: seq<byte>)
    requires MessageAt(b, end, kind, flags, serial, fields, body)
    requires AllReencodable(FieldValues(fields)) && 7 + CostAll(FieldValues(fields)) <= 1048576
    ensures |b| <= 134217728 ==> EncodeMessage(kind, flags, serial, fields, body) == Ok(b)
    ensures |b| > 134217728 ==> EncodeMessage(kind, flags, serial, fields, body).Err?
                                && EncodeMessage(kind, flags, serial, fields, body).error.MessageTooLong?
  {
    hide Encode, BlockAt, First, HeaderAt, TextBlock, AllReencodable;
    if |body| <= MAX_MESSAGE {
      var vs := HeaderValues(kind, flags, serial, fields, |body|);
      HeaderIsBlock(b[..end], kind, flags, serial, |body|, fields);
      HeaderBlock(b[..end], vs);
      HeaderCost(kind, flags, serial, fields, |body|);
      HeaderReencodes(kind, flags, serial, fields, |body|);
      EncodeWritesEveryBlock(HEADER_SIG, b[..end], vs);
      PaddingIsLeast(end, 8);
      NulsAre(b, end, First(end, 8));
      assert b == b[..end] + b[end..First(end, 8)] + b[First(end, 8)..];
    }
  }

  lemma NulsAre(b: seq<byte>, at: nat, to: nat)
    requires at <= to <= |b| && NulBetween(b, at, to)
    ensures b[at..to] == Zeros(to - at)
  {
  }

  lemma HeaderReencodes(kind: byte, flags: byte, serial: u32, fields: seq<Field>, bodyLen: nat)
    requires bodyLen <= MAX_MESSAGE && AllReencodable(FieldValues(fields))
    ensures AllReencodable(HeaderValues(kind, flags, serial, fields, bodyLen))
  {
    var list := Value.Array(FieldValues(fields));
    assert Reencodable(list);
    assert AllReencodable([list]);
    assert [Value.Uint32(serial), list][1..] == [list];
    assert AllReencodable([Value.Uint32(serial), list]);
    var tail := [Value.Uint32(bodyLen), Value.Uint32(serial), list];
    assert tail[1..] == [Value.Uint32(serial), list];
    assert AllReencodable(tail);
    var bytes := [Value.Byte(PROTOCOL_VERSION)] + tail;
    assert bytes[1..] == tail && AllReencodable(bytes);
    var more := [Value.Byte(flags)] + bytes;
    assert more[1..] == bytes && AllReencodable(more);
    var most := [Value.Byte(kind)] + more;
    assert most[1..] == more && AllReencodable(most);
    assert HeaderValues(kind, flags, serial, fields, bodyLen) == [Value.Byte(LITTLE_ENDIAN)] + most;
    assert ([Value.Byte(LITTLE_ENDIAN)] + most)[1..] == most;
  }

  lemma HeaderIsBlock(h: seq<byte>, kind: byte, flags: byte, serial: u32, bodyLen: u32, fields: seq<Field>)
    requires bodyLen <= MAX_MESSAGE
    ensures HeaderAt(h, kind, flags, serial, bodyLen, fields)
       <==> TextBlock("yyyyuua(yv)", h, HeaderValues(kind, flags, serial, fields, bodyLen))
  {
    hide TextBlock;
    assert 'l' as int == LITTLE_ENDIAN;
  }

  // ----- the fixed part of a header -----

  lemma ByteField(b: seq<byte>, at: nat, end: nat, types: seq<Type>, vs: seq<Value>)
    requires FieldsAt(b, at, end, [Type.Byte] + types, vs, 0)
    ensures vs != [] && at < |b| && vs[0] == Value.Byte(b[at]) && FieldsAt(b, at + 1, end, types, vs[1..], 0)
  {
    hide First;
    var all := [Type.Byte] + types;
    assert all[1..] == types;
    var mid: nat :| ValueAt(b, at, mid, all[0], vs[0], 0) && FieldsAt(b, mid, end, all[1..], vs[1..], 0);
    FirstIs(at, 1, at);
    assert Pow256(0) == 1;
    assert BodyAt(b, at, mid, Type.Byte, vs[0], 0);
    assert b[at + 0] == vs[0].octet / 1 % 256;
  }

  lemma WordField(b: seq<byte>, at: nat, end: nat, types: seq<Type>, vs: seq<Value>)
    requires FieldsAt(b, at, end, [Type.Uint32] + types, vs, 0) && at % 4 == 0
    ensures vs != [] && vs[0].Uint32? && NumberAt(b, at, 4, vs[0].uint32)
    ensures FieldsAt(b, at + 4, end, types, vs[1..], 0)
  {
    hide First, NumberAt;
    var all := [Type.Uint32] + types;
    assert all[1..] == types;
    var mid: nat :| ValueAt(b, at, mid, all[0], vs[0], 0) && FieldsAt(b, mid, end, all[1..], vs[1..], 0);
    FirstIs(at, 4, at);
    assert BodyAt(b, at, mid, Type.Uint32, vs[0], 0);
  }

  lemma ListField(b: seq<byte>, end: nat, vs: seq<Value>)
    requires FieldsAt(b, 12, end, [Type.Array(FIELD_TYPE)], vs, 0)
    ensures |vs| == 1 && vs[0].Array? && 16 <= end <= |b| && NumberAt(b, 12, 4, end - 16)
    ensures ItemsAt(b, 16, end, FIELD_TYPE, vs[0].items, 1)
  {
    hide First, NumberAt, ItemsAt, ValueAt;
    var types: seq<Type> := [];
    assert [Type.Array(FIELD_TYPE)] == [Type.Array(FIELD_TYPE)] + types;
    var mid := FirstField(b, 12, end, Type.Array(FIELD_TYPE), types, vs, 0);
    LastField(b, mid, end, vs[1..], 0);
    FirstIs(12, 4, 12);
    FirstIs(16, 8, 16);
    ArrayBody(b, 12, mid, FIELD_TYPE, vs[0], 0);
  }

  lemma FirstField(
    b: seq<byte>, at: nat, end: nat, ty: Type, types: seq<Type>, vs: seq<Value>, depth: nat) returns (mid: nat)
    requires FieldsAt(b, at, end, [ty] + types, vs, depth)
    ensures vs != [] && ValueAt(b, at, mid, ty, vs[0], depth) && FieldsAt(b, mid, end, types, vs[1..], depth)
  {
    hide ValueAt;
    var all := [ty] + types;
    assert all[1..] == types;
    mid :| ValueAt(b, at, mid, all[0], vs[0], depth) && FieldsAt(b, mid, end, all[1..], vs[1..], depth);
  }

  lemma LastField(b: seq<byte>, at: nat, end: nat, vs: seq<Value>, depth: nat)
    requires FieldsAt(b, at, end, [], vs, depth)
    ensures vs == [] && at == end
  {
  }

  lemma ArrayBody(b: seq<byte>, at: nat, end: nat, element: Type, v: Value, depth: nat)
    requires ValueAt(b, at, end, Type.Array(element), v, depth) && First(at, 4) == at
    ensures ArrayAt(b, at, end, element, v, depth + 1)
  {
    hide First, ArrayAt;
    assert BodyAt(b, at, end, Type.Array(element), v, depth);
  }

  lemma StructBody(b: seq<byte>, at: nat, end: nat, fields: seq<Type>, v: Value, depth: nat)
    requires ValueAt(b, at, end, Type.Struct(fields), v, depth)
    ensures v.Struct? && FieldsAt(b, First(at, 8), end, fields, v.fields, depth + 1)
  {
    hide First, FieldsAt;
    assert BodyAt(b, First(at, 8), end, Type.Struct(fields), v, depth);
  }

  lemma LeafBody(b: seq<byte>, at: nat, end: nat, ty: Type, v: Value, depth: nat)
    requires ValueAt(b, at, end, ty, v, depth)
    ensures ty.Byte? ==> v.Byte?
    ensures ty.Variant? ==> v.Variant?
  {
    hide First, ContentsAt;
    assert BodyAt(b, First(at, Boundary(CodeOf(ty))), end, ty, v, depth);
  }

  /** What a list of header fields is. */
  function FieldsOf(items: seq<Value>): seq<Field>
    requires AllFields(items)
  {
    seq(|items|, i requires 0 <= i < |items| => Field(items[i].fields[0].octet, items[i].fields[1].inner))
  }

  predicate IsField(v: Value) {
    v.Struct? && |v.fields| == 2 && v.fields[0].Byte? && v.fields[1].Variant?
  }

  predicate AllFields(items: seq<Value>) {
    forall i :: 0 <= i < |items| ==> IsField(items[i])
  }

  lemma FieldsOfAre(items: seq<Value>)
    requires AllFields(items)
    ensures FieldValues(FieldsOf(items)) == items
  {
    forall i | 0 <= i < |items|
      ensures FieldValue(FieldsOf(items)[i]) == items[i]
    {
      assert IsField(items[i]);
      assert items[i].fields == [items[i].fields[0], items[i].fields[1]];
    }
  }

  lemma {:induction false} ItemsAreFields(b: seq<byte>, at: nat, end: nat, items: seq<Value>)
    requires ItemsAt(b, at, end, FIELD_TYPE, items, 1)
    ensures AllFields(items)
    decreases |items|
  {
    hide ValueAt;
    if items != [] {
      var mid: nat :| ValueAt(b, at, mid, FIELD_TYPE, items[0], 1) && ItemsAt(b, mid, end, FIELD_TYPE, items[1..], 1);
      PairIsField(b, at, mid, items[0]);
      ItemsAreFields(b, mid, end, items[1..]);
      assert forall i :: 0 < i < |items| ==> items[i] == items[1..][i - 1];
    }
  }

  lemma PairIsField(b: seq<byte>, at: nat, end: nat, v: Value)
    requires ValueAt(b, at, end, FIELD_TYPE, v, 1)
    ensures IsField(v)
  {
    hide First, ValueAt, FieldsAt;
    StructBody(b, at, end, [Type.Byte, Type.Variant], v, 1);
    var s := First(at, 8);
    var last: seq<Type> := [];
    assert [Type.Byte, Type.Variant] == [Type.Byte] + [Type.Variant] && [Type.Variant] == [Type.Variant] + last;
    var mid := FirstField(b, s, end, Type.Byte, [Type.Variant], v.fields, 2);
    var done := FirstField(b, mid, end, Type.Variant, last, v.fields[1..], 2);
    LastField(b, done, end, v.fields[1..][1..], 2);
    LeafBody(b, s, mid, Type.Byte, v.fields[0], 2);
    LeafBody(b, mid, done, Type.Variant, v.fields[1..][0], 2);
    assert |v.fields| == 2 && v.fields[1..][0] == v.fields[1];
  }

  /** The sixteen bytes a header begins with, and how far its fields go. */
  lemma HeaderReads(h: seq<byte>, vs: seq<Value>)
    requires BlockAt(HEADER_SIG, h, vs)
    ensures |vs| == 7 && |h| >= 16 && vs[6].Array? && AllFields(vs[6].items)
    ensures forall i :: 0 <= i < 4 ==> vs[i] == Value.Byte(h[i])
    ensures vs[4].Uint32? && NumberAt(h, 4, 4, vs[4].uint32)
    ensures vs[5].Uint32? && NumberAt(h, 8, 4, vs[5].uint32)
    ensures NumberAt(h, 12, 4, |h| - 16)
  {
    hide FieldsAt, NumberAt, ItemsAt, ParseSignature;
    HeaderSignature();
    var t7 := [Type.Array(FIELD_TYPE)];
    var t6 := [Type.Uint32] + t7;
    var t5 := [Type.Uint32] + t6;
    var t4 := [Type.Byte] + t5;
    var t3 := [Type.Byte] + t4;
    var t2 := [Type.Byte] + t3;
    assert HEADER_TYPES == [Type.Byte] + t2;
    ByteField(h, 0, |h|, t2, vs);
    ByteField(h, 1, |h|, t3, vs[1..]);
    ByteField(h, 2, |h|, t4, vs[1..][1..]);
    ByteField(h, 3, |h|, t5, vs[1..][1..][1..]);
    WordField(h, 4, |h|, t6, vs[1..][1..][1..][1..]);
    WordField(h, 8, |h|, t7, vs[1..][1..][1..][1..][1..]);
    var last := vs[1..][1..][1..][1..][1..][1..];
    ListField(h, |h|, last);
    ItemsAreFields(h, 16, |h|, last[0].items);
    assert |last| == |vs| - 6 && last[0] == vs[6];
    assert vs[1..][0] == vs[1] && vs[1..][1..][0] == vs[2] && vs[1..][1..][1..][0] == vs[3];
    assert vs[1..][1..][1..][1..][0] == vs[4] && vs[1..][1..][1..][1..][1..][0] == vs[5];
  }

  // ----- what a message says -----

  /** A header field with this code and this value is there. */
  predicate Says(fields: seq<Field>, code: byte, v: Value) {
    Field(code, v) in fields
  }

  /** The type the specification gives the header field of a code. */
  predicate Typed(f: Field) {
    && (f.code == 1 ==> f.value.ObjectPath?)
    && (f.code == 2 || f.code == 3 || f.code == 4 || f.code == 6 || f.code == 7 ==> f.value.Str?)
    && (f.code == 5 || f.code == 9 ==> f.value.Uint32?)
    && (f.code == 8 ==> f.value.Signature?)
  }

  predicate AllTyped(fields: seq<Field>) {
    forall i :: 0 <= i < |fields| ==> Typed(fields[i])
  }

  /** 5 is the serial answered, 4 the name of an error, 7 the sender, 8 the body's signature, 9 descriptors. */
  ghost predicate Means(m: Message, fields: seq<Field>) {
    && (forall n: u32 :: m.replySerial == Some(n) <==> Says(fields, 5, Value.Uint32(n)))
    && (forall t: Text :: m.errorName == Some(t) <==> Says(fields, 4, Value.Str(t)))
    && (forall t: Text :: m.sender == Some(t) <==> Says(fields, 7, Value.Str(t)))
    && (Says(fields, 8, Value.Signature(m.signature))
        || (m.signature == [] && forall g: Text :: !Says(fields, 8, Value.Signature(g))))
    && (Says(fields, 9, Value.Uint32(m.unixFds))
        || (m.unixFds == 0 && forall n: u32 :: !Says(fields, 9, Value.Uint32(n))))
  }

  lemma TypedIs(fields: seq<Field>)
    ensures AllTyped(fields) <==> AllWellTyped(fields)
  {
    if AllTyped(fields) {
      forall i | 0 <= i < |fields|
        ensures WellTyped(fields[i].code, fields[i].value)
      {
        assert Typed(fields[i]);
      }
    }
    if AllWellTyped(fields) {
      forall i | 0 <= i < |fields|
        ensures Typed(fields[i])
      {
        assert WellTyped(fields[i].code, fields[i].value);
      }
    }
  }

  lemma {:induction false} LookupSays(fields: seq<Field>, code: byte, v: Value)
    requires Distinct(fields)
    ensures Lookup(fields, code) == Some(v) <==> Says(fields, code, v)
  {
    if fields != [] {
      var rest := fields[1..];
      assert forall i :: 0 <= i < |rest| ==> rest[i] == fields[i + 1];
      LookupSays(rest, code, v);
      if Says(fields, code, v) {
        var j :| 0 <= j < |fields| && fields[j] == Field(code, v);
        assert j > 0 ==> fields[0].code != fields[j].code && rest[j - 1] == fields[j];
      }
    }
  }

  /** The five fields that are read, each by its code. */
  predicate IsOverride(m: Message, known: Fields) {
    && m.replySerial == known.replySerial && m.errorName == known.errorName && m.sender == known.sender
    && m.signature == known.signature && m.unixFds == known.unixFds
  }

  lemma OverrideMeans(m: Message, fields: seq<Field>)
    requires Distinct(fields) && AllWellTyped(fields)
    ensures Means(m, fields) <==> IsOverride(m, Override(NO_FIELDS, fields))
  {
    hide Distinct, AllWellTyped, Says, Utf8;
    var reply, error, sender := Lookup(fields, 5), Lookup(fields, 4), Lookup(fields, 7);
    var signature, fds := Lookup(fields, 8), Lookup(fields, 9);
    LookupTyped(fields, 5);
    LookupTyped(fields, 4);
    LookupTyped(fields, 7);
    LookupTyped(fields, 8);
    LookupTyped(fields, 9);
    forall n: u32
      ensures Says(fields, 5, Value.Uint32(n)) <==> reply == Some(Value.Uint32(n))
      ensures Says(fields, 9, Value.Uint32(n)) <==> fds == Some(Value.Uint32(n))
    {
      LookupSays(fields, 5, Value.Uint32(n));
      LookupSays(fields, 9, Value.Uint32(n));
    }
    forall t: Text
      ensures Says(fields, 4, Value.Str(t)) <==> error == Some(Value.Str(t))
      ensures Says(fields, 7, Value.Str(t)) <==> sender == Some(Value.Str(t))
      ensures Says(fields, 8, Value.Signature(t)) <==> signature == Some(Value.Signature(t))
    {
      LookupSays(fields, 4, Value.Str(t));
      LookupSays(fields, 7, Value.Str(t));
      LookupSays(fields, 8, Value.Signature(t));
    }
    MeansFound(m, fields, reply, error, sender, signature, fds);
  }

  lemma MeansFound(
    m: Message, fields: seq<Field>, reply: Option<Value>, error: Option<Value>, sender: Option<Value>,
    signature: Option<Value>, fds: Option<Value>)
    requires Distinct(fields) && AllWellTyped(fields)
    requires reply == Lookup(fields, 5) && error == Lookup(fields, 4) && sender == Lookup(fields, 7)
    requires signature == Lookup(fields, 8) && fds == Lookup(fields, 9)
    requires reply.Some? ==> reply.value.Uint32?
    requires error.Some? ==> error.value.Str?
    requires sender.Some? ==> sender.value.Str?
    requires signature.Some? ==> signature.value.Signature?
    requires fds.Some? ==> fds.value.Uint32?
    requires forall n: u32 :: Says(fields, 5, Value.Uint32(n)) <==> reply == Some(Value.Uint32(n))
    requires forall n: u32 :: Says(fields, 9, Value.Uint32(n)) <==> fds == Some(Value.Uint32(n))
    requires forall t: Text :: Says(fields, 4, Value.Str(t)) <==> error == Some(Value.Str(t))
    requires forall t: Text :: Says(fields, 7, Value.Str(t)) <==> sender == Some(Value.Str(t))
    requires forall t: Text :: Says(fields, 8, Value.Signature(t)) <==> signature == Some(Value.Signature(t))
    ensures Means(m, fields) <==> IsOverride(m, Override(NO_FIELDS, fields))
  {
    hide Distinct, AllWellTyped, Says, Utf8, Lookup;
    var known := Override(NO_FIELDS, fields);
    assert known.replySerial == if reply.Some? then Some(reply.value.uint32) else None;
    assert known.errorName == if error.Some? then Some(error.value.text) else None;
    assert known.sender == if sender.Some? then Some(sender.value.text) else None;
    assert known.signature == if signature.Some? then signature.value.sig else [];
    assert known.unixFds == if fds.Some? then fds.value.uint32 else 0;
    if Means(m, fields) {
      assert reply.Some? ==> Says(fields, 5, Value.Uint32(reply.value.uint32));
      assert m.replySerial.Some? ==> Says(fields, 5, Value.Uint32(m.replySerial.value));
      assert error.Some? ==> Says(fields, 4, Value.Str(error.value.text));
      assert m.errorName.Some? ==> Says(fields, 4, Value.Str(m.errorName.value));
      assert sender.Some? ==> Says(fields, 7, Value.Str(sender.value.text));
      assert m.sender.Some? ==> Says(fields, 7, Value.Str(m.sender.value));
      assert signature.Some? ==> Says(fields, 8, Value.Signature(signature.value.sig));
      assert fds.Some? ==> Says(fields, 9, Value.Uint32(fds.value.uint32));
    }
  }

  /**
   `b` begins with a message this client understands to be `m`: at most 2^24 bytes and 2^20 values,
   no header field twice, each of its own type, and a body only with a signature.
   */
  ghost predicate Understood(b: seq<byte>, m: Message, end: nat, flags: byte, serial: u32, fields: seq<Field>) {
    var total := First(end, 8) + |m.body|;
    && total <= |b| && total <= 16777216
    && MessageAt(b[..total], end, m.kind, flags, serial, fields, m.body)
    && 7 + CostAll(FieldValues(fields)) <= 1048576
    && Distinct(fields) && AllTyped(fields) && Means(m, fields) && (m.signature == [] ==> m.body == [])
  }

  lemma HeaderCost(kind: byte, flags: byte, serial: u32, fields: seq<Field>, bodyLen: nat)
    requires bodyLen <= MAX_MESSAGE
    ensures CostAll(HeaderValues(kind, flags, serial, fields, bodyLen)) == 7 + CostAll(FieldValues(fields))
  {
    hide CostAll, Cost;
    var list := Value.Array(FieldValues(fields));
    var v6 := [Value.Uint32(serial)] + [list];
    var v5 := [Value.Uint32(bodyLen)] + v6;
    var v4 := [Value.Byte(PROTOCOL_VERSION)] + v5;
    var v3 := [Value.Byte(flags)] + v4;
    var v2 := [Value.Byte(kind)] + v3;
    assert HeaderValues(kind, flags, serial, fields, bodyLen) == [Value.Byte(LITTLE_ENDIAN)] + v2;
    CostCons(Value.Byte(LITTLE_ENDIAN), v2);
    CostCons(Value.Byte(kind), v3);
    CostCons(Value.Byte(flags), v4);
    CostCons(Value.Byte(PROTOCOL_VERSION), v5);
    CostCons(Value.Uint32(bodyLen), v6);
    CostCons(Value.Uint32(serial), [list]);
    ListCost(FieldValues(fields));
    LeafCosts(kind, flags, serial, bodyLen);
  }

  lemma ListCost(items: seq<Value>)
    ensures CostAll([Value.Array(items)]) == 1 + CostAll(items)
  {
    CostCons(Value.Array(items), []);
    assert [Value.Array(items)] + [] == [Value.Array(items)];
  }

  lemma LeafCosts(kind: byte, flags: byte, serial: u32, bodyLen: u32)
    ensures Cost(Value.Byte(kind)) == 1 && Cost(Value.Byte(flags)) == 1
    ensures Cost(Value.Byte(LITTLE_ENDIAN)) == 1 && Cost(Value.Byte(PROTOCOL_VERSION)) == 1
    ensures Cost(Value.Uint32(serial)) == 1 && Cost(Value.Uint32(bodyLen)) == 1
  {
  }

  lemma CostCons(v: Value, rest: seq<Value>)
    ensures CostAll([v] + rest) == Cost(v) + CostAll(rest)
  {
    hide Cost;
    assert ([v] + rest)[1..] == rest;
  }

  /** The frame of a message, its header read. */
  lemma FrameReads(b: seq<byte>, end: nat, vs: seq<Value>)
    requires end <= |b| && BlockAt(HEADER_SIG, b[..end], vs)
    requires |vs| == 7 && vs[0] == Value.Byte(LITTLE_ENDIAN) && vs[3] == Value.Byte(PROTOCOL_VERSION)
    requires vs[4].Uint32? && First(end, 8) + vs[4].uint32 <= MAX_INCOMING
    ensures Frame(b) == Ok((First(end, 8), vs[4].uint32)) && 16 + UnLe(b[12..16]) == end
  {
    hide BlockAt, NumberAt, UnLe, First;
    var h := b[..end];
    HeaderReads(h, vs);
    NumberIs(h, 4, 4, vs[4].uint32);
    NumberIs(h, 12, 4, end - 16);
    assert b[4..8] == h[4..8] && b[12..16] == h[12..16] && b[0] == h[0] && b[3] == h[3];
    AlignUpPads(end);
    PaddingIsLeast(end, 8);
  }

  lemma UnderstoodIsDecoded(b: seq<byte>, m: Message, end: nat, flags: byte, serial: u32, fields: seq<Field>)
    requires Understood(b, m, end, flags, serial, fields)
    ensures DecodeMessage(b) == Ok(m)
  {
    hide BlockAt, Decode, Frame, UnLe, GatherAll, Override, Utf8, TextBlock, First, CostAll, Means, AllTyped, Distinct,
         AllWellTyped;
    var total := First(end, 8) + |m.body|;
    var vs := HeaderValues(m.kind, flags, serial, fields, |m.body|);
    assert b[..total][..end] == b[..end];
    HeaderIsBlock(b[..end], m.kind, flags, serial, |m.body|, fields);
    HeaderBlock(b[..end], vs);
    FrameReads(b, end, vs);
    HeaderCost(m.kind, flags, serial, fields, |m.body|);
    DecodeIsExact(HEADER_SIG, b[..end], vs);
    assert b[0..end] == b[..end];
    assert b[First(end, 8)..total] == b[..total][First(end, 8)..] == m.body;
    NulIsZero(b, b[..total], end, First(end, 8));
    Gathered(NO_FIELDS, [], fields);
    TypedIs(fields);
    NothingSeen(fields);
    OverrideMeans(m, fields);
  }

  lemma NothingSeen(fields: seq<Field>)
    ensures Fresh([], fields)
  {
  }

  lemma NulIsZero(b: seq<byte>, part: seq<byte>, lo: nat, hi: nat)
    requires part <= b && lo <= hi <= |part|
    ensures NulBetween(part, lo, hi) <==> AllZero(b[lo..hi])
  {
    assert forall i :: 0 <= i < hi - lo ==> b[lo..hi][i] == part[lo + i];
    if AllZero(b[lo..hi]) {
      forall i | lo <= i < hi
        ensures part[i] == 0
      {
        assert b[lo..hi][i - lo] == 0;
      }
    }
  }

  lemma DecodedIsUnderstood(b: seq<byte>, m: Message)
    requires DecodeMessage(b) == Ok(m)
    ensures exists end: nat, flags: byte, serial: u32, fields: seq<Field> ::
              Understood(b, m, end, flags, serial, fields)
  {
    hide BlockAt, Decode, UnLe, GatherAll, Override, Utf8, TextBlock, First, CostAll, Means, AllTyped, Distinct,
         AllWellTyped, NumberAt;
    var end := FIXED_HEADER + UnLe(b[12..16]);
    var h := b[0..end];
    var vs := Decode(HEADER_SIG, h).value;
    assert h == b[..end];
    DecodeIsExact(HEADER_SIG, h, vs);
    HeaderReads(h, vs);
    assert h[4..8] == b[4..8];
    NumberIs(h, 4, 4, vs[4].uint32);
    var flags, serial, fields := h[2], vs[5].uint32, FieldsOf(vs[6].items);
    FieldsOfAre(vs[6].items);
    AlignUpPads(end);
    PaddingIsLeast(end, 8);
    var total := First(end, 8) + |m.body|;
    assert m.kind == h[1] && |m.body| == vs[4].uint32;
    HeaderValuesAre(vs, m.kind, flags, serial, fields, |m.body|);
    assert b[..total][..end] == h;
    HeaderBlock(h, vs);
    HeaderIsBlock(h, m.kind, flags, serial, |m.body|, fields);
    NulIsZero(b, b[..total], end, First(end, 8));
    assert b[..total][First(end, 8)..] == m.body;
    HeaderCost(m.kind, flags, serial, fields, |m.body|);
    Gathered(NO_FIELDS, [], fields);
    NothingSeen(fields);
    TypedIs(fields);
    OverrideMeans(m, fields);
    assert Understood(b, m, end, flags, serial, fields);
  }

  lemma HeaderValuesAre(vs: seq<Value>, kind: byte, flags: byte, serial: u32, fields: seq<Field>, bodyLen: nat)
    requires bodyLen <= MAX_MESSAGE
    requires |vs| == 7 && vs[0] == Value.Byte(LITTLE_ENDIAN) && vs[1] == Value.Byte(kind)
    requires vs[2] == Value.Byte(flags) && vs[3] == Value.Byte(PROTOCOL_VERSION)
    requires vs[4] == Value.Uint32(bodyLen) && vs[5] == Value.Uint32(serial)
    requires vs[6] == Value.Array(FieldValues(fields))
    ensures vs == HeaderValues(kind, flags, serial, fields, bodyLen)
  {
  }

  /** The reading of messages is exact: a message is decoded just when it is understood, and as that. */
  lemma MessageIsExact(b: seq<byte>, m: Message)
    ensures DecodeMessage(b) == Ok(m) <==>
              exists end: nat, flags: byte, serial: u32, fields: seq<Field> ::
                Understood(b, m, end, flags, serial, fields)
  {
    hide DecodeMessage, Understood;
    if DecodeMessage(b) == Ok(m) {
      DecodedIsUnderstood(b, m);
    }
    if end: nat, flags: byte, serial: u32, fields: seq<Field> :| Understood(b, m, end, flags, serial, fields) {
      UnderstoodIsDecoded(b, m, end, flags, serial, fields);
    }
  }
}
