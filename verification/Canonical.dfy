/** The decoder accepts one spelling of a value only: what it read is what would be written. */
module Canonical {
  import opened Results
  import opened Bytes
  import opened Utf8Text
  import opened Signatures
  import opened Wire

  /** A value whose signature can be read off its contents. */
  predicate Nameable(v: Value)
    decreases v
  {
    match v
    case Array(items) => items != [] && Nameable(items[0])
    case Dict(entries) => entries != [] && Nameable(entries[0].value)
    case Struct(fields) => AllNameable(fields)
    case _ => true
  }

  predicate AllNameable(vs: seq<Value>)
    decreases vs
  {
    vs == [] || (Nameable(vs[0]) && AllNameable(vs[1..]))
  }

  /** A value every variant of which carries a nameable value. */
  predicate Reencodable(v: Value)
    decreases v
  {
    match v
    case Variant(inner) => Nameable(inner) && Reencodable(inner)
    case Array(items) => AllReencodable(items)
    case Struct(fields) => AllReencodable(fields)
    case Dict(entries) => AllEntriesReencodable(entries)
    case _ => true
  }

  predicate AllReencodable(vs: seq<Value>)
    decreases vs
  {
    vs == [] || (Reencodable(vs[0]) && AllReencodable(vs[1..]))
  }

  predicate AllEntriesReencodable(entries: seq<Entry>)
    decreases entries
  {
    entries == [] || (Reencodable(entries[0].value) && AllEntriesReencodable(entries[1..]))
  }

  /** `r` is exactly `bytes` when `ok`, and the refusal of an empty container otherwise. */
  predicate Spells(r: Wired<seq<byte>>, bytes: seq<byte>, ok: bool) {
    if ok then r == Ok(bytes)
    else r == Err(Unsupported(EmptyArrayInVariant)) || r == Err(Unsupported(EmptyDictInVariant))
  }

  // ----- the signature a variant carried is the one its contents have -----

  lemma {:induction false} SigOfValue(buf: seq<byte>, at: nat, count: nat, ty: Type, depth: nat, d: nat)
    requires Solid(ty) && d <= depth && Dec(buf, at, count, ty, depth).Ok?
    ensures var v := Dec(buf, at, count, ty, depth).value.value;
            Spells(SignatureOf(v, d), Render(ty), Nameable(v))
    decreases MAX_DEPTH + 1 - depth, 1, 0
  {
    hide DecArray, DecFields, DecVariant, DecStr, DecSig, SignaturesOf, AllNameable, LeafSignature;
    var start := Align(buf, at, ty.Alignment()).value;
    if ty.Array? {
      SigOfArray(buf, start, count + 1, ty.element, depth, d);
    } else if ty.Struct? {
      SigOfFields(buf, start, count + 1, ty.fields, depth + 1, d + 1);
      StructSig(DecFields(buf, start, count + 1, ty.fields, depth + 1).value.value, d);
    } else {
      LeafOf(buf, start, count + 1, ty, depth);
    }
  }

  lemma StructSig(fields: seq<Value>, d: nat)
    requires d <= MAX_DEPTH
    ensures var s := SignaturesOf(fields, d + 1);
            SignatureOf(Value.Struct(fields), d) == if s.Ok? then Ok([STRUCT_OPEN] + s.value + [STRUCT_CLOSE]) else s
    ensures Nameable(Value.Struct(fields)) == AllNameable(fields)
  {
  }

  lemma LeafOf(buf: seq<byte>, at: nat, count: nat, ty: Type, depth: nat)
    requires Solid(ty) && depth <= MAX_DEPTH && count <= MAX_VALUES && !ty.Array? && !ty.Struct?
    requires DecBody(buf, at, count, ty, depth).Ok?
    ensures var v := DecBody(buf, at, count, ty, depth).value.value;
            LeafSignature(v) == Some(ty.Code()) && Nameable(v) && Render(ty) == [ty.Code()]
  {
    hide DecVariant, DecStr, DecSig;
  }

  lemma {:induction false} SigOfArray(buf: seq<byte>, at: nat, count: nat, element: Type, depth: nat, d: nat)
    requires Solid(element) && count <= MAX_VALUES && d <= depth <= MAX_DEPTH
    requires DecArray(buf, at, count, element, depth).Ok?
    ensures var v := DecArray(buf, at, count, element, depth).value.value;
            Spells(SignatureOf(v, d), [ARRAY] + Render(element), Nameable(v))
    decreases MAX_DEPTH + 1 - depth, 0, 0
  {
    hide DecItems, DecEntries, Align, SignatureOf, Nameable, Render;
    var end := DecArray(buf, at, count, element, depth).value.at;
    var start := Align(buf, at + 4, element.Alignment()).value;
    if element.DictEntry? {
      SigOfDict(buf, start, end, count, element.key, element.value, depth + 1, d);
    } else if element.Byte? {
      SigOfBytes(buf[start..end], d);
    } else {
      SigOfItems(buf, start, end, count, element, depth + 1, d);
    }
  }

  lemma SigOfBytes(bytes: seq<byte>, d: nat)
    requires d <= MAX_DEPTH
    ensures SignatureOf(Value.ByteArray(bytes), d) == Ok([ARRAY] + Render(Type.Byte))
    ensures Nameable(Value.ByteArray(bytes))
  {
    assert [ARRAY] + Render(Type.Byte) == [ARRAY, Type.Byte.Code()];
  }

  lemma {:induction false} SigOfItems(
    buf: seq<byte>, at: nat, end: nat, count: nat, element: Type, depth: nat, d: nat)
    requires Solid(element) && count <= MAX_VALUES && at <= end <= |buf| && d < depth <= MAX_DEPTH
    requires DecItems(buf, at, end, count, element, depth).Ok?
    ensures var v := Value.Array(DecItems(buf, at, end, count, element, depth).value.value);
            Spells(SignatureOf(v, d), [ARRAY] + Render(element), Nameable(v))
    decreases MAX_DEPTH + 1 - depth, 2, 0
  {
    hide Dec, Render, Solid;
    if at < end {
      SigOfValue(buf, at, count, element, depth, d + 1);
    }
  }

  lemma {:induction false} SigOfDict(
    buf: seq<byte>, at: nat, end: nat, count: nat, key: Type, entry: Type, depth: nat, d: nat)
    requires Solid(entry) && count <= MAX_VALUES && at <= end <= |buf| && d < depth <= MAX_DEPTH && key.Str?
    requires DecEntries(buf, at, end, count, entry, depth).Ok?
    ensures var v := Value.Dict(DecEntries(buf, at, end, count, entry, depth).value.value);
            Spells(SignatureOf(v, d), [ARRAY] + Render(DictEntry(key, entry)), Nameable(v))
    decreases MAX_DEPTH + 1 - depth, 2, 0
  {
    hide DecEntry, Solid;
    assert [ARRAY] + Render(DictEntry(key, entry))
        == [ARRAY, DICT_OPEN, Type.Str.Code()] + Render(entry) + [DICT_CLOSE];
    if at < end {
      SigOfEntry(buf, at, count, entry, depth, d + 1);
    }
  }

  lemma {:induction false} SigOfEntry(buf: seq<byte>, at: nat, count: nat, entry: Type, depth: nat, d: nat)
    requires Solid(entry) && count <= MAX_VALUES && d <= depth && DecEntry(buf, at, count, entry, depth).Ok?
    ensures var v := DecEntry(buf, at, count, entry, depth).value.value.value;
            Spells(SignatureOf(v, d), Render(entry), Nameable(v))
    decreases MAX_DEPTH + 1 - depth, 1, 1
  {
    hide Dec, SignatureOf, Render, Nameable;
    var start := Align(buf, at, 8).value;
    SigOfValue(buf, DecStr(buf, start).value.1, count + 1, entry, depth, d);
  }

  lemma {:induction false} SigOfFields(buf: seq<byte>, at: nat, count: nat, types: seq<Type>, depth: nat, d: nat)
    requires AllSolid(types) && count <= MAX_VALUES && d <= depth
    requires DecFields(buf, at, count, types, depth).Ok?
    ensures var vs := DecFields(buf, at, count, types, depth).value.value;
            Spells(SignaturesOf(vs, d), RenderAll(types), AllNameable(vs))
    decreases MAX_DEPTH + 1 - depth, 2, |types|
  {
    hide Dec, SignatureOf, Render, Nameable;
    if types != [] {
      var first := Dec(buf, at, count, types[0], depth).value;
      var vs := DecFields(buf, at, count, types, depth).value.value;
      assert vs[1..] == DecFields(buf, first.at, first.count, types[1..], depth).value.value;
      SigOfValue(buf, at, count, types[0], depth, d);
      SigOfFields(buf, first.at, first.count, types[1..], depth, d);
    }
  }

  // ----- the leaves, read backwards -----

  lemma PaddingWritten(buf: seq<byte>, at: nat, align: nat)
    requires align != 0 && Align(buf, at, align).Ok?
    ensures Align(buf, at, align).value == at + PadLen(at, align)
    ensures Zeros(PadLen(at, align)) == buf[at..at + PadLen(at, align)]
  {
    AllZeroIsZeros(buf[at..at + PadLen(at, align)]);
  }

  lemma WordWritten(buf: seq<byte>, at: nat)
    requires DecUint32(buf, at).Ok?
    ensures Le(DecUint32(buf, at).value, 4) == buf[at..at + 4]
  {
    LeOfUnLe(buf[at..at + 4]);
  }

  lemma StrWritten(buf: seq<byte>, at: nat)
    requires DecStr(buf, at).Ok?
    ensures EncStr(DecStr(buf, at).value.0) == Ok(buf[at..DecStr(buf, at).value.1])
  {
    hide Utf8, Le, DecUint32;
    var len := DecUint32(buf, at).value;
    WordWritten(buf, at);
    var end := at + 4 + len + 1;
    assert buf[at..end] == buf[at..at + 4] + buf[at + 4..at + 4 + len] + [0];
  }

  lemma SigWritten(buf: seq<byte>, at: nat)
    requires DecSig(buf, at).Ok?
    ensures EncSig(DecSig(buf, at).value.0) == buf[at..DecSig(buf, at).value.1]
  {
    hide Utf8;
    var len := buf[at];
    var end := at + 1 + len + 1;
    assert buf[at..end] == [len] + buf[at + 1..at + 1 + len] + [0];
  }

  // ----- everything read, written again -----

  lemma {:induction false} ValueWritten(buf: seq<byte>, at: nat, count: nat, ty: Type, depth: nat, got: Got<Value>)
    requires Solid(ty) && Dec(buf, at, count, ty, depth) == Ok(got)
    ensures Spells(Enc(at, ty, got.value, depth), buf[at..got.at], Reencodable(got.value))
    decreases MAX_DEPTH + 1 - depth, 1, 0
  {
    hide EncBody, DecBody, Reencodable, Solid;
    var start := at + PadLen(at, ty.Alignment());
    PaddingWritten(buf, at, ty.Alignment());
    BodyWritten(buf, start, count + 1, ty, depth, got);
    assert buf[at..got.at] == buf[at..start] + buf[start..got.at];
  }

  lemma {:induction false} BodyWritten(buf: seq<byte>, at: nat, count: nat, ty: Type, depth: nat, got: Got<Value>)
    requires Solid(ty) && depth <= MAX_DEPTH && count <= MAX_VALUES
    requires DecBody(buf, at, count, ty, depth) == Ok(got)
    ensures Spells(EncBody(at, ty, got.value, depth), buf[at..got.at], Reencodable(got.value))
    decreases MAX_DEPTH + 1 - depth, 0, 1
  {
    hide EncArray, DecArray, EncVariant, DecVariant, EncFields, DecFields, EncStr, DecStr, EncSig, DecSig,
         AllReencodable;
    if Fixed(ty) {
      FixedWritten(buf, at, count, ty, depth, got);
    } else if ty.Array? {
      ArrayWritten(buf, at, count, ty.element, depth, got);
    } else if ty.Str? || ty.ObjectPath? {
      StrWritten(buf, at);
    } else if ty.Signature? {
      SigWritten(buf, at);
    } else if ty.Variant? {
      VariantWritten(buf, at, count, depth, got);
    } else {
      var fields := DecFields(buf, at, count, ty.fields, depth + 1).value;
      FieldsWritten(buf, at, count, ty.fields, depth + 1, fields);
    }
  }

  lemma FixedWritten(buf: seq<byte>, at: nat, count: nat, ty: Type, depth: nat, got: Got<Value>)
    requires Fixed(ty) && depth <= MAX_DEPTH && count <= MAX_VALUES
    requires DecBody(buf, at, count, ty, depth) == Ok(got)
    ensures EncBody(at, ty, got.value, depth) == Ok(buf[at..got.at]) && Reencodable(got.value)
  {
    var bytes := buf[at..at + ty.Alignment()];
    LeOfUnLe(bytes);
    FromRawCanonical(ty, UnLe(bytes));
  }

  lemma {:induction false} VariantWritten(buf: seq<byte>, at: nat, count: nat, depth: nat, got: Got<Value>)
    requires depth <= MAX_DEPTH && count <= MAX_VALUES
    requires DecVariant(buf, at, count, depth) == Ok(got)
    ensures got.value.Variant?
    ensures Spells(EncVariant(at, got.value.inner, depth), buf[at..got.at], Reencodable(got.value))
    decreases MAX_DEPTH + 1 - depth, 0, 0
  {
    hide Enc, Dec, EncSig, DecSig, SignatureOf, Render, Nameable;
    var read := DecSig(buf, at).value;
    var sig := read.0;
    var ty := ParseSignature(sig).value[0];
    ParsedIsSolid(sig);
    assert ParseSignature(sig).value == [ty];
    SignatureIffRendered(sig, [ty]);
    RenderOne(ty);
    var inner := Dec(buf, read.1, count, ty, depth + 1).value;
    SigOfValue(buf, read.1, count, ty, depth + 1, 0);
    SigWritten(buf, at);
    ValueWritten(buf, read.1, count, ty, depth + 1, inner);
    assert buf[at..got.at] == buf[at..read.1] + buf[read.1..got.at];
  }

  lemma RenderOne(ty: Type)
    ensures RenderAll([ty]) == Render(ty)
  {
    hide Render;
    assert RenderAll([ty]) == Render(ty) + RenderAll([]);
  }

  lemma {:induction false} ArrayWritten(buf: seq<byte>, at: nat, count: nat, element: Type, depth: nat, got: Got<Value>)
    requires Solid(element) && depth <= MAX_DEPTH && count <= MAX_VALUES
    requires DecArray(buf, at, count, element, depth) == Ok(got)
    ensures Spells(EncArray(at, element, got.value, depth), buf[at..got.at], Reencodable(got.value))
    decreases MAX_DEPTH + 1 - depth, 0, 0
  {
    hide EncElements, DecElements, Le, DecUint32, PadLen, Align, Solid, Reencodable;
    var length := DecUint32(buf, at).value;
    var start := Align(buf, at + 4, element.Alignment()).value;
    WordWritten(buf, at);
    PaddingWritten(buf, at + 4, element.Alignment());
    ElementsWritten(buf, start, start + length, count, element, depth + 1, got);
    assert buf[at..got.at] == buf[at..at + 4] + buf[at + 4..start] + buf[start..got.at];
  }

  lemma {:induction false} ElementsWritten(
    buf: seq<byte>, at: nat, end: nat, count: nat, element: Type, depth: nat, got: Got<Value>)
    requires Solid(element) && depth <= MAX_DEPTH && count <= MAX_VALUES && at <= end <= |buf|
    requires DecElements(buf, at, end, count, element, depth) == Ok(got)
    ensures Spells(EncElements(at, element, got.value, depth), buf[at..end], Reencodable(got.value))
    decreases MAX_DEPTH + 1 - depth, 3, 0
  {
    hide EncItems, DecItems, EncEntries, DecEntries, AllReencodable, AllEntriesReencodable;
    if element.DictEntry? {
      var entries := DecEntries(buf, at, end, count, element.value, depth).value;
      EntriesWritten(buf, at, end, count, element.value, depth, entries);
    } else if !element.Byte? {
      var items := DecItems(buf, at, end, count, element, depth).value;
      ItemsWritten(buf, at, end, count, element, depth, items);
    }
  }

  lemma {:induction false} ItemsWritten(
    buf: seq<byte>, at: nat, end: nat, count: nat, element: Type, depth: nat, got: Got<seq<Value>>)
    requires Solid(element) && count <= MAX_VALUES && at <= end <= |buf|
    requires DecItems(buf, at, end, count, element, depth) == Ok(got)
    ensures Spells(EncItems(at, element, got.value, depth), buf[at..end], AllReencodable(got.value))
    decreases MAX_DEPTH + 1 - depth, 2, end - at
  {
    hide Enc, Dec, Solid, Reencodable;
    if at < end {
      var first := Dec(buf, at, count, element, depth).value;
      var rest := DecItems(buf, first.at, end, first.count, element, depth).value;
      assert got.value[1..] == rest.value;
      ValueWritten(buf, at, count, element, depth, first);
      ItemsWritten(buf, first.at, end, first.count, element, depth, rest);
      assert buf[at..end] == buf[at..first.at] + buf[first.at..end];
    } else {
      assert buf[at..end] == [];
    }
  }

  lemma {:induction false} EntriesWritten(
    buf: seq<byte>, at: nat, end: nat, count: nat, entry: Type, depth: nat, got: Got<seq<Entry>>)
    requires Solid(entry) && count <= MAX_VALUES && at <= end <= |buf|
    requires DecEntries(buf, at, end, count, entry, depth) == Ok(got)
    ensures Spells(EncEntries(at, entry, got.value, depth), buf[at..end], AllEntriesReencodable(got.value))
    decreases MAX_DEPTH + 1 - depth, 2, end - at
  {
    hide EncEntry, DecEntry, Solid, Reencodable;
    if at < end {
      var first := DecEntry(buf, at, count, entry, depth).value;
      var rest := DecEntries(buf, first.at, end, first.count, entry, depth).value;
      assert got.value == [first.value] + rest.value;
      assert got.value[0] == first.value && got.value[1..] == rest.value;
      EntryWritten(buf, at, count, entry, depth, first);
      EntriesWritten(buf, first.at, end, first.count, entry, depth, rest);
      assert buf[at..end] == buf[at..first.at] + buf[first.at..end];
    } else {
      assert buf[at..end] == [];
    }
  }

  lemma {:induction false} EntryWritten(buf: seq<byte>, at: nat, count: nat, entry: Type, depth: nat, got: Got<Entry>)
    requires Solid(entry) && count <= MAX_VALUES && DecEntry(buf, at, count, entry, depth) == Ok(got)
    ensures Spells(EncEntry(at, entry, got.value, depth), buf[at..got.at], Reencodable(got.value.value))
    decreases MAX_DEPTH + 1 - depth, 1, 1
  {
    hide Enc, Dec, Solid, Reencodable, EncStr, DecStr;
    var start := Align(buf, at, 8).value;
    var key := DecStr(buf, start).value;
    var value := Dec(buf, key.1, count + 1, entry, depth).value;
    PaddingWritten(buf, at, 8);
    StrWritten(buf, start);
    ValueWritten(buf, key.1, count + 1, entry, depth, value);
    assert buf[at..got.at] == buf[at..start] + buf[start..key.1] + buf[key.1..got.at];
  }

  lemma {:induction false} FieldsWritten(
    buf: seq<byte>, at: nat, count: nat, types: seq<Type>, depth: nat, got: Got<seq<Value>>)
    requires AllSolid(types) && count <= MAX_VALUES && at <= |buf|
    requires DecFields(buf, at, count, types, depth) == Ok(got)
    ensures got.at <= |buf|
    ensures Spells(EncFields(at, types, got.value, depth), buf[at..got.at], AllReencodable(got.value))
    decreases MAX_DEPTH + 1 - depth, 2, |types|
  {
    hide Enc, Dec, Solid, Reencodable;
    if types != [] {
      var first := Dec(buf, at, count, types[0], depth).value;
      var rest := DecFields(buf, first.at, first.count, types[1..], depth).value;
      assert got.value[1..] == rest.value;
      ValueWritten(buf, at, count, types[0], depth, first);
      FieldsWritten(buf, first.at, first.count, types[1..], depth, rest);
      assert buf[at..got.at] == buf[at..first.at] + buf[first.at..got.at];
    } else {
      assert buf[at..got.at] == [];
    }
  }

  /**
   Canonical form: whatever `decode` accepts is, byte for byte, what `encode` writes for
   the values it gave, except where a variant carries an empty array or dict (or one
   reached through first elements), and then the refusal is exactly that.
   */
  lemma {:induction false} EncodeOfDecode(sig: seq<byte>, body: seq<byte>)
    requires Decode(sig, body).Ok?
    ensures var vs := Decode(sig, body).value;
            Spells(Encode(sig, vs), body, AllReencodable(vs))
  {
    hide DecFields, EncFields, AllReencodable;
    ParsedIsSolid(sig);
    var got := DecFields(body, 0, 0, ParseSignature(sig).value, 0).value;
    FieldsWritten(body, 0, 0, ParseSignature(sig).value, 0, got);
    assert body[0..|body|] == body;
  }

  // ----- a body that is read and cannot be written back -----

  const ONE_VARIANT: seq<byte> := [118]  // "v"
  const INT_ARRAY: seq<byte> := [97, 105]  // "ai"

  /** A variant of signature `ai` whose array holds no byte. */
  const EMPTY_IN_VARIANT: seq<byte> := [2] + INT_ARRAY + [0] + [0, 0, 0, 0]

  lemma Rendered(sig: seq<byte>, ty: Type)
    requires sig == Render(ty) && |sig| <= MAX_SIGNATURE && Legal(ty, 0, 0)
    ensures Parse(sig) == Ok([ty]) && AllSolid([ty])
  {
    hide Render, Legal, ParseSignature;
    assert [ty][1..] == [];
    assert RenderAll([ty]) == sig + [];
    assert sig + [] == sig;
    SignatureIffRendered(sig, [ty]);
    ParsedIsSolid(sig);
  }

  lemma BothParse()
    ensures Parse(ONE_VARIANT) == Ok([Type.Variant]) && Parse(INT_ARRAY) == Ok([Type.Array(Type.Int32)])
    ensures AllSolid([Type.Variant]) && AllSolid([Type.Array(Type.Int32)])
  {
    hide Parse;
    Rendered(ONE_VARIANT, Type.Variant);
    assert Render(Type.Int32) == [105];
    assert [ARRAY] + [105] == INT_ARRAY;
    Rendered(INT_ARRAY, Type.Array(Type.Int32));
  }

  lemma SignatureStands()
    ensures DecSig(EMPTY_IN_VARIANT, 0) == Ok((INT_ARRAY, 4))
  {
    hide Utf8;
    AsciiIsUtf8(INT_ARRAY);
    var b := EMPTY_IN_VARIANT;
    assert b[0..1] == [2];
    assert b[1..3] == INT_ARRAY;
    assert b[3..4] == [0];
  }

  lemma EmptyArrayRead(count: nat)
    requires count < MAX_VALUES
    ensures Dec(EMPTY_IN_VARIANT, 4, count, Type.Array(Type.Int32), 1) == Ok(Got(Value.Array([]), 8, count + 1))
  {
    hide DecItems, UnLe, Utf8;
    var b := EMPTY_IN_VARIANT;
    assert b[4..4] == [] && b[8..8] == [];
    assert b[4..8] == Zeros(4);
    ZerosSpellZero(4);
    NoItems(b, 8, count + 1);
    assert DecUint32(b, 4) == Ok(0);
    assert DecElements(b, 8, 8, count + 1, Type.Int32, 2) == Ok(Got(Value.Array([]), 8, count + 1));
  }

  lemma NoItems(buf: seq<byte>, at: nat, count: nat)
    requires count <= MAX_VALUES && at <= |buf|
    ensures DecItems(buf, at, at, count, Type.Int32, 2) == Ok(Got([], at, count))
  {
    hide Dec;
  }

  lemma {:induction false} ZerosSpellZero(n: nat)
    ensures UnLe(Zeros(n)) == 0
  {
    if n > 0 {
      assert Zeros(n)[1..] == Zeros(n - 1);
      ZerosSpellZero(n - 1);
    }
  }

  lemma VariantRead()
    ensures Dec(EMPTY_IN_VARIANT, 0, 0, Type.Variant, 0)
         == Ok(Got(Value.Variant(Value.Array([])), 8, 2))
  {
    hide Parse, DecSig, Utf8, DecFields, DecArray;
    BothParse();
    SignatureStands();
    EmptyArrayRead(1);
    assert EMPTY_IN_VARIANT[0..0] == [];
  }

  lemma VariantRefused()
    ensures Encode(ONE_VARIANT, [Value.Variant(Value.Array([]))]) == Err(Unsupported(EmptyArrayInVariant))
  {
    hide Parse;
    BothParse();
    var v := Value.Variant(Value.Array([]));
    assert SignatureOf(Value.Array([]), 0) == Err(Unsupported(EmptyArrayInVariant));
    assert EncVariant(0, Value.Array([]), 0) == Err(Unsupported(EmptyArrayInVariant));
    assert Enc(0, Type.Variant, v, 0) == Err(Unsupported(EmptyArrayInVariant));
    assert EncFields(0, [Type.Variant], [v], 0) == Err(Unsupported(EmptyArrayInVariant));
  }

  /** The failing input: eight bytes are accepted, and what they say is refused again. */
  lemma EmptyIsNotWrittenBack()
    ensures Decode(ONE_VARIANT, EMPTY_IN_VARIANT) == Ok([Value.Variant(Value.Array([]))])
    ensures Encode(ONE_VARIANT, [Value.Variant(Value.Array([]))]) == Err(Unsupported(EmptyArrayInVariant))
  {
    hide Parse, DecFields, Encode;
    BothParse();
    VariantRefused();
    VariantFills();
  }

  lemma VariantFills()
    ensures DecFields(EMPTY_IN_VARIANT, 0, 0, [Type.Variant], 0) == Ok(Got([Value.Variant(Value.Array([]))], 8, 2))
  {
    hide Parse, Dec;
    VariantRead();
    var v := Value.Variant(Value.Array([]));
    var types := [Type.Variant];
    assert types[1..] == [];
    assert DecFields(EMPTY_IN_VARIANT, 8, 2, types[1..], 0) == Ok(Got([], 8, 2));
    assert [v] + [] == [v];
  }
}
