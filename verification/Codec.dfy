/**
 The encoder and the decoder as the program runs them: a growing buffer whose array
 lengths are patched in afterwards, and a reader that moves a cursor. Each is proved to
 do what the functions of `Wire` say.
 */
module Codec {
  import opened Results
  import opened Bytes
  import opened Utf8Text
  import opened Signatures
  import opened Wire

  // ----- writing -----

  /** The `Vec<u8>` a block is marshalled into. */
  class Buffer {
    var data: seq<byte>

    constructor ()
      ensures data == []
    {
      data := [];
    }

    method Push(bytes: seq<byte>)
      modifies this
      ensures data == old(data) + bytes
    {
      data := data + bytes;
    }

    method Pad(align: nat)
      requires align != 0
      modifies this
      ensures data == old(data) + Zeros(PadLen(|old(data)|, align))
    {
      var over := |data| % align;
      if over != 0 {
        data := data + Zeros(align - over);
      }
    }
  }

  /** A write of `spec` after `before`: it grew the buffer by exactly that, or failed as that does. */
  ghost predicate Wrote(before: seq<byte>, after: seq<byte>, r: Wired<()>, spec: Wired<seq<byte>>) {
    match spec
    case Ok(bytes) => r.Ok? && after == before + bytes
    case Err(why) => r == Err(why)
  }

  method EncodeStr(out: Buffer, text: seq<byte>) returns (r: Wired<()>)
    modifies out
    ensures Wrote(old(out.data), out.data, r, EncStr(text))
  {
    if 0 in text {
      return Err(BadString);
    }
    if |text| >= 0x1_0000_0000 {
      return Err(ArrayTooLong(|text|));
    }
    out.Push(Le(|text|, 4));
    out.Push(text);
    out.Push([0]);
    assert out.data == old(out.data) + (Le(|text|, 4) + text + [0]);
    return Ok(());
  }

  method EncodeSignature(out: Buffer, sig: seq<byte>)
    modifies out
    ensures out.data == old(out.data) + EncSig(sig)
  {
    out.Push([|sig| % 256]);
    out.Push(sig);
    out.Push([0]);
    assert out.data == old(out.data) + EncSig(sig);
  }

  method EncodeValue(out: Buffer, ty: Type, v: Value, depth: nat) returns (r: Wired<()>)
    modifies out
    ensures Wrote(old(out.data), out.data, r, Enc(|old(out.data)|, ty, v, depth))
    decreases MAX_DEPTH + 1 - depth, 1, 0
  {
    hide EncBody;
    if depth > MAX_DEPTH {
      return Err(Depth);
    }
    out.Pad(ty.Alignment());
    ghost var padded := out.data;
    r := EncodeBody(out, ty, v, depth);
    if r.Ok? {
      assert out.data == old(out.data)
        + (Zeros(PadLen(|old(out.data)|, ty.Alignment())) + EncBody(|padded|, ty, v, depth).value);
    }
  }

  method EncodeBody(out: Buffer, ty: Type, v: Value, depth: nat) returns (r: Wired<()>)
    requires depth <= MAX_DEPTH
    modifies out
    ensures Wrote(old(out.data), out.data, r, EncBody(|old(out.data)|, ty, v, depth))
    decreases MAX_DEPTH + 1 - depth, 0, 1
  {
    hide EncArray, EncVariant, EncFields, EncStr, EncSig, Raw, Le, ValidObjectPath, ParseSignature;
    if Fixed(ty) {
      var n := Raw(ty, v);
      if n.None? {
        return Err(Mismatch(ty, v));
      }
      out.Push(Le(n.value, ty.Alignment()));
      return Ok(());
    }
    if ty.Array? {
      r := EncodeArray(out, ty.element, v, depth);
    } else if ty.Str? && v.Str? {
      r := EncodeStr(out, v.text);
    } else if ty.ObjectPath? && v.ObjectPath? {
      if !ValidObjectPath(v.path) {
        return Err(BadObjectPath(v.path));
      }
      r := EncodeStr(out, v.path);
    } else if ty.Signature? && v.Signature? {
      var types := ReadSignature(v.sig);
      if types.None? {
        return Err(BadSignature(v.sig));
      }
      EncodeSignature(out, v.sig);
      r := Ok(());
    } else if ty.Struct? && v.Struct? {
      if |ty.fields| != |v.fields| {
        return Err(Arity(|ty.fields|, |v.fields|));
      }
      r := EncodeFields(out, ty.fields, v.fields, depth + 1);
    } else if ty.Variant? && v.Variant? {
      r := EncodeVariant(out, v.inner, depth);
    } else {
      r := Err(Mismatch(ty, v));
    }
  }

  method EncodeVariant(out: Buffer, inner: Value, depth: nat) returns (r: Wired<()>)
    requires depth <= MAX_DEPTH
    modifies out
    ensures Wrote(old(out.data), out.data, r, EncVariant(|old(out.data)|, inner, depth))
    decreases MAX_DEPTH + 1 - depth, 0, 0
  {
    hide Enc, EncSig, SignatureOf;
    var sig := SignatureOf(inner, 0);
    if sig.Err? {
      return Err(sig.error);
    }
    var types := ReadSignature(sig.value);
    if types.None? || |types.value| != 1 {
      return Err(BadSignature(sig.value));
    }
    EncodeSignature(out, sig.value);
    ghost var before := out.data;
    r := EncodeValue(out, types.value[0], inner, depth + 1);
    if r.Ok? {
      assert out.data == old(out.data)
        + (EncSig(sig.value) + Enc(|before|, types.value[0], inner, depth + 1).value);
    }
  }

  /** Struct fields, and the values of a whole block, in a loop. */
  method EncodeFields(out: Buffer, types: seq<Type>, vs: seq<Value>, depth: nat) returns (r: Wired<()>)
    requires |types| == |vs|
    modifies out
    ensures Wrote(old(out.data), out.data, r, EncFields(|old(out.data)|, types, vs, depth))
    decreases MAX_DEPTH + 1 - depth, 2, 0
  {
    hide Enc;
    ghost var whole := EncFields(|out.data|, types, vs, depth);
    ghost var done: seq<byte> := [];
    var i := 0;
    assert types[0..] == types && vs[0..] == vs;
    while i < |types|
      invariant i <= |types|
      invariant out.data == old(out.data) + done
      invariant Continues(whole, done, EncFields(|out.data|, types[i..], vs[i..], depth))
    {
      ghost var before := |out.data|;
      FieldStep(whole, done, before, types, vs, i, depth);
      r := EncodeValue(out, types[i], vs[i], depth);
      if r.Err? {
        return;
      }
      done := done + Enc(before, types[i], vs[i], depth).value;
      i := i + 1;
    }
    assert done + [] == done;
    r := Ok(());
  }

  /** What is left to write continues what is done to the whole. */
  ghost predicate Continues(whole: Wired<seq<byte>>, done: seq<byte>, rest: Wired<seq<byte>>) {
    match rest
    case Ok(bytes) => whole.Ok? && whole.value == done + bytes
    case Err(why) => whole == Err(why)
  }

  /** One more element written: either the loop carries on from it, or it was the failure. */
  lemma ItemStep(
    whole: Wired<seq<byte>>, done: seq<byte>, pos: nat, element: Type, items: seq<Value>, i: nat, depth: nat)
    requires i < |items| && Continues(whole, done, EncItems(pos, element, items[i..], depth))
    ensures match Enc(pos, element, items[i], depth)
            case Ok(e) => Continues(whole, done + e, EncItems(pos + |e|, element, items[i + 1..], depth))
            case Err(why) => whole == Err(why)
  {
    hide Enc;
    assert items[i..][1..] == items[i + 1..];
  }

  lemma EntryStep(
    whole: Wired<seq<byte>>, done: seq<byte>, pos: nat, entry: Type, entries: seq<Entry>, i: nat, depth: nat)
    requires i < |entries| && Continues(whole, done, EncEntries(pos, entry, entries[i..], depth))
    ensures match EncEntry(pos, entry, entries[i], depth)
            case Ok(e) => Continues(whole, done + e, EncEntries(pos + |e|, entry, entries[i + 1..], depth))
            case Err(why) => whole == Err(why)
  {
    hide EncEntry;
    assert entries[i..][1..] == entries[i + 1..];
  }

  lemma FieldStep(
    whole: Wired<seq<byte>>, done: seq<byte>, pos: nat, types: seq<Type>, vs: seq<Value>, i: nat, depth: nat)
    requires i < |types| == |vs| && Continues(whole, done, EncFields(pos, types[i..], vs[i..], depth))
    ensures match Enc(pos, types[i], vs[i], depth)
            case Ok(e) => Continues(whole, done + e, EncFields(pos + |e|, types[i + 1..], vs[i + 1..], depth))
            case Err(why) => whole == Err(why)
  {
    hide Enc;
    assert types[i..][1..] == types[i + 1..] && vs[i..][1..] == vs[i + 1..];
  }

  /** An array: a nul length, padding, the elements, then the length patched in. */
  method EncodeArray(out: Buffer, element: Type, v: Value, depth: nat) returns (r: Wired<()>)
    requires depth <= MAX_DEPTH
    modifies out
    ensures Wrote(old(out.data), out.data, r, EncArray(|old(out.data)|, element, v, depth))
    decreases MAX_DEPTH + 1 - depth, 0, 0
  {
    hide EncArray, EncElements, Le, PadLen, Zeros;
    if depth >= MAX_DEPTH {
      TooDeepForArray(|out.data|, element, v, depth);
      return Err(Depth);
    }
    ghost var before := out.data;
    ArrayShape(|before|, element, v, depth);
    var lengthAt := |out.data|;
    out.Push(Le(0, 4));
    out.Pad(element.Alignment());
    var start := |out.data|;
    ghost var ready := out.data;
    r := EncodeElements(out, element, v, depth + 1);
    if r.Err? {
      return;
    }
    var length := |out.data| - start;
    if length > MAX_ARRAY {
      return Err(ArrayTooLong(length));
    }
    BackPatched(before, Le(0, 4), ready[|before| + 4..], out.data[start..], Le(length, 4), out.data);
    out.data := out.data[..lengthAt] + Le(length, 4) + out.data[lengthAt + 4..];
  }

  lemma BackPatched(
    before: seq<byte>, blank: seq<byte>, gap: seq<byte>, elements: seq<byte>, word: seq<byte>, data: seq<byte>)
    requires data == before + blank + gap + elements && |blank| == |word|
    ensures data[..|before|] + word + data[|before| + |blank|..] == before + (word + gap + elements)
  {
    assert data[..|before|] == before;
    assert data[|before| + |blank|..] == gap + elements;
  }

  method EncodeElements(out: Buffer, element: Type, v: Value, depth: nat) returns (r: Wired<()>)
    requires depth <= MAX_DEPTH
    modifies out
    ensures Wrote(old(out.data), out.data, r, EncElements(|old(out.data)|, element, v, depth))
    decreases MAX_DEPTH + 1 - depth, 3, 0
  {
    hide EncItems, EncEntries;
    if element.Byte? {
      if !v.ByteArray? {
        return Err(TypeMismatch(ARRAY, v));
      }
      out.Push(v.bytes);
      return Ok(());
    }
    if element.DictEntry? {
      if !v.Dict? {
        return Err(TypeMismatch(ARRAY, v));
      }
      if !element.key.Str? {
        return Err(Unsupported(DictKeyNotString));
      }
      r := EncodeEntries(out, element.value, v.entries, depth);
    } else {
      if !v.Array? {
        return Err(TypeMismatch(ARRAY, v));
      }
      r := EncodeItems(out, element, v.items, depth);
    }
  }

  method EncodeItems(out: Buffer, element: Type, items: seq<Value>, depth: nat) returns (r: Wired<()>)
    modifies out
    ensures Wrote(old(out.data), out.data, r, EncItems(|old(out.data)|, element, items, depth))
    decreases MAX_DEPTH + 1 - depth, 2, 0
  {
    hide Enc;
    ghost var whole := EncItems(|out.data|, element, items, depth);
    ghost var done: seq<byte> := [];
    var i := 0;
    assert items[0..] == items;
    while i < |items|
      invariant i <= |items|
      invariant out.data == old(out.data) + done
      invariant Continues(whole, done, EncItems(|out.data|, element, items[i..], depth))
    {
      ghost var before := |out.data|;
      ItemStep(whole, done, before, element, items, i, depth);
      r := EncodeValue(out, element, items[i], depth);
      if r.Err? {
        return;
      }
      done := done + Enc(before, element, items[i], depth).value;
      i := i + 1;
    }
    assert done + [] == done;
    r := Ok(());
  }

  method EncodeEntries(out: Buffer, entry: Type, entries: seq<Entry>, depth: nat) returns (r: Wired<()>)
    modifies out
    ensures Wrote(old(out.data), out.data, r, EncEntries(|old(out.data)|, entry, entries, depth))
    decreases MAX_DEPTH + 1 - depth, 2, 0
  {
    hide EncEntry;
    ghost var whole := EncEntries(|out.data|, entry, entries, depth);
    ghost var done: seq<byte> := [];
    var i := 0;
    assert entries[0..] == entries;
    while i < |entries|
      invariant i <= |entries|
      invariant out.data == old(out.data) + done
      invariant Continues(whole, done, EncEntries(|out.data|, entry, entries[i..], depth))
    {
      ghost var before := |out.data|;
      EntryStep(whole, done, before, entry, entries, i, depth);
      r := EncodeEntry(out, entry, entries[i], depth);
      if r.Err? {
        return;
      }
      done := done + EncEntry(before, entry, entries[i], depth).value;
      i := i + 1;
    }
    assert done + [] == done;
    r := Ok(());
  }

  method EncodeEntry(out: Buffer, entry: Type, item: Entry, depth: nat) returns (r: Wired<()>)
    modifies out
    ensures Wrote(old(out.data), out.data, r, EncEntry(|old(out.data)|, entry, item, depth))
    decreases MAX_DEPTH + 1 - depth, 1, 1
  {
    hide Enc, EncStr;
    out.Pad(8);
    ghost var gap := Zeros(PadLen(|old(out.data)|, 8));
    r := EncodeStr(out, item.key);
    if r.Err? {
      return;
    }
    ghost var before := out.data;
    r := EncodeValue(out, entry, item.value, depth);
    if r.Ok? {
      assert out.data == old(out.data)
        + (gap + EncStr(item.key).value + Enc(|before|, entry, item.value, depth).value);
    }
  }

  /** `encode` */
  method EncodeBlock(sig: seq<byte>, vs: seq<Value>) returns (r: Wired<seq<byte>>)
    ensures r == Encode(sig, vs)
  {
    hide EncFields;
    var types := ReadSignature(sig);
    if types.None? {
      return Err(BadSignature(sig));
    }
    if |types.value| != |vs| {
      return Err(Arity(|types.value|, |vs|));
    }
    var out := new Buffer();
    var done := EncodeFields(out, types.value, vs, 0);
    assert forall bytes: seq<byte> :: [] + bytes == bytes;
    r := if done.Ok? then Ok(out.data) else Err(done.error);
  }

  // ----- reading -----

  /** A cursor over a block, with the count of values it has produced. */
  class Reader {
    const buf: seq<byte>
    var at: nat
    var values: nat

    constructor (buf: seq<byte>)
      ensures this.buf == buf && at == 0 && values == 0
    {
      this.buf := buf;
      at, values := 0, 0;
    }

    method CountValue() returns (r: Wired<()>)
      modifies this
      ensures at == old(at) && values == old(values) + 1
      ensures r == if values > MAX_VALUES then Err(TooManyValues) else Ok(())
    {
      values := values + 1;
      r := if values > MAX_VALUES then Err(TooManyValues) else Ok(());
    }

    method TakeBytes(n: nat) returns (r: Wired<seq<byte>>)
      modifies this
      ensures values == old(values) && r == Take(buf, old(at), n)
      ensures at == if r.Ok? then old(at) + n else old(at)
    {
      if at + n > |buf| {
        return Err(Truncated);
      }
      r := Ok(buf[at..at + n]);
      at := at + n;
    }

    method SkipPadding(align: nat) returns (r: Wired<()>)
      requires align != 0
      modifies this
      ensures values == old(values)
      ensures match Align(buf, old(at), align)
              case Ok(next) => r.Ok? && at == next
              case Err(why) => r == Err(why)
    {
      var over := at % align;
      var padding := if over == 0 then 0 else align - over;
      var gap := TakeBytes(padding);
      if gap.Err? {
        return Err(gap.error);
      }
      var i := 0;
      while i < |gap.value|
        invariant i <= |gap.value|
        invariant forall k :: 0 <= k < i ==> gap.value[k] == 0
      {
        if gap.value[i] != 0 {
          return Err(Padding);
        }
        i := i + 1;
      }
      r := Ok(());
    }

    method Uint32() returns (r: Wired<u32>)
      modifies this
      ensures values == old(values) && r == DecUint32(buf, old(at))
      ensures r.Ok? ==> at == old(at) + 4
    {
      var bytes := TakeBytes(4);
      if bytes.Err? {
        return Err(bytes.error);
      }
      LeOfUnLe(bytes.value);
      Powers();
      r := Ok(UnLe(bytes.value));
    }

    method ReadText(len: nat) returns (r: Wired<Text>)
      modifies this
      ensures values == old(values) && r == DecText(buf, old(at), len)
      ensures r.Ok? ==> at == old(at) + len + 1
    {
      var text := TakeBytes(len);
      if text.Err? {
        return Err(text.error);
      }
      if 0 in text.value {
        return Err(BadString);
      }
      var nul := TakeBytes(1);
      if nul.Err? {
        return Err(nul.error);
      }
      if nul.value[0] != 0 || !Utf8(text.value) {
        return Err(BadString);
      }
      r := Ok(text.value);
    }

    /** A string behind its length word. */
    method ReadStr() returns (r: Wired<Text>)
      modifies this
      ensures values == old(values)
      ensures match DecStr(buf, old(at))
              case Ok(read) => r == Ok(read.0) && at == read.1
              case Err(why) => r == Err(why)
    {
      var len := Uint32();
      if len.Err? {
        return Err(len.error);
      }
      r := ReadText(len.value);
    }

    /** A signature behind its length byte. */
    method ReadSig() returns (r: Wired<Text>)
      modifies this
      ensures values == old(values)
      ensures match DecSig(buf, old(at))
              case Ok(read) => r == Ok(read.0) && at == read.1
              case Err(why) => r == Err(why)
    {
      var len := TakeBytes(1);
      if len.Err? {
        return Err(len.error);
      }
      r := ReadText(len.value[0]);
    }
  }

  /** A read of `spec`: the value, with the cursor and the count moved as that says, or its error. */
  ghost predicate ReadAs<T>(at: nat, values: nat, r: Wired<T>, spec: Wired<Got<T>>) {
    match spec
    case Ok(got) => r == Ok(got.value) && at == got.at && values == got.count
    case Err(why) => r == Err(why)
  }

  method DecodeValue(reader: Reader, ty: Type, depth: nat) returns (r: Wired<Value>)
    requires Solid(ty)
    modifies reader
    ensures ReadAs(reader.at, reader.values, r, Dec(reader.buf, old(reader.at), old(reader.values), ty, depth))
    decreases MAX_DEPTH + 1 - depth, 1, 0
  {
    hide DecBody, Solid;
    if depth > MAX_DEPTH {
      return Err(Depth);
    }
    var counted := reader.CountValue();
    if counted.Err? {
      return Err(counted.error);
    }
    var aligned := reader.SkipPadding(ty.Alignment());
    if aligned.Err? {
      return Err(aligned.error);
    }
    r := DecodeBody(reader, ty, depth);
  }

  method DecodeBody(reader: Reader, ty: Type, depth: nat) returns (r: Wired<Value>)
    requires Solid(ty) && depth <= MAX_DEPTH && reader.values <= MAX_VALUES
    modifies reader
    ensures ReadAs(reader.at, reader.values, r, DecBody(reader.buf, old(reader.at), old(reader.values), ty, depth))
    decreases MAX_DEPTH + 1 - depth, 0, 1
  {
    hide DecArray, DecVariant, DecFields, DecStr, DecSig;
    if Fixed(ty) {
      var bytes := reader.TakeBytes(ty.Alignment());
      if bytes.Err? {
        return Err(bytes.error);
      }
      LeOfUnLe(bytes.value);
      r := FromRaw(ty, UnLe(bytes.value));
    } else if ty.Array? {
      r := DecodeArray(reader, ty.element, depth);
    } else if ty.Str? {
      var s := reader.ReadStr();
      r := if s.Ok? then Ok(Value.Str(s.value)) else Err(s.error);
    } else if ty.ObjectPath? {
      var s := reader.ReadStr();
      if s.Err? {
        return Err(s.error);
      }
      r := if ValidObjectPath(s.value) then Ok(Value.ObjectPath(s.value)) else Err(BadObjectPath(s.value));
    } else if ty.Signature? {
      var s := reader.ReadSig();
      if s.Err? {
        return Err(s.error);
      }
      var types := ReadSignature(s.value);
      r := if types.Some? then Ok(Value.Signature(s.value)) else Err(BadSignature(s.value));
    } else if ty.Variant? {
      r := DecodeVariant(reader, depth);
    } else if ty.Struct? {
      var fields := DecodeFields(reader, ty.fields, depth + 1);
      r := if fields.Ok? then Ok(Value.Struct(fields.value)) else Err(fields.error);
    } else {
      r := Err(Unsupported(LooseDictEntry));
    }
  }

  method DecodeVariant(reader: Reader, depth: nat) returns (r: Wired<Value>)
    requires depth <= MAX_DEPTH && reader.values <= MAX_VALUES
    modifies reader
    ensures ReadAs(reader.at, reader.values, r, DecVariant(reader.buf, old(reader.at), old(reader.values), depth))
    decreases MAX_DEPTH + 1 - depth, 0, 0
  {
    hide Dec, DecSig;
    var sig := reader.ReadSig();
    if sig.Err? {
      return Err(sig.error);
    }
    var types := ReadSignature(sig.value);
    if types.None? || |types.value| != 1 {
      return Err(BadSignature(sig.value));
    }
    ParsedIsSolid(sig.value);
    var inner := DecodeValue(reader, types.value[0], depth + 1);
    r := if inner.Ok? then Ok(Value.Variant(inner.value)) else Err(inner.error);
  }

  method DecodeArray(reader: Reader, element: Type, depth: nat) returns (r: Wired<Value>)
    requires Solid(element) && depth <= MAX_DEPTH && reader.values <= MAX_VALUES
    modifies reader
    ensures ReadAs(reader.at, reader.values, r,
                   DecArray(reader.buf, old(reader.at), old(reader.values), element, depth))
    decreases MAX_DEPTH + 1 - depth, 0, 0
  {
    hide DecElements, DecUint32, Align, Solid;
    if depth >= MAX_DEPTH {
      return Err(Depth);
    }
    var length := reader.Uint32();
    if length.Err? {
      return Err(length.error);
    }
    if length.value > MAX_ARRAY {
      return Err(ArrayTooLong(length.value));
    }
    var aligned := reader.SkipPadding(element.Alignment());
    if aligned.Err? {
      return Err(aligned.error);
    }
    var end := reader.at + length.value;
    if end > |reader.buf| {
      return Err(Truncated);
    }
    r := DecodeElements(reader, end, element, depth + 1);
  }

  method DecodeElements(reader: Reader, end: nat, element: Type, depth: nat) returns (r: Wired<Value>)
    requires Solid(element) && depth <= MAX_DEPTH && reader.values <= MAX_VALUES
    requires reader.at <= end <= |reader.buf|
    modifies reader
    ensures ReadAs(reader.at, reader.values, r,
                   DecElements(reader.buf, old(reader.at), end, old(reader.values), element, depth))
    decreases MAX_DEPTH + 1 - depth, 3, 0
  {
    hide DecItems, DecEntries;
    if element.Byte? {
      var bytes := reader.TakeBytes(end - reader.at);
      r := Ok(Value.ByteArray(bytes.value));
    } else if element.DictEntry? {
      if !element.key.Str? {
        return Err(Unsupported(DictKeyNotString));
      }
      var entries := DecodeEntries(reader, end, element.value, depth);
      r := if entries.Ok? then Ok(Value.Dict(entries.value)) else Err(entries.error);
    } else {
      var items := DecodeItems(reader, end, element, depth);
      r := if items.Ok? then Ok(Value.Array(items.value)) else Err(items.error);
    }
  }

  /** What is left to read continues what was read to the whole. */
  ghost predicate Resumes<T>(whole: Wired<Got<seq<T>>>, done: seq<T>, rest: Wired<Got<seq<T>>>) {
    match rest
    case Ok(got) => && whole.Ok? && whole.value.value == done + got.value
                    && whole.value.at == got.at && whole.value.count == got.count
    case Err(why) => whole == Err(why)
  }

  /** The loop ends because every element takes at least one byte. */
  method DecodeItems(reader: Reader, end: nat, element: Type, depth: nat) returns (r: Wired<seq<Value>>)
    requires Solid(element) && reader.values <= MAX_VALUES && reader.at <= end <= |reader.buf|
    modifies reader
    ensures ReadAs(reader.at, reader.values, r,
                   DecItems(reader.buf, old(reader.at), end, old(reader.values), element, depth))
    decreases MAX_DEPTH + 1 - depth, 2, 0
  {
    hide Dec, Solid;
    ghost var whole := DecItems(reader.buf, reader.at, end, reader.values, element, depth);
    var items: seq<Value> := [];
    while reader.at < end
      invariant reader.at <= end && reader.values <= MAX_VALUES
      invariant Resumes(whole, items, DecItems(reader.buf, reader.at, end, reader.values, element, depth))
      decreases end - reader.at
    {
      var item := DecodeValue(reader, element, depth);
      if item.Err? {
        return Err(item.error);
      }
      if reader.at > end {
        return Err(Truncated);
      }
      items := items + [item.value];
    }
    assert items + [] == items;
    r := Ok(items);
  }

  method DecodeEntries(reader: Reader, end: nat, entry: Type, depth: nat) returns (r: Wired<seq<Entry>>)
    requires Solid(entry) && reader.values <= MAX_VALUES && reader.at <= end <= |reader.buf|
    modifies reader
    ensures ReadAs(reader.at, reader.values, r,
                   DecEntries(reader.buf, old(reader.at), end, old(reader.values), entry, depth))
    decreases MAX_DEPTH + 1 - depth, 2, 0
  {
    hide DecEntry, Solid;
    ghost var whole := DecEntries(reader.buf, reader.at, end, reader.values, entry, depth);
    var entries: seq<Entry> := [];
    while reader.at < end
      invariant reader.at <= end && reader.values <= MAX_VALUES
      invariant Resumes(whole, entries, DecEntries(reader.buf, reader.at, end, reader.values, entry, depth))
      decreases end - reader.at
    {
      var item := DecodeEntry(reader, entry, depth);
      if item.Err? {
        return Err(item.error);
      }
      if reader.at > end {
        return Err(Truncated);
      }
      entries := entries + [item.value];
    }
    assert entries + [] == entries;
    r := Ok(entries);
  }

  method DecodeEntry(reader: Reader, entry: Type, depth: nat) returns (r: Wired<Entry>)
    requires Solid(entry) && reader.values <= MAX_VALUES
    modifies reader
    ensures ReadAs(reader.at, reader.values, r,
                   DecEntry(reader.buf, old(reader.at), old(reader.values), entry, depth))
    decreases MAX_DEPTH + 1 - depth, 1, 1
  {
    hide Dec, DecStr, Align, Solid;
    var counted := reader.CountValue();
    if counted.Err? {
      return Err(counted.error);
    }
    var aligned := reader.SkipPadding(8);
    if aligned.Err? {
      return Err(aligned.error);
    }
    var key := reader.ReadStr();
    if key.Err? {
      return Err(key.error);
    }
    var value := DecodeValue(reader, entry, depth);
    r := if value.Ok? then Ok(Entry(key.value, value.value)) else Err(value.error);
  }

  method DecodeFields(reader: Reader, types: seq<Type>, depth: nat) returns (r: Wired<seq<Value>>)
    requires AllSolid(types) && reader.values <= MAX_VALUES
    modifies reader
    ensures ReadAs(reader.at, reader.values, r,
                   DecFields(reader.buf, old(reader.at), old(reader.values), types, depth))
    decreases MAX_DEPTH + 1 - depth, 2, 0
  {
    hide Dec, Solid;
    ghost var whole := DecFields(reader.buf, reader.at, reader.values, types, depth);
    var out: seq<Value> := [];
    var i := 0;
    assert types[0..] == types;
    while i < |types|
      invariant i <= |types| && reader.values <= MAX_VALUES
      invariant Resumes(whole, out, DecFields(reader.buf, reader.at, reader.values, types[i..], depth))
    {
      var field := DecodeValue(reader, types[i], depth);
      if field.Err? {
        return Err(field.error);
      }
      out := out + [field.value];
      assert types[i..][1..] == types[i + 1..];
      i := i + 1;
    }
    assert out + [] == out;
    r := Ok(out);
  }

  /** `decode` */
  method DecodeBlock(sig: seq<byte>, body: seq<byte>) returns (r: Wired<seq<Value>>)
    ensures r == Decode(sig, body)
  {
    hide DecFields;
    var types := ReadSignature(sig);
    if types.None? {
      return Err(BadSignature(sig));
    }
    ParsedIsSolid(sig);
    var reader := new Reader(body);
    var out := DecodeFields(reader, types.value, 0);
    if out.Err? {
      return Err(out.error);
    }
    if reader.at != |body| {
      return Err(Trailing(|body| - reader.at));
    }
    r := Ok(out.value);
  }
}
