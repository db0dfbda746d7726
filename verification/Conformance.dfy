/** The decoder accepts exactly the blocks of the format, and the encoder writes no others. */
module Conformance {
  import opened Results
  import opened Bytes
  import opened Utf8Text
  import opened Signatures
  import opened Wire
  import opened RoundTrip
  import opened Budget
  import opened Format
  import opened Canonical

  // ----- what is decoded is of the format -----

  lemma StrIsString(b: seq<byte>, at: nat)
    requires DecStr(b, at).Ok?
    ensures StringAt(b, at, DecStr(b, at).value.1, DecStr(b, at).value.0)
    ensures DecStr(b, at).value.1 == at + 4 + |DecStr(b, at).value.0| + 1
  {
    hide Utf8, Le, UnLe, NumberAt;
    var len := DecUint32(b, at).value;
    NumberRead(b, at, 4);
    assert b[at + 4 + len..at + 4 + len + 1][0] == b[at + 4 + len];
  }

  lemma StringIsStr(b: seq<byte>, at: nat, end: nat, text: Text)
    requires StringAt(b, at, end, text)
    ensures DecStr(b, at) == Ok((text, end))
  {
    hide Utf8, Le, UnLe, NumberAt;
    NumberIs(b, at, 4, |text|);
    assert DecUint32(b, at) == Ok(|text|);
    assert b[at + 4 + |text|..at + 4 + |text| + 1][0] == b[end - 1];
  }

  lemma SigIsSignature(b: seq<byte>, at: nat)
    requires DecSig(b, at).Ok? && ParseSignature(DecSig(b, at).value.0).Some?
    ensures SignatureAt(b, at, DecSig(b, at).value.1, DecSig(b, at).value.0)
  {
    hide Utf8, ParseSignature;
    var len := b[at];
    assert b[at..at + 1][0] == len;
    assert b[at + 1 + len..at + 1 + len + 1][0] == b[at + 1 + len];
  }

  lemma SignatureIsSig(b: seq<byte>, at: nat, end: nat, sig: seq<byte>)
    requires SignatureAt(b, at, end, sig)
    ensures DecSig(b, at) == Ok((sig, end))
  {
    hide Utf8, ParseSignature;
    SignatureIsText(sig);
    SignatureHasNoNul(sig);
    assert b[at..at + 1][0] == b[at];
    assert b[at + 1 + |sig|..at + 1 + |sig| + 1][0] == b[end - 1];
  }

  lemma SignatureHasNoNul(sig: seq<byte>)
    requires ParseSignature(sig).Some?
    ensures 0 !in sig
  {
    hide ParseTypes;
    SignatureIffRendered(sig, ParseSignature(sig).value);
    RenderAllPrintable(ParseSignature(sig).value);
  }

  lemma {:induction false} DecodedValue(b: seq<byte>, at: nat, count: nat, ty: Type, depth: nat, got: Got<Value>)
    requires Solid(ty) && Dec(b, at, count, ty, depth) == Ok(got)
    ensures ValueAt(b, at, got.at, ty, got.value, depth)
    decreases MAX_DEPTH + 1 - depth, 1, 0
  {
    hide DecBody, Solid, BodyAt, First, Align, NulBetween;
    TablesAgree(ty);
    PaddingAt(b, at, ty.Alignment());
    DecodedBody(b, First(at, ty.Alignment()), count + 1, ty, depth, got);
  }

  lemma {:induction false} DecodedBody(b: seq<byte>, at: nat, count: nat, ty: Type, depth: nat, got: Got<Value>)
    requires Solid(ty) && depth <= MAX_DEPTH && count <= MAX_VALUES
    requires DecBody(b, at, count, ty, depth) == Ok(got)
    ensures BodyAt(b, at, got.at, ty, got.value, depth)
    decreases MAX_DEPTH + 1 - depth, 0, 1
  {
    hide DecArray, DecVariant, DecFields, DecStr, DecSig, ArrayAt, ContentsAt, FieldsAt, StringAt, SignatureAt,
         NumberAt, UnLe, ParseSignature, Pow256, FromRaw;
    if Fixed(ty) {
      DecodedFixed(b, at, count, ty, depth, got);
    } else if ty.Array? {
      DecodedArray(b, at, count, ty.element, depth, got);
    } else if ty.Str? || ty.ObjectPath? {
      StrIsString(b, at);
    } else if ty.Signature? {
      SigIsSignature(b, at);
    } else if ty.Variant? {
      DecodedVariant(b, at, count, depth, got);
    } else {
      DecodedFields(b, at, count, ty.fields, depth + 1, DecFields(b, at, count, ty.fields, depth + 1).value);
    }
  }

  lemma DecodedFixed(b: seq<byte>, at: nat, count: nat, ty: Type, depth: nat, got: Got<Value>)
    requires Fixed(ty) && depth <= MAX_DEPTH && count <= MAX_VALUES
    requires DecBody(b, at, count, ty, depth) == Ok(got)
    ensures BodyAt(b, at, got.at, ty, got.value, depth)
  {
    hide UnLe, Pow256, NumberAt, Spelled, Raw, FromRaw, DecArray, DecVariant, DecFields, DecStr, DecSig;
    NumberRead(b, at, ty.Alignment());
    FromRawCanonical(ty, UnLe(b[at..at + ty.Alignment()]));
    SpelledIsRaw(ty, got.value);
  }

  lemma {:induction false} DecodedVariant(b: seq<byte>, at: nat, count: nat, depth: nat, got: Got<Value>)
    requires depth <= MAX_DEPTH && count <= MAX_VALUES
    requires DecVariant(b, at, count, depth) == Ok(got)
    ensures got.value.Variant? && ContentsAt(b, at, got.at, got.value.inner, depth + 1)
    decreases MAX_DEPTH + 1 - depth, 0, 0
  {
    hide Dec, DecSig, Solid, SignatureAt, ValueAt, ParseSignature;
    var read := DecSig(b, at).value;
    ParsedIsSolid(read.0);
    var ty := ParseSignature(read.0).value[0];
    SigIsSignature(b, at);
    SignatureEnds(b, at, read.1, read.0);
    DecodedValue(b, read.1, count, ty, depth + 1, Dec(b, read.1, count, ty, depth + 1).value);
    assert ParseSignature(read.0).value == [ty];
  }

  lemma SignatureEnds(b: seq<byte>, at: nat, end: nat, sig: seq<byte>)
    requires SignatureAt(b, at, end, sig)
    ensures end == at + |sig| + 2
  {
    hide ParseSignature;
  }

  lemma {:induction false} DecodedArray(b: seq<byte>, at: nat, count: nat, element: Type, depth: nat, got: Got<Value>)
    requires Solid(element) && depth <= MAX_DEPTH && count <= MAX_VALUES
    requires DecArray(b, at, count, element, depth) == Ok(got)
    ensures depth < 64 && ArrayAt(b, at, got.at, element, got.value, depth + 1)
    decreases MAX_DEPTH + 1 - depth, 0, 0
  {
    hide DecItems, DecEntries, Align, UnLe, NumberAt, First, ItemsAt, EntriesAt, NulBetween, Solid;
    TablesAgree(element);
    PaddingAt(b, at + 4, element.Alignment());
    NumberRead(b, at, 4);
    var start := Align(b, at + 4, element.Alignment()).value;
    var end := got.at;
    if element.DictEntry? {
      SolidValue(element);
      DecodedEntries(b, start, end, count, element.value, depth + 1,
                     DecEntries(b, start, end, count, element.value, depth + 1).value);
    } else if !element.Byte? {
      DecodedItems(b, start, end, count, element, depth + 1,
                   DecItems(b, start, end, count, element, depth + 1).value);
    }
  }

  lemma SolidValue(entry: Type)
    requires entry.DictEntry? && Solid(entry)
    ensures Solid(entry.value)
  {
  }

  lemma {:induction false} DecodedItems(
    b: seq<byte>, at: nat, end: nat, count: nat, element: Type, depth: nat, got: Got<seq<Value>>)
    requires Solid(element) && count <= MAX_VALUES && at <= end <= |b| && depth <= MAX_DEPTH
    requires DecItems(b, at, end, count, element, depth) == Ok(got)
    ensures ItemsAt(b, at, end, element, got.value, depth)
    decreases MAX_DEPTH + 1 - depth, 2, end - at
  {
    hide Dec, Solid, ValueAt;
    if at < end {
      var first := Dec(b, at, count, element, depth).value;
      var rest := DecItems(b, first.at, end, first.count, element, depth).value;
      assert got.value[0] == first.value && got.value[1..] == rest.value;
      DecodedValue(b, at, count, element, depth, first);
      DecodedItems(b, first.at, end, first.count, element, depth, rest);
    }
  }

  lemma {:induction false} DecodedEntries(
    b: seq<byte>, at: nat, end: nat, count: nat, entry: Type, depth: nat, got: Got<seq<Entry>>)
    requires Solid(entry) && count <= MAX_VALUES && at <= end <= |b| && depth <= MAX_DEPTH
    requires DecEntries(b, at, end, count, entry, depth) == Ok(got)
    ensures EntriesAt(b, at, end, entry, got.value, depth)
    decreases MAX_DEPTH + 1 - depth, 2, end - at
  {
    hide DecEntry, Solid, EntryAt;
    if at < end {
      var first := DecEntry(b, at, count, entry, depth).value;
      var rest := DecEntries(b, first.at, end, first.count, entry, depth).value;
      assert got.value[0] == first.value && got.value[1..] == rest.value;
      DecodedEntry(b, at, count, entry, depth, first);
      DecodedEntries(b, first.at, end, first.count, entry, depth, rest);
    }
  }

  lemma {:induction false} DecodedEntry(b: seq<byte>, at: nat, count: nat, entry: Type, depth: nat, got: Got<Entry>)
    requires Solid(entry) && count <= MAX_VALUES && DecEntry(b, at, count, entry, depth) == Ok(got)
    ensures EntryAt(b, at, got.at, entry, got.value, depth)
    decreases MAX_DEPTH + 1 - depth, 1, 1
  {
    hide Dec, Align, DecStr, Solid, StringAt, ValueAt, First, NulBetween;
    PaddingAt(b, at, 8);
    var start := Align(b, at, 8).value;
    var key := DecStr(b, start).value;
    StrIsString(b, start);
    DecodedValue(b, key.1, count + 1, entry, depth, Dec(b, key.1, count + 1, entry, depth).value);
  }

  lemma {:induction false} DecodedFields(
    b: seq<byte>, at: nat, count: nat, types: seq<Type>, depth: nat, got: Got<seq<Value>>)
    requires AllSolid(types) && count <= MAX_VALUES
    requires DecFields(b, at, count, types, depth) == Ok(got)
    ensures FieldsAt(b, at, got.at, types, got.value, depth)
    decreases MAX_DEPTH + 1 - depth, 2, |types|
  {
    hide Dec, Solid, ValueAt;
    if types != [] {
      var first := Dec(b, at, count, types[0], depth).value;
      var rest := DecFields(b, first.at, first.count, types[1..], depth).value;
      assert got.value[0] == first.value && got.value[1..] == rest.value;
      DecodedValue(b, at, count, types[0], depth, first);
      DecodedFields(b, first.at, first.count, types[1..], depth, rest);
    }
  }

  // ----- what is of the format is decoded -----

  lemma {:induction false} ValueAccepted(
    b: seq<byte>, at: nat, end: nat, count: nat, ty: Type, v: Value, depth: nat)
    requires Solid(ty) && ValueAt(b, at, end, ty, v, depth) && count + Cost(v) <= MAX_VALUES
    ensures Dec(b, at, count, ty, depth) == Ok(Got(v, end, count + Cost(v)))
    decreases v, 2
  {
    hide DecBody, Solid, BodyAt, First, Align, NulBetween, Cost;
    TablesAgree(ty);
    PaddingAt(b, at, ty.Alignment());
    BodyAccepted(b, First(at, ty.Alignment()), end, count + 1, ty, v, depth);
  }

  lemma {:induction false} BodyAccepted(
    b: seq<byte>, at: nat, end: nat, count: nat, ty: Type, v: Value, depth: nat)
    requires Solid(ty) && depth <= MAX_DEPTH && BodyAt(b, at, end, ty, v, depth)
    requires count >= 1 && count - 1 + Cost(v) <= MAX_VALUES
    ensures DecBody(b, at, count, ty, depth) == Ok(Got(v, end, count - 1 + Cost(v)))
    decreases v, 1
  {
    hide DecArray, DecVariant, DecFields, DecStr, DecSig, ArrayAt, ContentsAt, FieldsAt, StringAt, SignatureAt,
         NumberAt, UnLe, ParseSignature, Pow256, FromRaw, CostAll, CostEntries;
    if Fixed(ty) {
      FixedAccepted(b, at, end, count, ty, v, depth);
    } else if ty.Array? {
      ArrayAccepted(b, at, end, count, ty.element, v, depth);
    } else if ty.Str? {
      StringIsStr(b, at, end, v.text);
    } else if ty.ObjectPath? {
      StringIsStr(b, at, end, v.path);
    } else if ty.Signature? {
      SignatureParses(b, at, end, v.sig);
      SignatureIsSig(b, at, end, v.sig);
    } else if ty.Variant? {
      VariantAccepted(b, at, end, count, v.inner, depth);
    } else {
      FieldsAccepted(b, at, end, count, ty.fields, v.fields, depth + 1);
    }
  }

  lemma SignatureParses(b: seq<byte>, at: nat, end: nat, sig: seq<byte>)
    requires SignatureAt(b, at, end, sig)
    ensures ParseSignature(sig).Some?
  {
    hide ParseSignature;
  }

  lemma FixedAccepted(b: seq<byte>, at: nat, end: nat, count: nat, ty: Type, v: Value, depth: nat)
    requires Fixed(ty) && depth <= MAX_DEPTH && BodyAt(b, at, end, ty, v, depth)
    requires count >= 1 && count - 1 + Cost(v) <= MAX_VALUES
    ensures DecBody(b, at, count, ty, depth) == Ok(Got(v, end, count - 1 + Cost(v)))
  {
    hide UnLe, Pow256, Spelled, Raw, FromRaw, DecArray, DecVariant, DecFields, DecStr, DecSig, Cost;
    SpelledIsRaw(ty, v);
    FixedIsNumber(b, at, end, ty, v, depth);
    var n := Raw(ty, v).value;
    NumberIs(b, at, ty.Alignment(), n);
    RawRoundTrip(ty, v);
    FixedCost(ty, v);
  }

  lemma FixedIsNumber(b: seq<byte>, at: nat, end: nat, ty: Type, v: Value, depth: nat)
    requires Fixed(ty) && BodyAt(b, at, end, ty, v, depth)
    ensures Spelled(ty, v).Some? && Raw(ty, v).Some?
    ensures end == at + ty.Alignment() && NumberAt(b, at, ty.Alignment(), Raw(ty, v).value)
    ensures at + ty.Alignment() <= |b|
  {
    hide Pow256, Spelled, Raw;
    SpelledIsRaw(ty, v);
  }

  lemma {:induction false} VariantAccepted(b: seq<byte>, at: nat, end: nat, count: nat, inner: Value, depth: nat)
    requires depth <= MAX_DEPTH && ContentsAt(b, at, end, inner, depth + 1) && count + Cost(inner) <= MAX_VALUES
    ensures DecVariant(b, at, count, depth) == Ok(Got(Value.Variant(inner), end, count + Cost(inner)))
    decreases inner, 3
  {
    hide Dec, DecSig, Solid, SignatureAt, ValueAt, ParseSignature, Cost;
    var sig: seq<byte>, ty: Type :|
      && ParseSignature(sig) == Some([ty]) && SignatureAt(b, at, at + |sig| + 2, sig)
      && ValueAt(b, at + |sig| + 2, end, ty, inner, depth + 1);
    SignatureIsSig(b, at, at + |sig| + 2, sig);
    ParsedIsSolid(sig);
    assert [ty][0] == ty && AllSolid([ty]);
    ValueAccepted(b, at + |sig| + 2, end, count, ty, inner, depth + 1);
  }

  lemma {:induction false} ArrayAccepted(
    b: seq<byte>, at: nat, end: nat, count: nat, element: Type, v: Value, depth: nat)
    requires Solid(element) && depth < 64 && ArrayAt(b, at, end, element, v, depth + 1)
    requires count >= 1 && count - 1 + Cost(v) <= MAX_VALUES
    ensures DecArray(b, at, count, element, depth) == Ok(Got(v, end, count - 1 + Cost(v)))
    decreases v, 0
  {
    hide DecItems, DecEntries, Align, UnLe, First, ItemsAt, EntriesAt, NulBetween, Solid, CostAll, CostEntries;
    TablesAgree(element);
    var first := First(at + 4, element.Alignment());
    PaddingAt(b, at + 4, element.Alignment());
    NumberIs(b, at, 4, end - first);
    assert DecUint32(b, at) == Ok(end - first);
    if element.DictEntry? {
      SolidValue(element);
      EntriesAccepted(b, first, end, count, element.value, v.entries, depth + 1);
    } else if !element.Byte? {
      ItemsAccepted(b, first, end, count, element, v.items, depth + 1);
    }
  }

  lemma {:induction false} ItemsAccepted(
    b: seq<byte>, at: nat, end: nat, count: nat, element: Type, items: seq<Value>, depth: nat)
    requires Solid(element) && at <= end <= |b| && ItemsAt(b, at, end, element, items, depth)
    requires count + CostAll(items) <= MAX_VALUES
    ensures DecItems(b, at, end, count, element, depth) == Ok(Got(items, end, count + CostAll(items)))
    decreases items, 0
  {
    hide Dec, Solid, ValueAt, Cost;
    if items != [] {
      var mid: nat :|
        ValueAt(b, at, mid, element, items[0], depth) && ItemsAt(b, mid, end, element, items[1..], depth);
      ValueAccepted(b, at, mid, count, element, items[0], depth);
      ItemsEnd(b, mid, end, element, items[1..], depth, count + Cost(items[0]));
      ItemsAccepted(b, mid, end, count + Cost(items[0]), element, items[1..], depth);
      assert items == [items[0]] + items[1..];
    }
  }

  /** A list of values ends no earlier than it begins. */
  lemma {:induction false} ItemsEnd(
    b: seq<byte>, at: nat, end: nat, element: Type, items: seq<Value>, depth: nat, count: nat)
    requires Solid(element) && ItemsAt(b, at, end, element, items, depth)
    requires count + CostAll(items) <= MAX_VALUES
    ensures at <= end
    decreases items, 0
  {
    hide Dec, Solid, ValueAt, Cost;
    if items != [] {
      var mid: nat :|
        ValueAt(b, at, mid, element, items[0], depth) && ItemsAt(b, mid, end, element, items[1..], depth);
      ValueAccepted(b, at, mid, count, element, items[0], depth);
      ItemsEnd(b, mid, end, element, items[1..], depth, count + Cost(items[0]));
    }
  }

  lemma {:induction false} EntriesAccepted(
    b: seq<byte>, at: nat, end: nat, count: nat, entry: Type, entries: seq<Entry>, depth: nat)
    requires Solid(entry) && at <= end <= |b| && EntriesAt(b, at, end, entry, entries, depth)
    requires count + CostEntries(entries) <= MAX_VALUES
    ensures DecEntries(b, at, end, count, entry, depth) == Ok(Got(entries, end, count + CostEntries(entries)))
    decreases entries, 0
  {
    hide DecEntry, Solid, EntryAt, Cost;
    if entries != [] {
      var mid: nat :|
        EntryAt(b, at, mid, entry, entries[0], depth) && EntriesAt(b, mid, end, entry, entries[1..], depth);
      var after := count + 1 + Cost(entries[0].value);
      EntryAccepted(b, at, mid, count, entry, entries[0], depth);
      EntriesEnd(b, mid, end, entry, entries[1..], depth, after);
      EntriesAccepted(b, mid, end, after, entry, entries[1..], depth);
      assert entries == [entries[0]] + entries[1..];
    }
  }

  lemma {:induction false} EntriesEnd(
    b: seq<byte>, at: nat, end: nat, entry: Type, entries: seq<Entry>, depth: nat, count: nat)
    requires Solid(entry) && EntriesAt(b, at, end, entry, entries, depth)
    requires count + CostEntries(entries) <= MAX_VALUES
    ensures at <= end
    decreases entries, 0
  {
    hide DecEntry, Solid, EntryAt, Cost;
    if entries != [] {
      var mid: nat :|
        EntryAt(b, at, mid, entry, entries[0], depth) && EntriesAt(b, mid, end, entry, entries[1..], depth);
      EntryAccepted(b, at, mid, count, entry, entries[0], depth);
      EntriesEnd(b, mid, end, entry, entries[1..], depth, count + 1 + Cost(entries[0].value));
    }
  }

  lemma {:induction false} EntryAccepted(
    b: seq<byte>, at: nat, end: nat, count: nat, entry: Type, e: Entry, depth: nat)
    requires Solid(entry) && EntryAt(b, at, end, entry, e, depth) && count + 1 + Cost(e.value) <= MAX_VALUES
    ensures DecEntry(b, at, count, entry, depth) == Ok(Got(e, end, count + 1 + Cost(e.value)))
    decreases e, 3
  {
    hide Dec, Align, DecStr, Solid, StringAt, ValueAt, First, NulBetween, Cost;
    PaddingAt(b, at, 8);
    var s := First(at, 8);
    StringIsStr(b, s, s + |e.key| + 5, e.key);
    ValueAccepted(b, s + |e.key| + 5, end, count + 1, entry, e.value, depth);
  }

  lemma {:induction false} FieldsAccepted(
    b: seq<byte>, at: nat, end: nat, count: nat, types: seq<Type>, vs: seq<Value>, depth: nat)
    requires AllSolid(types) && FieldsAt(b, at, end, types, vs, depth) && count + CostAll(vs) <= MAX_VALUES
    ensures DecFields(b, at, count, types, depth) == Ok(Got(vs, end, count + CostAll(vs)))
    decreases vs, 0
  {
    hide Dec, Solid, ValueAt, Cost;
    if vs != [] {
      var mid: nat :|
        ValueAt(b, at, mid, types[0], vs[0], depth) && FieldsAt(b, mid, end, types[1..], vs[1..], depth);
      ValueAccepted(b, at, mid, count, types[0], vs[0], depth);
      FieldsAccepted(b, mid, end, count + Cost(vs[0]), types[1..], vs[1..], depth);
      assert vs == [vs[0]] + vs[1..];
    }
  }

  /** `b` is a whole block: values of the types a signature lists, one after another, and nothing more. */
  ghost predicate BlockAt(sig: seq<byte>, b: seq<byte>, vs: seq<Value>) {
    exists types: seq<Type> :: ParseSignature(sig) == Some(types) && FieldsAt(b, 0, |b|, types, vs, 0)
  }

  /**
   The decoder is exact: it gives those values of a block, and of those blocks alone, that the
   format says it holds, as long as there are at most 2^20 of them, dict entries counted.
   */
  lemma DecodeIsExact(sig: seq<byte>, b: seq<byte>, vs: seq<Value>)
    ensures Decode(sig, b) == Ok(vs) <==> BlockAt(sig, b, vs) && CostAll(vs) <= 1048576
  {
    hide DecFields, CostAll, FieldsAt, ParseSignature, Heights;
    if ParseSignature(sig).Some? {
      var types := ParseSignature(sig).value;
      ParsedIsSolid(sig);
      if Decode(sig, b) == Ok(vs) {
        DecodeIsBounded(sig, b);
        DecodedFields(b, 0, 0, types, 0, DecFields(b, 0, 0, types, 0).value);
      }
      if FieldsAt(b, 0, |b|, types, vs, 0) && CostAll(vs) <= 1048576 {
        FieldsAccepted(b, 0, |b|, 0, types, vs, 0);
      }
    }
  }

  // ----- what is encoded is of the format -----

  lemma {:induction false} EncodedValue(b: seq<byte>, at: nat, ty: Type, v: Value, depth: nat, e: seq<byte>)
    requires Enc(at, ty, v, depth) == Ok(e) && Holds(b, at, e)
    ensures ValueAt(b, at, at + |e|, ty, v, depth)
    decreases MAX_DEPTH + 1 - depth, 1, 0
  {
    hide EncBody, BodyAt, First, NulBetween, Zeros;
    TablesAgree(ty);
    PaddingIsLeast(at, ty.Alignment());
    var gap := Zeros(PadLen(at, ty.Alignment()));
    var body := EncBody(at + |gap|, ty, v, depth).value;
    HoldsConcat(b, at, gap, body);
    ZerosAreNul(b, at, |gap|);
    EncodedBody(b, at + |gap|, ty, v, depth, body);
  }

  lemma ZerosAreNul(b: seq<byte>, at: nat, n: nat)
    requires Holds(b, at, Zeros(n))
    ensures NulBetween(b, at, at + n)
  {
    var part := b[at..at + n];
    assert forall i :: at <= i < at + n ==> b[i] == part[i - at];
  }

  lemma {:induction false} EncodedBody(b: seq<byte>, at: nat, ty: Type, v: Value, depth: nat, e: seq<byte>)
    requires depth <= MAX_DEPTH && EncBody(at, ty, v, depth) == Ok(e) && Holds(b, at, e)
    ensures BodyAt(b, at, at + |e|, ty, v, depth)
    decreases MAX_DEPTH + 1 - depth, 0, 1
  {
    hide EncArray, EncVariant, EncFields, EncStr, EncSig, ArrayAt, ContentsAt, FieldsAt, StringAt, SignatureAt,
         NumberAt, Le, ParseSignature, Pow256;
    if Fixed(ty) {
      EncodedFixed(b, at, ty, v, depth, e);
    } else if ty.Array? {
      EncodedArray(b, at, ty.element, v, depth, e);
    } else if ty.Str? {
      EncodedStr(b, at, v.text, e);
    } else if ty.ObjectPath? {
      EncodedStr(b, at, v.path, e);
    } else if ty.Signature? {
      EncodedSig(b, at, v.sig);
    } else if ty.Variant? {
      EncodedVariant(b, at, v.inner, depth, e);
    } else {
      EncodedFields(b, at, ty.fields, v.fields, depth + 1, e);
    }
  }

  lemma EncodedFixed(b: seq<byte>, at: nat, ty: Type, v: Value, depth: nat, e: seq<byte>)
    requires Fixed(ty) && depth <= MAX_DEPTH && EncBody(at, ty, v, depth) == Ok(e) && Holds(b, at, e)
    ensures BodyAt(b, at, at + |e|, ty, v, depth)
  {
    hide Le, Pow256, NumberAt, Spelled, Raw, EncArray, EncVariant, EncFields, EncStr, EncSig;
    SpelledIsRaw(ty, v);
    NumberIsLe(b, at, ty.Alignment(), Raw(ty, v).value);
  }

  lemma EncodedStr(b: seq<byte>, at: nat, text: Text, e: seq<byte>)
    requires EncStr(text) == Ok(e) && Holds(b, at, e)
    ensures StringAt(b, at, at + |e|, text)
  {
    hide Utf8, Le, NumberAt;
    Powers();
    HoldsConcat(b, at, Le(|text|, 4) + text, [0]);
    HoldsConcat(b, at, Le(|text|, 4), text);
    NumberIsLe(b, at, 4, |text|);
    assert b[at + 4 + |text|..at + 4 + |text| + 1] == [0];
  }

  lemma EncodedSig(b: seq<byte>, at: nat, sig: seq<byte>)
    requires ParseSignature(sig).Some? && Holds(b, at, EncSig(sig))
    ensures SignatureAt(b, at, at + |EncSig(sig)|, sig)
  {
    hide Utf8;
    SignatureIsText(sig);
    assert |sig| <= MAX_SIGNATURE by { SignatureIffRendered(sig, ParseSignature(sig).value); }
    HoldsConcat(b, at, [|sig|] + sig, [0]);
    HoldsConcat(b, at, [|sig|], sig);
    assert b[at..at + 1] == [|sig|] && b[at + 1 + |sig|..at + 1 + |sig| + 1] == [0];
  }

  lemma {:induction false} EncodedVariant(b: seq<byte>, at: nat, inner: Value, depth: nat, e: seq<byte>)
    requires depth <= MAX_DEPTH && EncVariant(at, inner, depth) == Ok(e) && Holds(b, at, e)
    ensures ContentsAt(b, at, at + |e|, inner, depth + 1)
    decreases MAX_DEPTH + 1 - depth, 0, 0
  {
    hide Enc, SignatureOf, SignatureAt, ValueAt, ParseSignature;
    var sig := SignatureOf(inner, 0).value;
    var ty := ParseSignature(sig).value[0];
    var head := EncSig(sig);
    var body := Enc(at + |head|, ty, inner, depth + 1).value;
    HoldsConcat(b, at, head, body);
    EncodedSig(b, at, sig);
    EncodedValue(b, at + |head|, ty, inner, depth + 1, body);
    assert ParseSignature(sig).value == [ty];
  }

  lemma {:induction false} EncodedArray(b: seq<byte>, at: nat, element: Type, v: Value, depth: nat, e: seq<byte>)
    requires depth <= MAX_DEPTH && EncArray(at, element, v, depth) == Ok(e) && Holds(b, at, e)
    ensures depth < 64 && ArrayAt(b, at, at + |e|, element, v, depth + 1)
    decreases MAX_DEPTH + 1 - depth, 0, 0
  {
    hide EncItems, EncEntries, Le, NumberAt, First, ItemsAt, EntriesAt, NulBetween, Zeros, PadLen;
    TablesAgree(element);
    PaddingIsLeast(at + 4, element.Alignment());
    Powers();
    var gap := Zeros(PadLen(at + 4, element.Alignment()));
    var first := at + 4 + |gap|;
    var elements := EncElements(first, element, v, depth + 1).value;
    HoldsConcat(b, at, Le(|elements|, 4) + gap, elements);
    HoldsConcat(b, at, Le(|elements|, 4), gap);
    NumberIsLe(b, at, 4, |elements|);
    ZerosAreNul(b, at + 4, |gap|);
    if element.DictEntry? {
      EncodedEntries(b, first, element.value, v.entries, depth + 1, elements);
    } else if !element.Byte? {
      EncodedItems(b, first, element, v.items, depth + 1, elements);
    }
  }

  lemma {:induction false} EncodedItems(
    b: seq<byte>, at: nat, element: Type, items: seq<Value>, depth: nat, e: seq<byte>)
    requires EncItems(at, element, items, depth) == Ok(e) && Holds(b, at, e)
    ensures ItemsAt(b, at, at + |e|, element, items, depth)
    decreases MAX_DEPTH + 1 - depth, 2, |items|
  {
    hide Enc, ValueAt;
    if items != [] {
      var first := Enc(at, element, items[0], depth).value;
      var rest := EncItems(at + |first|, element, items[1..], depth).value;
      HoldsConcat(b, at, first, rest);
      EncodedValue(b, at, element, items[0], depth, first);
      EncodedItems(b, at + |first|, element, items[1..], depth, rest);
      assert ItemsAt(b, at + |first|, at + |e|, element, items[1..], depth);
    }
  }

  lemma {:induction false} EncodedEntries(
    b: seq<byte>, at: nat, entry: Type, entries: seq<Entry>, depth: nat, e: seq<byte>)
    requires EncEntries(at, entry, entries, depth) == Ok(e) && Holds(b, at, e)
    ensures EntriesAt(b, at, at + |e|, entry, entries, depth)
    decreases MAX_DEPTH + 1 - depth, 2, |entries|
  {
    hide EncEntry, EntryAt;
    if entries != [] {
      EntriesFirst(at, entry, entries, depth);
      var first := EncEntry(at, entry, entries[0], depth).value;
      var rest := EncEntries(at + |first|, entry, entries[1..], depth).value;
      HoldsConcat(b, at, first, rest);
      EncodedEntry(b, at, entry, entries[0], depth, first);
      EncodedEntries(b, at + |first|, entry, entries[1..], depth, rest);
      assert EntriesAt(b, at + |first|, at + |e|, entry, entries[1..], depth);
    }
  }

  lemma {:induction false} EncodedEntry(b: seq<byte>, at: nat, entry: Type, item: Entry, depth: nat, e: seq<byte>)
    requires EncEntry(at, entry, item, depth) == Ok(e) && Holds(b, at, e)
    ensures EntryAt(b, at, at + |e|, entry, item, depth)
    decreases MAX_DEPTH + 1 - depth, 1, 1
  {
    hide Enc, StringAt, ValueAt, First, NulBetween, Zeros, Le;
    PaddingIsLeast(at, 8);
    var gap := Zeros(PadLen(at, 8));
    var key := EncStr(item.key).value;
    var value := Enc(at + |gap| + |key|, entry, item.value, depth).value;
    HoldsConcat(b, at, gap + key, value);
    HoldsConcat(b, at, gap, key);
    ZerosAreNul(b, at, |gap|);
    EncodedStr(b, at + |gap|, item.key, key);
    EncodedValue(b, at + |gap| + |key|, entry, item.value, depth, value);
  }

  lemma {:induction false} EncodedFields(
    b: seq<byte>, at: nat, types: seq<Type>, vs: seq<Value>, depth: nat, e: seq<byte>)
    requires |types| == |vs| && EncFields(at, types, vs, depth) == Ok(e) && Holds(b, at, e)
    ensures FieldsAt(b, at, at + |e|, types, vs, depth)
    decreases MAX_DEPTH + 1 - depth, 2, |types|
  {
    hide Enc, ValueAt;
    if types != [] {
      var first := Enc(at, types[0], vs[0], depth).value;
      var rest := EncFields(at + |first|, types[1..], vs[1..], depth).value;
      HoldsConcat(b, at, first, rest);
      EncodedValue(b, at, types[0], vs[0], depth, first);
      EncodedFields(b, at + |first|, types[1..], vs[1..], depth, rest);
      assert FieldsAt(b, at + |first|, at + |e|, types[1..], vs[1..], depth);
    }
  }

  /** The encoder writes the values it was given, in the format and in no other way. */
  lemma EncodeIsOfTheFormat(sig: seq<byte>, vs: seq<Value>)
    requires Encode(sig, vs).Ok?
    ensures BlockAt(sig, Encode(sig, vs).value, vs)
  {
    hide EncFields, FieldsAt, ParseSignature;
    var b := Encode(sig, vs).value;
    var types := ParseSignature(sig).value;
    assert Holds(b, 0, b);
    EncodedFields(b, 0, types, vs, 0, b);
  }

  /** And it writes every block of the format whose variants it can name the contents of. */
  lemma EncodeWritesEveryBlock(sig: seq<byte>, b: seq<byte>, vs: seq<Value>)
    requires BlockAt(sig, b, vs) && CostAll(vs) <= 1048576 && AllReencodable(vs)
    ensures Encode(sig, vs) == Ok(b)
  {
    hide Decode, Encode, BlockAt, AllReencodable, CostAll;
    DecodeIsExact(sig, b, vs);
    EncodeOfDecode(sig, b);
  }

  // ----- two blocks, byte by byte -----

  lemma SmallNumber(b: seq<byte>, at: nat, width: nat, n: byte)
    requires 0 < width && at + width <= |b| && b[at] == n && NulBetween(b, at + 1, at + width)
    ensures NumberAt(b, at, width, n)
  {
    PowerGrows(width);
    forall i: nat | i < width
      ensures b[at + i] == n / Pow256(i) % 256
    {
      if i > 0 {
        PowerGrows(i);
        Quotient(n, Pow256(i), 0, n);
        assert b[at + i] == 0;
      }
    }
  }

  lemma {:induction false} PowerGrows(width: nat)
    requires width > 0
    ensures Pow256(width) >= 256
  {
    if width > 1 {
      PowerGrows(width - 1);
    }
  }

  /** The specification's array of one 64-bit integer, 5: eight bytes of it, after four of padding. */
  const ARRAY_OF_FIVE: seq<byte> := [8, 0, 0, 0, 0, 0, 0, 0, 5, 0, 0, 0, 0, 0, 0, 0]

  lemma ArrayOfFive()
    ensures Encode([97, 120], [Value.Array([Value.Int64(5)])]) == Ok(ARRAY_OF_FIVE)
  {
    hide Encode, Parse, ValueAt, CostAll, AllReencodable, Render;
    var v := Value.Array([Value.Int64(5)]);
    RenderedArray(Type.Int64);
    Rendered([97, 120], Type.Array(Type.Int64));
    FiveIsAt();
    OneField([97, 120], ARRAY_OF_FIVE, Type.Array(Type.Int64), v);
    FiveIsSmall();
    EncodeWritesEveryBlock([97, 120], ARRAY_OF_FIVE, [v]);
  }

  lemma FiveIsSmall()
    ensures CostAll([Value.Array([Value.Int64(5)])]) <= 1048576
    ensures AllReencodable([Value.Array([Value.Int64(5)])])
  {
    assert CostAll([Value.Int64(5)]) == 1 && AllReencodable([Value.Int64(5)]);
  }

  lemma FiveIsAt()
    ensures ValueAt(ARRAY_OF_FIVE, 0, 16, Type.Array(Type.Int64), Value.Array([Value.Int64(5)]), 0)
  {
    hide First, NumberAt, ItemsAt;
    var b, five := ARRAY_OF_FIVE, Value.Int64(5);
    FirstIs(0, 4, 0);
    FirstIs(4, 8, 8);
    SmallNumber(b, 0, 4, 8);
    ItemIsAt();
    assert ArrayAt(b, 0, 16, Type.Int64, Value.Array([five]), 1);
  }

  lemma ItemIsAt()
    ensures ItemsAt(ARRAY_OF_FIVE, 8, 16, Type.Int64, [Value.Int64(5)], 1)
  {
    hide First, NumberAt;
    var b, five := ARRAY_OF_FIVE, Value.Int64(5);
    FirstIs(8, 8, 8);
    SmallNumber(b, 8, 8, 5);
    assert ValueAt(b, 8, 16, Type.Int64, five, 1);
    NothingLeft(b, 16, Type.Int64, [five], 1);
  }

  /** The least dict: its one entry begins on a boundary of 8, and the length leaves the padding out. */
  const DICT_OF_SEVEN: seq<byte> := [6, 0, 0, 0, 0, 0, 0, 0, 0, 0, 0, 0, 0, 7]

  lemma DictOfSeven()
    ensures Encode([97, 123, 115, 121, 125], [Value.Dict([Entry([], Value.Byte(7))])]) == Ok(DICT_OF_SEVEN)
  {
    hide Encode, Parse, ValueAt, CostAll, AllReencodable, Render;
    var v := Value.Dict([Entry([], Value.Byte(7))]);
    var ty := Type.Array(DictEntry(Type.Str, Type.Byte));
    RenderedDict();
    Rendered([97, 123, 115, 121, 125], ty);
    SevenIsAt();
    OneField([97, 123, 115, 121, 125], DICT_OF_SEVEN, ty, v);
    SevenIsSmall();
    EncodeWritesEveryBlock([97, 123, 115, 121, 125], DICT_OF_SEVEN, [v]);
  }

  lemma RenderedDict()
    ensures Render(Type.Array(DictEntry(Type.Str, Type.Byte))) == [97, 123, 115, 121, 125]
    ensures Legal(Type.Array(DictEntry(Type.Str, Type.Byte)), 0, 0)
  {
    assert Render(DictEntry(Type.Str, Type.Byte)) == [123] + [115] + [121] + [125];
  }

  lemma SevenIsSmall()
    ensures CostAll([Value.Dict([Entry([], Value.Byte(7))])]) <= 1048576
    ensures AllReencodable([Value.Dict([Entry([], Value.Byte(7))])])
  {
    assert CostEntries([Entry([], Value.Byte(7))]) == 2;
    assert AllEntriesReencodable([Entry([], Value.Byte(7))]);
  }

  lemma SevenIsAt()
    ensures ValueAt(DICT_OF_SEVEN, 0, 14, Type.Array(DictEntry(Type.Str, Type.Byte)),
                    Value.Dict([Entry([], Value.Byte(7))]), 0)
  {
    hide First, NumberAt, EntriesAt;
    var b := DICT_OF_SEVEN;
    FirstIs(0, 4, 0);
    FirstIs(4, 8, 8);
    SmallNumber(b, 0, 4, 6);
    EntriesAreAt();
    assert ArrayAt(b, 0, 14, DictEntry(Type.Str, Type.Byte), Value.Dict([Entry([], Value.Byte(7))]), 1);
  }

  lemma EntriesAreAt()
    ensures EntriesAt(DICT_OF_SEVEN, 8, 14, Type.Byte, [Entry([], Value.Byte(7))], 1)
  {
    hide First, NumberAt;
    var b, e := DICT_OF_SEVEN, Entry([], Value.Byte(7));
    FirstIs(8, 8, 8);
    FirstIs(13, 1, 13);
    SmallNumber(b, 8, 4, 0);
    SmallNumber(b, 13, 1, 7);
    assert b[12..12] == [];
    assert ValueAt(b, 13, 14, Type.Byte, e.value, 1);
    assert EntryAt(b, 8, 14, Type.Byte, e, 1);
    assert [e][1..] == [] && EntriesAt(b, 14, 14, Type.Byte, [e][1..], 1);
  }

  lemma RenderedArray(element: Type)
    ensures Render(Type.Array(element)) == [97] + Render(element)
    ensures Render(Type.Int64) == [120]
  {
  }

  lemma NothingLeft(b: seq<byte>, at: nat, ty: Type, one: seq<Value>, depth: nat)
    requires |one| == 1
    ensures one[1..] == [] && ItemsAt(b, at, at, ty, one[1..], depth)
  {
  }

  lemma OneField(sig: seq<byte>, b: seq<byte>, ty: Type, v: Value)
    requires Parse(sig) == Ok([ty]) && ValueAt(b, 0, |b|, ty, v, 0)
    ensures BlockAt(sig, b, [v])
  {
    hide ParseSignature, ValueAt;
    assert [ty][1..] == [] && [v][1..] == [];
    assert FieldsAt(b, |b|, |b|, [ty][1..], [v][1..], 0);
    assert FieldsAt(b, 0, |b|, [ty], [v], 0);
  }
}
