/** What the encoder writes, the decoder reads back, at every offset and under the value budget. */
module RoundTrip {
  import opened Results
  import opened Bytes
  import opened Utf8Text
  import opened Signatures
  import opened Wire

  /** What reading a value adds to the decoder's count: one per value and one per dict entry. */
  function Cost(v: Value): (n: nat)
    ensures n >= 1
    decreases v
  {
    match v
    case Array(items) => 1 + CostAll(items)
    case Struct(fields) => 1 + CostAll(fields)
    case Dict(entries) => 1 + CostEntries(entries)
    case Variant(inner) => 1 + Cost(inner)
    case _ => 1
  }

  function CostAll(vs: seq<Value>): nat
    decreases vs
  {
    if vs == [] then 0 else Cost(vs[0]) + CostAll(vs[1..])
  }

  function CostEntries(entries: seq<Entry>): nat
    decreases entries
  {
    if entries == [] then 0 else 1 + Cost(entries[0].value) + CostEntries(entries[1..])
  }

  /** The reading that succeeds inside the budget, and the one refusal outside it. */
  function Budgeted<T>(value: T, at: nat, count: nat): Wired<Got<T>> {
    if count <= MAX_VALUES then Ok(Got(value, at, count)) else Err(TooManyValues)
  }

  lemma PaddingRead(buf: seq<byte>, at: nat, align: nat)
    requires align != 0 && Holds(buf, at, Zeros(PadLen(at, align)))
    ensures Align(buf, at, align) == Ok(at + PadLen(at, align))
  {
  }

  lemma WordRead(buf: seq<byte>, at: nat, n: nat)
    requires n < 0x1_0000_0000 && Holds(buf, at, Le(n, 4))
    ensures DecUint32(buf, at) == Ok(n)
  {
    Powers();
    UnLeOfLe(n, 4);
  }

  lemma TextRead(buf: seq<byte>, at: nat, text: Text)
    requires 0 !in text && Holds(buf, at, text + [0])
    ensures DecText(buf, at, |text|) == Ok(text)
  {
    HoldsConcat(buf, at, text, [0]);
  }

  lemma StrRead(buf: seq<byte>, at: nat, text: Text)
    requires EncStr(text).Ok? && Holds(buf, at, EncStr(text).value)
    ensures DecStr(buf, at) == Ok((text, at + |EncStr(text).value|))
  {
    assert EncStr(text).value == Le(|text|, 4) + (text + [0]);
    HoldsConcat(buf, at, Le(|text|, 4), text + [0]);
    WordRead(buf, at, |text|);
    TextRead(buf, at + 4, text);
  }

  lemma SigRead(buf: seq<byte>, at: nat, sig: seq<byte>)
    requires ParseSignature(sig).Some? && Holds(buf, at, EncSig(sig))
    ensures DecSig(buf, at) == Ok((sig, at + |EncSig(sig)|))
  {
    SignatureIsText(sig);
    assert EncSig(sig) == [|sig|] + (sig + [0]);
    HoldsConcat(buf, at, [|sig|], sig + [0]);
    TextRead(buf, at + 1, sig);
  }

  /** Everything of a solid type takes at least one byte. */
  lemma {:induction false} EncNonEmpty(pos: nat, ty: Type, v: Value, depth: nat)
    requires Solid(ty) && Enc(pos, ty, v, depth).Ok?
    ensures |Enc(pos, ty, v, depth).value| >= 1
    decreases ty, 0
  {
    hide EncArray, EncVariant, EncFields;
    if ty.Struct? {
      FieldsNonEmpty(pos + PadLen(pos, 8), ty.fields, v.fields, depth + 1);
    } else if ty.Array? {
      ArrayNonEmpty(pos + PadLen(pos, 4), ty.element, v, depth);
    } else if ty.Variant? {
      VariantNonEmpty(pos, v.inner, depth);
    }
  }

  lemma {:induction false} FieldsNonEmpty(pos: nat, types: seq<Type>, vs: seq<Value>, depth: nat)
    requires types != [] && AllSolid(types) && |types| == |vs| && EncFields(pos, types, vs, depth).Ok?
    ensures |EncFields(pos, types, vs, depth).value| >= 1
    decreases types, 1
  {
    hide Enc, Solid;
    EncNonEmpty(pos, types[0], vs[0], depth);
  }

  lemma ArrayNonEmpty(pos: nat, element: Type, v: Value, depth: nat)
    requires depth <= MAX_DEPTH && EncArray(pos, element, v, depth).Ok?
    ensures |EncArray(pos, element, v, depth).value| >= 1
  {
    hide EncElements;
  }

  lemma VariantNonEmpty(pos: nat, inner: Value, depth: nat)
    requires depth <= MAX_DEPTH && EncVariant(pos, inner, depth).Ok?
    ensures |EncVariant(pos, inner, depth).value| >= 1
  {
    hide Enc, SignatureOf;
  }

  lemma {:induction false} ValueReads(
    buf: seq<byte>, at: nat, count: nat, ty: Type, v: Value, depth: nat, e: seq<byte>)
    requires Solid(ty) && count <= MAX_VALUES
    requires Enc(at, ty, v, depth) == Ok(e) && Holds(buf, at, e)
    ensures Dec(buf, at, count, ty, depth) == Budgeted(v, at + |e|, count + Cost(v))
    decreases MAX_DEPTH + 1 - depth, 1, 0
  {
    hide EncBody, DecBody;
    var gap := Zeros(PadLen(at, ty.Alignment()));
    var body := EncBody(at + |gap|, ty, v, depth).value;
    HoldsConcat(buf, at, gap, body);
    PaddingRead(buf, at, ty.Alignment());
    if count + 1 <= MAX_VALUES {
      BodyReads(buf, at + |gap|, count + 1, ty, v, depth, body);
    }
  }

  lemma {:induction false} BodyReads(
    buf: seq<byte>, at: nat, count: nat, ty: Type, v: Value, depth: nat, e: seq<byte>)
    requires Solid(ty) && depth <= MAX_DEPTH && count <= MAX_VALUES
    requires EncBody(at, ty, v, depth) == Ok(e) && Holds(buf, at, e)
    ensures DecBody(buf, at, count, ty, depth) == Budgeted(v, at + |e|, count + Cost(v) - 1)
    decreases MAX_DEPTH + 1 - depth, 0, 1
  {
    hide EncArray, DecArray, EncVariant, DecVariant, EncFields, DecFields, EncStr, DecStr, EncSig, DecSig;
    if Fixed(ty) {
      FixedReads(buf, at, count, ty, v, depth, e);
    } else if ty.Array? {
      ArrayReads(buf, at, count, ty.element, v, depth, e);
    } else if ty.Str? {
      StrRead(buf, at, v.text);
    } else if ty.ObjectPath? {
      StrRead(buf, at, v.path);
    } else if ty.Signature? {
      SigRead(buf, at, v.sig);
    } else if ty.Variant? {
      VariantReads(buf, at, count, v.inner, depth, e);
    } else {
      FieldsRead(buf, at, count, ty.fields, v.fields, depth + 1, e);
    }
  }

  lemma FixedReads(buf: seq<byte>, at: nat, count: nat, ty: Type, v: Value, depth: nat, e: seq<byte>)
    requires Fixed(ty) && depth <= MAX_DEPTH && count <= MAX_VALUES
    requires EncBody(at, ty, v, depth) == Ok(e) && Holds(buf, at, e)
    ensures DecBody(buf, at, count, ty, depth) == Budgeted(v, at + |e|, count + Cost(v) - 1)
  {
    hide Le, UnLe, Raw, FromRaw, Cost, Pow256, DecArray, DecStr, DecSig, DecVariant, DecFields, EncArray, EncStr,
         EncVariant, EncFields, ParseSignature, ValidObjectPath, Solid;
    RawRoundTrip(ty, v);
    UnLeOfLe(Raw(ty, v).value, ty.Alignment());
    FixedCost(ty, v);
  }

  lemma FixedCost(ty: Type, v: Value)
    requires Fixed(ty) && Raw(ty, v).Some?
    ensures Cost(v) == 1
  {
  }

  lemma {:induction false} VariantReads(
    buf: seq<byte>, at: nat, count: nat, inner: Value, depth: nat, e: seq<byte>)
    requires depth <= MAX_DEPTH && count <= MAX_VALUES
    requires EncVariant(at, inner, depth) == Ok(e) && Holds(buf, at, e)
    ensures DecVariant(buf, at, count, depth)
         == Budgeted(Value.Variant(inner), at + |e|, count + Cost(inner))
    decreases MAX_DEPTH + 1 - depth, 0, 0
  {
    hide Enc, Dec, EncSig, DecSig, SignatureOf, Cost;
    var sig := SignatureOf(inner, 0).value;
    var ty := ParseSignature(sig).value[0];
    ParsedIsSolid(sig);
    var head := EncSig(sig);
    var body := Enc(at + |head|, ty, inner, depth + 1).value;
    HoldsConcat(buf, at, head, body);
    SigRead(buf, at, sig);
    ValueReads(buf, at + |head|, count, ty, inner, depth + 1, body);
  }

  lemma {:induction false} ArrayReads(
    buf: seq<byte>, at: nat, count: nat, element: Type, v: Value, depth: nat, e: seq<byte>)
    requires Solid(element) && depth <= MAX_DEPTH && count <= MAX_VALUES
    requires EncArray(at, element, v, depth) == Ok(e) && Holds(buf, at, e)
    ensures DecArray(buf, at, count, element, depth) == Budgeted(v, at + |e|, count + Cost(v) - 1)
    decreases MAX_DEPTH + 1 - depth, 0, 0
  {
    hide EncElements, DecElements, Cost, Le, DecUint32, PadLen, Align, Solid;
    var gap := Zeros(PadLen(at + 4, element.Alignment()));
    var start := at + 4 + |gap|;
    var elements := EncElements(start, element, v, depth + 1).value;
    var word := Le(|elements|, 4);
    HoldsConcat(buf, at, word + gap, elements);
    HoldsConcat(buf, at, word, gap);
    WordRead(buf, at, |elements|);
    PaddingRead(buf, at + 4, element.Alignment());
    ElementsRead(buf, start, count, element, v, depth + 1, elements);
  }

  lemma {:induction false} ElementsRead(
    buf: seq<byte>, at: nat, count: nat, element: Type, v: Value, depth: nat, e: seq<byte>)
    requires Solid(element) && depth <= MAX_DEPTH && count <= MAX_VALUES
    requires EncElements(at, element, v, depth) == Ok(e) && Holds(buf, at, e)
    ensures DecElements(buf, at, at + |e|, count, element, depth)
         == Budgeted(v, at + |e|, count + Cost(v) - 1)
    decreases MAX_DEPTH + 1 - depth, 3, 0
  {
    hide EncItems, DecItems, EncEntries, DecEntries, CostAll, CostEntries;
    if element.DictEntry? {
      EntriesRead(buf, at, count, element.value, v.entries, depth, e);
    } else if !element.Byte? {
      ItemsRead(buf, at, count, element, v.items, depth, e);
    }
  }

  lemma {:induction false} ItemsRead(
    buf: seq<byte>, at: nat, count: nat, element: Type, items: seq<Value>, depth: nat, e: seq<byte>)
    requires Solid(element) && count <= MAX_VALUES
    requires EncItems(at, element, items, depth) == Ok(e) && Holds(buf, at, e)
    ensures DecItems(buf, at, at + |e|, count, element, depth)
         == Budgeted(items, at + |e|, count + CostAll(items))
    decreases MAX_DEPTH + 1 - depth, 2, |items|
  {
    hide Enc, Dec, Solid;
    if items != [] {
      var first := Enc(at, element, items[0], depth).value;
      var rest := EncItems(at + |first|, element, items[1..], depth).value;
      HoldsConcat(buf, at, first, rest);
      EncNonEmpty(at, element, items[0], depth);
      ValueReads(buf, at, count, element, items[0], depth, first);
      if count + Cost(items[0]) <= MAX_VALUES {
        ItemsRead(buf, at + |first|, count + Cost(items[0]), element, items[1..], depth, rest);
        assert items == [items[0]] + items[1..];
      }
    }
  }

  lemma EntriesFirst(pos: nat, entry: Type, entries: seq<Entry>, depth: nat)
    requires entries != [] && EncEntries(pos, entry, entries, depth).Ok?
    ensures var first := EncEntry(pos, entry, entries[0], depth);
            && first.Ok?
            && var rest := EncEntries(pos + |first.value|, entry, entries[1..], depth);
            && rest.Ok? && EncEntries(pos, entry, entries, depth).value == first.value + rest.value
  {
    hide EncEntry;
  }

  lemma EntryFirst(buf: seq<byte>, at: nat, end: nat, count: nat, entry: Type, depth: nat)
    requires Solid(entry) && count <= MAX_VALUES && at < end <= |buf|
    ensures var first := DecEntry(buf, at, count, entry, depth);
            && (first.Err? ==> DecEntries(buf, at, end, count, entry, depth) == Err(first.error))
            && (first.Ok? && first.value.at <= end ==>
                  DecEntries(buf, at, end, count, entry, depth)
                  == match DecEntries(buf, first.value.at, end, first.value.count, entry, depth)
                     case Ok(rest) => Ok(Got([first.value.value] + rest.value, rest.at, rest.count))
                     case Err(why) => Err(why))
  {
    hide DecEntry, Solid;
  }

  lemma {:induction false} EntriesRead(
    buf: seq<byte>, at: nat, count: nat, entry: Type, entries: seq<Entry>, depth: nat, e: seq<byte>)
    requires Solid(entry) && count <= MAX_VALUES
    requires EncEntries(at, entry, entries, depth) == Ok(e) && Holds(buf, at, e)
    ensures DecEntries(buf, at, at + |e|, count, entry, depth)
         == Budgeted(entries, at + |e|, count + CostEntries(entries))
    decreases MAX_DEPTH + 1 - depth, 2, |entries|
  {
    hide EncEntry, DecEntry, EncEntries, DecEntries, Solid, Cost;
    if entries == [] {
      NoEntries(buf, at, count, entry, depth);
    } else {
      EntriesFirst(at, entry, entries, depth);
      var first := EncEntry(at, entry, entries[0], depth).value;
      var rest := EncEntries(at + |first|, entry, entries[1..], depth).value;
      HoldsConcat(buf, at, first, rest);
      EntryReads(buf, at, count, entry, entries[0], depth, first);
      EntryFirst(buf, at, at + |e|, count, entry, depth);
      var after := count + 1 + Cost(entries[0].value);
      if after <= MAX_VALUES {
        EntriesRead(buf, at + |first|, after, entry, entries[1..], depth, rest);
        assert entries == [entries[0]] + entries[1..];
      }
    }
  }

  lemma NoEntries(buf: seq<byte>, at: nat, count: nat, entry: Type, depth: nat)
    requires Solid(entry) && count <= MAX_VALUES && at <= |buf|
    ensures EncEntries(at, entry, [], depth) == Ok([])
    ensures DecEntries(buf, at, at, count, entry, depth) == Ok(Got([], at, count))
  {
    hide Solid;
  }

  lemma {:induction false} EntryReads(
    buf: seq<byte>, at: nat, count: nat, entry: Type, item: Entry, depth: nat, e: seq<byte>)
    requires Solid(entry) && count <= MAX_VALUES
    requires EncEntry(at, entry, item, depth) == Ok(e) && Holds(buf, at, e)
    ensures |e| >= 1
    ensures DecEntry(buf, at, count, entry, depth)
         == Budgeted(item, at + |e|, count + 1 + Cost(item.value))
    decreases MAX_DEPTH + 1 - depth, 1, 1
  {
    hide Enc, Dec, Cost, Solid, DecStr;
    var gap := Zeros(PadLen(at, 8));
    var key := EncStr(item.key).value;
    var value := Enc(at + |gap| + |key|, entry, item.value, depth).value;
    HoldsConcat(buf, at, gap + key, value);
    HoldsConcat(buf, at, gap, key);
    PaddingRead(buf, at, 8);
    StrRead(buf, at + |gap|, item.key);
    if count + 1 <= MAX_VALUES {
      ValueReads(buf, at + |gap| + |key|, count + 1, entry, item.value, depth, value);
    }
  }

  lemma {:induction false} FieldsRead(
    buf: seq<byte>, at: nat, count: nat, types: seq<Type>, vs: seq<Value>, depth: nat, e: seq<byte>)
    requires AllSolid(types) && |types| == |vs| && count <= MAX_VALUES
    requires EncFields(at, types, vs, depth) == Ok(e) && Holds(buf, at, e)
    ensures DecFields(buf, at, count, types, depth)
         == Budgeted(vs, at + |e|, count + CostAll(vs))
    decreases MAX_DEPTH + 1 - depth, 2, |types|
  {
    hide Enc, Dec, Solid;
    if types != [] {
      var first := Enc(at, types[0], vs[0], depth).value;
      var rest := EncFields(at + |first|, types[1..], vs[1..], depth).value;
      HoldsConcat(buf, at, first, rest);
      ValueReads(buf, at, count, types[0], vs[0], depth, first);
      if count + Cost(vs[0]) <= MAX_VALUES {
        FieldsRead(buf, at + |first|, count + Cost(vs[0]), types[1..], vs[1..], depth, rest);
        assert vs == [vs[0]] + vs[1..];
      }
    }
  }

  /**
   Whatever `encode` writes, `decode` reads back exactly, unless reading it counts more
   than the budget, which is then the one thing refused.
   */
  lemma {:induction false} DecodeOfEncode(sig: seq<byte>, vs: seq<Value>)
    requires Encode(sig, vs).Ok?
    ensures Decode(sig, Encode(sig, vs).value)
         == if CostAll(vs) <= MAX_VALUES then Ok(vs) else Err(TooManyValues)
  {
    var body := Encode(sig, vs).value;
    ParsedIsSolid(sig);
    assert Holds(body, 0, body);
    FieldsRead(body, 0, 0, ParseSignature(sig).value, vs, 0, body);
  }
}
