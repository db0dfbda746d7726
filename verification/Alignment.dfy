/** A value takes the same bytes at any two offsets a multiple of 8 apart. */
module Alignment {
  import opened Results
  import opened Bytes
  import opened Signatures
  import opened Wire

  lemma PadCongruent(p: nat, q: nat, align: nat)
    requires p % 8 == q % 8 && (align == 1 || align == 2 || align == 4 || align == 8)
    ensures PadLen(p, align) == PadLen(q, align)
  {
    if align == 2 {
      Mod2(p);
      Mod2(q);
    } else if align == 4 {
      Mod4(p);
      Mod4(q);
    }
  }

  lemma Mod2(p: nat)
    ensures p % 2 == (p % 8) % 2
  {
  }

  lemma Mod4(p: nat)
    ensures p % 4 == (p % 8) % 4
  {
  }

  lemma ModAdd(p: nat, q: nat, n: nat)
    requires p % 8 == q % 8
    ensures (p + n) % 8 == (q + n) % 8
  {
  }

  lemma {:induction false} EncCongruent(p: nat, q: nat, ty: Type, v: Value, depth: nat)
    requires p % 8 == q % 8
    ensures Enc(p, ty, v, depth) == Enc(q, ty, v, depth)
    decreases MAX_DEPTH + 1 - depth, 1, 0
  {
    hide Enc, EncBody, PadLen, Zeros;
    EncShape(p, ty, v, depth);
    EncShape(q, ty, v, depth);
    if depth <= MAX_DEPTH {
      PadCongruent(p, q, ty.Alignment());
      var n := PadLen(p, ty.Alignment());
      ModAdd(p, q, n);
      BodyCongruent(p + n, q + n, ty, v, depth);
    }
  }

  lemma EncShape(pos: nat, ty: Type, v: Value, depth: nat)
    ensures depth > MAX_DEPTH ==> Enc(pos, ty, v, depth) == Err(Depth)
    ensures depth <= MAX_DEPTH ==>
      var n := PadLen(pos, ty.Alignment());
      var body := EncBody(pos + n, ty, v, depth);
      Enc(pos, ty, v, depth) == if body.Ok? then Ok(Zeros(n) + body.value) else body
  {
    hide EncBody, PadLen;
  }

  lemma {:induction false} BodyCongruent(p: nat, q: nat, ty: Type, v: Value, depth: nat)
    requires p % 8 == q % 8 && depth <= MAX_DEPTH
    ensures EncBody(p, ty, v, depth) == EncBody(q, ty, v, depth)
    decreases MAX_DEPTH + 1 - depth, 0, 1
  {
    hide EncArray, EncVariant, EncFields, EncStr, EncSig, Raw, Le, ParseSignature, ValidObjectPath;
    if ty.Array? {
      ArrayCongruent(p, q, ty.element, v, depth);
    } else if ty.Struct? && v.Struct? && |ty.fields| == |v.fields| {
      FieldsCongruent(p, q, ty.fields, v.fields, depth + 1);
    } else if ty.Variant? && v.Variant? {
      VariantCongruent(p, q, v.inner, depth);
    }
  }

  lemma {:induction false} VariantCongruent(p: nat, q: nat, inner: Value, depth: nat)
    requires p % 8 == q % 8 && depth <= MAX_DEPTH
    ensures EncVariant(p, inner, depth) == EncVariant(q, inner, depth)
    decreases MAX_DEPTH + 1 - depth, 0, 0
  {
    hide Enc, EncSig, SignatureOf, ParseSignature;
    var sig := SignatureOf(inner, 0);
    if sig.Ok? && Parse(sig.value).Ok? && |Parse(sig.value).value| == 1 {
      var n := |EncSig(sig.value)|;
      ModAdd(p, q, n);
      EncCongruent(p + n, q + n, Parse(sig.value).value[0], inner, depth + 1);
    }
  }

  lemma {:induction false} ArrayCongruent(p: nat, q: nat, element: Type, v: Value, depth: nat)
    requires p % 8 == q % 8 && depth <= MAX_DEPTH
    ensures EncArray(p, element, v, depth) == EncArray(q, element, v, depth)
    decreases MAX_DEPTH + 1 - depth, 0, 0
  {
    hide EncArray, EncElements, Le, Zeros, PadLen;
    if depth < MAX_DEPTH {
      var n := PadLen(p + 4, element.Alignment());
      ModAdd(p, q, 4);
      PadCongruent(p + 4, q + 4, element.Alignment());
      ModAdd(p, q, 4 + n);
      ElementsCongruent(p + 4 + n, q + 4 + n, element, v, depth + 1);
      ArrayShape(p, element, v, depth);
      ArrayShape(q, element, v, depth);
    } else {
      TooDeepForArray(p, element, v, depth);
      TooDeepForArray(q, element, v, depth);
    }
  }

  lemma {:induction false} ElementsCongruent(p: nat, q: nat, element: Type, v: Value, depth: nat)
    requires p % 8 == q % 8 && depth <= MAX_DEPTH
    ensures EncElements(p, element, v, depth) == EncElements(q, element, v, depth)
    decreases MAX_DEPTH + 1 - depth, 3, 0
  {
    hide EncItems, EncEntries;
    if element.DictEntry? && v.Dict? {
      EntriesCongruent(p, q, element.value, v.entries, depth);
    } else if !element.Byte? && !element.DictEntry? && v.Array? {
      ItemsCongruent(p, q, element, v.items, depth);
    }
  }

  lemma {:induction false} ItemsCongruent(p: nat, q: nat, element: Type, items: seq<Value>, depth: nat)
    requires p % 8 == q % 8
    ensures EncItems(p, element, items, depth) == EncItems(q, element, items, depth)
    decreases MAX_DEPTH + 1 - depth, 2, |items|
  {
    hide Enc;
    if items != [] {
      EncCongruent(p, q, element, items[0], depth);
      var first := Enc(p, element, items[0], depth);
      if first.Ok? {
        ModAdd(p, q, |first.value|);
        ItemsCongruent(p + |first.value|, q + |first.value|, element, items[1..], depth);
      }
    }
  }

  lemma {:induction false} EntriesCongruent(p: nat, q: nat, entry: Type, entries: seq<Entry>, depth: nat)
    requires p % 8 == q % 8
    ensures EncEntries(p, entry, entries, depth) == EncEntries(q, entry, entries, depth)
    decreases MAX_DEPTH + 1 - depth, 2, |entries|
  {
    hide EncEntry;
    if entries != [] {
      EntryCongruent(p, q, entry, entries[0], depth);
      var first := EncEntry(p, entry, entries[0], depth);
      if first.Ok? {
        ModAdd(p, q, |first.value|);
        EntriesCongruent(p + |first.value|, q + |first.value|, entry, entries[1..], depth);
      }
    }
  }

  lemma {:induction false} EntryCongruent(p: nat, q: nat, entry: Type, item: Entry, depth: nat)
    requires p % 8 == q % 8
    ensures EncEntry(p, entry, item, depth) == EncEntry(q, entry, item, depth)
    decreases MAX_DEPTH + 1 - depth, 1, 1
  {
    hide Enc, EncStr, PadLen, Zeros;
    PadCongruent(p, q, 8);
    var key := EncStr(item.key);
    if key.Ok? {
      var n := PadLen(p, 8) + |key.value|;
      ModAdd(p, q, n);
      EncCongruent(p + n, q + n, entry, item.value, depth);
    }
  }

  lemma {:induction false} FieldsCongruent(p: nat, q: nat, types: seq<Type>, vs: seq<Value>, depth: nat)
    requires p % 8 == q % 8 && |types| == |vs|
    ensures EncFields(p, types, vs, depth) == EncFields(q, types, vs, depth)
    decreases MAX_DEPTH + 1 - depth, 2, |types|
  {
    hide Enc;
    if types != [] {
      EncCongruent(p, q, types[0], vs[0], depth);
      var first := Enc(p, types[0], vs[0], depth);
      if first.Ok? {
        ModAdd(p, q, |first.value|);
        FieldsCongruent(p + |first.value|, q + |first.value|, types[1..], vs[1..], depth);
      }
    }
  }

  /**
   A body marshalled on its own takes the bytes it would take where the message puts it,
   since a body begins at a multiple of 8.
   */
  lemma BodyStandsAlone(at: nat, sig: seq<byte>, vs: seq<Value>)
    requires at % 8 == 0 && ParseSignature(sig).Some? && |ParseSignature(sig).value| == |vs|
    ensures Encode(sig, vs) == EncFields(at, ParseSignature(sig).value, vs, 0)
  {
    hide EncFields;
    FieldsCongruent(0, at, ParseSignature(sig).value, vs, 0);
  }
}
