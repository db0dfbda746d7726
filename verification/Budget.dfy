/** What a successful decode may have cost: the values it counted and how deep it went. */
module Budget {
  import opened Results
  import opened Bytes
  import opened Signatures
  import opened Wire
  import opened RoundTrip

  function Max(a: nat, b: nat): nat {
    if a < b then b else a
  }

  /** Levels of nesting in a value, itself included; variants count as levels. */
  function Height(v: Value): nat
    decreases v
  {
    match v
    case Array(items) => 1 + Heights(items)
    case Struct(fields) => 1 + Heights(fields)
    case Dict(entries) => 1 + EntryHeights(entries)
    case Variant(inner) => 1 + Height(inner)
    case _ => 1
  }

  function Heights(vs: seq<Value>): nat
    decreases vs
  {
    if vs == [] then 0 else Max(Height(vs[0]), Heights(vs[1..]))
  }

  function EntryHeights(entries: seq<Entry>): nat
    decreases entries
  {
    if entries == [] then 0 else Max(Height(entries[0].value), EntryHeights(entries[1..]))
  }

  /** A value costs one count for itself and each one inside it, and none lies deeper than 64. */
  lemma {:induction false} ValueCosts(buf: seq<byte>, at: nat, count: nat, ty: Type, depth: nat, got: Got<Value>)
    requires Solid(ty) && Dec(buf, at, count, ty, depth) == Ok(got)
    ensures got.count == count + Cost(got.value)
    ensures depth + Height(got.value) <= MAX_DEPTH + 1
    decreases MAX_DEPTH + 1 - depth, 1, 0
  {
    hide DecBody, Solid, Cost, Height;
    BodyCosts(buf, at + PadLen(at, ty.Alignment()), count + 1, ty, depth, got);
  }

  lemma {:induction false} BodyCosts(buf: seq<byte>, at: nat, count: nat, ty: Type, depth: nat, got: Got<Value>)
    requires Solid(ty) && depth <= MAX_DEPTH && count <= MAX_VALUES
    requires DecBody(buf, at, count, ty, depth) == Ok(got)
    ensures got.count == count + Cost(got.value) - 1
    ensures depth + Height(got.value) <= MAX_DEPTH + 1
    decreases MAX_DEPTH + 1 - depth, 0, 1
  {
    hide DecArray, DecVariant, DecFields, DecStr, DecSig, CostAll, Heights;
    if ty.Array? {
      ArrayCosts(buf, at, count, ty.element, depth, got);
    } else if ty.Variant? {
      VariantCosts(buf, at, count, depth, got);
    } else if ty.Struct? {
      FieldsCost(buf, at, count, ty.fields, depth + 1, DecFields(buf, at, count, ty.fields, depth + 1).value);
    }
  }

  lemma {:induction false} VariantCosts(buf: seq<byte>, at: nat, count: nat, depth: nat, got: Got<Value>)
    requires depth <= MAX_DEPTH && count <= MAX_VALUES
    requires DecVariant(buf, at, count, depth) == Ok(got)
    ensures got.value.Variant? && got.count == count + Cost(got.value) - 1
    ensures depth + Height(got.value) <= MAX_DEPTH + 1
    decreases MAX_DEPTH + 1 - depth, 0, 0
  {
    hide Dec, DecSig, Solid;
    var sig := DecSig(buf, at).value;
    ParsedIsSolid(sig.0);
    var ty := ParseSignature(sig.0).value[0];
    ValueCosts(buf, sig.1, count, ty, depth + 1, Dec(buf, sig.1, count, ty, depth + 1).value);
  }

  lemma {:induction false} ArrayCosts(buf: seq<byte>, at: nat, count: nat, element: Type, depth: nat, got: Got<Value>)
    requires Solid(element) && depth <= MAX_DEPTH && count <= MAX_VALUES
    requires DecArray(buf, at, count, element, depth) == Ok(got)
    ensures got.count == count + Cost(got.value) - 1
    ensures depth + Height(got.value) <= MAX_DEPTH + 1
    decreases MAX_DEPTH + 1 - depth, 0, 0
  {
    hide DecItems, DecEntries, DecUint32, Align, CostAll, CostEntries, Heights, EntryHeights;
    var start := Align(buf, at + 4, element.Alignment()).value;
    var end := got.at;
    if element.DictEntry? {
      EntriesCost(buf, start, end, count, element.value, depth + 1,
                  DecEntries(buf, start, end, count, element.value, depth + 1).value);
    } else if !element.Byte? {
      ItemsCost(buf, start, end, count, element, depth + 1,
                DecItems(buf, start, end, count, element, depth + 1).value);
    }
  }

  lemma {:induction false} ItemsCost(
    buf: seq<byte>, at: nat, end: nat, count: nat, element: Type, depth: nat, got: Got<seq<Value>>)
    requires Solid(element) && count <= MAX_VALUES && at <= end <= |buf| && depth <= MAX_DEPTH
    requires DecItems(buf, at, end, count, element, depth) == Ok(got)
    ensures got.count == count + CostAll(got.value) && depth + Heights(got.value) <= MAX_DEPTH + 1
    decreases MAX_DEPTH + 1 - depth, 2, end - at
  {
    hide Dec, Solid, Cost, Height;
    if at < end {
      var first := Dec(buf, at, count, element, depth).value;
      var rest := DecItems(buf, first.at, end, first.count, element, depth).value;
      assert got.value[0] == first.value && got.value[1..] == rest.value;
      ValueCosts(buf, at, count, element, depth, first);
      ItemsCost(buf, first.at, end, first.count, element, depth, rest);
    }
  }

  lemma {:induction false} EntriesCost(
    buf: seq<byte>, at: nat, end: nat, count: nat, entry: Type, depth: nat, got: Got<seq<Entry>>)
    requires Solid(entry) && count <= MAX_VALUES && at <= end <= |buf| && depth <= MAX_DEPTH
    requires DecEntries(buf, at, end, count, entry, depth) == Ok(got)
    ensures got.count == count + CostEntries(got.value) && depth + EntryHeights(got.value) <= MAX_DEPTH + 1
    decreases MAX_DEPTH + 1 - depth, 2, end - at
  {
    hide DecEntry, Solid, Cost, Height;
    if at < end {
      var first := DecEntry(buf, at, count, entry, depth).value;
      var rest := DecEntries(buf, first.at, end, first.count, entry, depth).value;
      assert got.value[0] == first.value && got.value[1..] == rest.value;
      EntryCosts(buf, at, count, entry, depth, first);
      EntriesCost(buf, first.at, end, first.count, entry, depth, rest);
    }
  }

  lemma {:induction false} EntryCosts(buf: seq<byte>, at: nat, count: nat, entry: Type, depth: nat, got: Got<Entry>)
    requires Solid(entry) && count <= MAX_VALUES && DecEntry(buf, at, count, entry, depth) == Ok(got)
    ensures got.count == count + 1 + Cost(got.value.value)
    ensures depth + Height(got.value.value) <= MAX_DEPTH + 1
    decreases MAX_DEPTH + 1 - depth, 1, 1
  {
    hide Dec, Align, DecStr, Solid, Cost, Height;
    var start := Align(buf, at, 8).value;
    var key := DecStr(buf, start).value;
    ValueCosts(buf, key.1, count + 1, entry, depth, Dec(buf, key.1, count + 1, entry, depth).value);
  }

  lemma {:induction false} FieldsCost(
    buf: seq<byte>, at: nat, count: nat, types: seq<Type>, depth: nat, got: Got<seq<Value>>)
    requires AllSolid(types) && count <= MAX_VALUES && depth <= MAX_DEPTH + 1
    requires DecFields(buf, at, count, types, depth) == Ok(got)
    ensures got.count == count + CostAll(got.value) && depth + Heights(got.value) <= MAX_DEPTH + 1
    decreases MAX_DEPTH + 1 - depth, 2, |types|
  {
    hide Dec, Solid, Cost, Height;
    if types != [] {
      var first := Dec(buf, at, count, types[0], depth).value;
      var rest := DecFields(buf, first.at, first.count, types[1..], depth).value;
      assert got.value[0] == first.value && got.value[1..] == rest.value;
      ValueCosts(buf, at, count, types[0], depth, first);
      FieldsCost(buf, first.at, first.count, types[1..], depth, rest);
    }
  }

  /** A decoded block holds at most 2^20 values and dict entries, nested at most 65 levels. */
  lemma {:induction false} DecodeIsBounded(sig: seq<byte>, body: seq<byte>)
    requires Decode(sig, body).Ok?
    ensures CostAll(Decode(sig, body).value) <= MAX_VALUES
    ensures Heights(Decode(sig, body).value) <= MAX_DEPTH + 1
  {
    hide DecFields, Heights, CostAll;
    ParsedIsSolid(sig);
    var types := ParseSignature(sig).value;
    FieldsCost(body, 0, 0, types, 0, DecFields(body, 0, 0, types, 0).value);
  }
}
