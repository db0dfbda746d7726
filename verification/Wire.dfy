/**
 The marshalling format (D-Bus Specification, "Marshaling (Wire Format)"): values, the
 bytes a value takes at a position, and the strict reading of a block, as functions.
 */
module Wire {
  import opened Results
  import opened Bytes
  import opened Utf8Text
  import opened Signatures

  const MAX_ARRAY: nat := 0x400_0000
  const MAX_VALUES: nat := 0x10_0000
  const MAX_DEPTH: nat := 64

  type u16 = n: nat | n < 0x1_0000
  type u32 = n: nat | n < 0x1_0000_0000
  type u64 = n: nat | n < 0x1_0000_0000_0000_0000
  type i16 = n: int | -0x8000 <= n < 0x8000
  type i32 = n: int | -0x8000_0000 <= n < 0x8000_0000
  type i64 = n: int | -0x8000_0000_0000_0000 <= n < 0x8000_0000_0000_0000

  /** One value; a double is its eight bytes read as a number. */
  datatype Value =
    | Byte(octet: byte)
    | Bool(flag: bool)
    | Int16(int16: i16)
    | Uint16(uint16: u16)
    | Int32(int32: i32)
    | Uint32(uint32: u32)
    | Int64(int64: i64)
    | Uint64(uint64: u64)
    | Double(bits: u64)
    | Str(text: Text)
    | ObjectPath(path: Text)
    | Signature(sig: Text)
    | Fd(index: u32)
    | ByteArray(bytes: seq<byte>)
    | Array(items: seq<Value>)
    | Struct(fields: seq<Value>)
    | Dict(entries: seq<Entry>)
    | Variant(inner: Value)

  datatype Entry = Entry(key: Text, value: Value)

  datatype Shape = EmptyArrayInVariant | EmptyDictInVariant | DictKeyNotString | LooseDictEntry

  datatype WireError =
    | Closed
    | Io
    | Timeout
    | Auth(line: seq<byte>)
    | AuthRejected(mechanisms: seq<byte>)
    | NoFdPassing
    | TooManyFds(fds: nat)
    | BadSignature(sig: seq<byte>)
    | Arity(expected: nat, got: nat)
    | TypeMismatch(code: byte, given: Value)
    | Unsupported(shape: Shape)
    | Truncated
    | Padding
    | Trailing(left: nat)
    | ArrayTooLong(bytes: nat)
    | MessageTooLong(bytes: nat)
    | TooManyValues
    | BadString
    | BadObjectPath(path: Text)
    | BadBool(word: nat)
    | Depth
    | Endianness(flag: byte)
    | BadMessage(what: string)
    | FdIndex(index: nat)
    | NoDestination

  type Wired<+T> = Result<T, WireError>

  function Parse(sig: seq<byte>): Wired<seq<Type>> {
    match ParseSignature(sig)
    case Some(types) => Ok(types)
    case None => Err(BadSignature(sig))
  }

  const SLASH: byte := 47  // '/'

  predicate PathByte(b: byte) {
    48 <= b <= 57 || 65 <= b <= 90 || 97 <= b <= 122 || b == 95
  }

  /**
   "Valid Object Paths": `/`, or a `/` before each of one or more elements of
   `[A-Za-z0-9_]`, none of them empty.
   */
  predicate ValidObjectPath(path: seq<byte>) {
    || path == [SLASH]
    || (&& |path| > 1 && path[0] == SLASH && path[|path| - 1] != SLASH
        && forall i {:trigger path[i]} :: 1 <= i < |path| ==>
             PathByte(path[i]) || (path[i] == SLASH && path[i - 1] != SLASH))
  }

  // ----- values of a fixed width -----

  predicate Fixed(ty: Type) {
    match ty
    case Byte | Bool | Int16 | Uint16 | Int32 | Uint32 | Int64 | Uint64 | Double | Fd => true
    case _ => false
  }

  function Twos(n: int, span: nat): nat
    requires 0 <= n + span && n < span
  {
    if n < 0 then n + span else n
  }

  /** The number a fixed-width value is written as, `None` where it has another type. */
  function Raw(ty: Type, v: Value): (r: Option<nat>)
    requires Fixed(ty)
    ensures r.Some? ==> r.value < Pow256(ty.Alignment())
  {
    Powers();
    if ty.Byte? && v.Byte? then Some(v.octet)
    else if ty.Bool? && v.Bool? then Some(if v.flag then 1 else 0)
    else if ty.Int16? && v.Int16? then Some(Twos(v.int16, 0x1_0000))
    else if ty.Uint16? && v.Uint16? then Some(v.uint16)
    else if ty.Int32? && v.Int32? then Some(Twos(v.int32, 0x1_0000_0000))
    else if ty.Uint32? && v.Uint32? then Some(v.uint32)
    else if ty.Int64? && v.Int64? then Some(Twos(v.int64, 0x1_0000_0000_0000_0000))
    else if ty.Uint64? && v.Uint64? then Some(v.uint64)
    else if ty.Double? && v.Double? then Some(v.bits)
    else if ty.Fd? && v.Fd? then Some(v.index)
    else None
  }

  function Signed(n: nat, span: nat): int {
    if n < span / 2 then n else n - span
  }

  /** The value a number of type `ty` stands for; a boolean other than 0 or 1 is refused. */
  function FromRaw(ty: Type, n: nat): Wired<Value>
    requires Fixed(ty) && n < Pow256(ty.Alignment())
  {
    Powers();
    match ty
    case Byte => Ok(Value.Byte(n))
    case Bool => if n == 0 then Ok(Value.Bool(false)) else if n == 1 then Ok(Value.Bool(true)) else Err(BadBool(n))
    case Int16 => Ok(Value.Int16(Signed(n, 0x1_0000)))
    case Uint16 => Ok(Value.Uint16(n))
    case Int32 => Ok(Value.Int32(Signed(n, 0x1_0000_0000)))
    case Uint32 => Ok(Value.Uint32(n))
    case Int64 => Ok(Value.Int64(Signed(n, 0x1_0000_0000_0000_0000)))
    case Uint64 => Ok(Value.Uint64(n))
    case Double => Ok(Value.Double(n))
    case Fd => Ok(Value.Fd(n))
  }

  lemma RawRoundTrip(ty: Type, v: Value)
    requires Fixed(ty) && Raw(ty, v).Some?
    ensures FromRaw(ty, Raw(ty, v).value) == Ok(v)
  {
    Powers();
  }

  lemma FromRawCanonical(ty: Type, n: nat)
    requires Fixed(ty) && n < Pow256(ty.Alignment()) && FromRaw(ty, n).Ok?
    ensures Raw(ty, FromRaw(ty, n).value) == Some(n)
  {
    Powers();
  }

  // ----- the signature a variant carries -----

  function LeafSignature(v: Value): Option<byte> {
    match v
    case Byte(_) => Some(Type.Byte.Code())
    case Bool(_) => Some(Type.Bool.Code())
    case Int16(_) => Some(Type.Int16.Code())
    case Uint16(_) => Some(Type.Uint16.Code())
    case Int32(_) => Some(Type.Int32.Code())
    case Uint32(_) => Some(Type.Uint32.Code())
    case Int64(_) => Some(Type.Int64.Code())
    case Uint64(_) => Some(Type.Uint64.Code())
    case Double(_) => Some(Type.Double.Code())
    case Str(_) => Some(Type.Str.Code())
    case ObjectPath(_) => Some(Type.ObjectPath.Code())
    case Signature(_) => Some(Type.Signature.Code())
    case Fd(_) => Some(Type.Fd.Code())
    case Variant(_) => Some(Type.Variant.Code())
    case _ => None
  }

  /** The signature of a value; an empty array or dict has none to read off. */
  function SignatureOf(v: Value, depth: nat): Wired<seq<byte>>
    decreases v
  {
    if depth > MAX_DEPTH then Err(Depth)
    else if LeafSignature(v).Some? then Ok([LeafSignature(v).value])
    else
      match v
      case Array(items) =>
        if items == [] then Err(Unsupported(EmptyArrayInVariant))
        else
          var element :- SignatureOf(items[0], depth + 1);
          Ok([ARRAY] + element)
      case Dict(entries) =>
        if entries == [] then Err(Unsupported(EmptyDictInVariant))
        else
          var value :- SignatureOf(entries[0].value, depth + 1);
          Ok([ARRAY, DICT_OPEN, Type.Str.Code()] + value + [DICT_CLOSE])
      case Struct(fields) =>
        var inner :- SignaturesOf(fields, depth + 1);
        Ok([STRUCT_OPEN] + inner + [STRUCT_CLOSE])
      case _ => Ok([ARRAY, Type.Byte.Code()])
  }

  function SignaturesOf(vs: seq<Value>, depth: nat): Wired<seq<byte>>
    decreases vs
  {
    if vs == [] then Ok([])
    else
      var first :- SignatureOf(vs[0], depth);
      var rest :- SignaturesOf(vs[1..], depth);
      Ok(first + rest)
  }

  // ----- the bytes a value takes at a position -----

  function Mismatch(ty: Type, v: Value): WireError {
    TypeMismatch(ty.Code(), v)
  }

  function EncStr(text: seq<byte>): Wired<seq<byte>> {
    if 0 in text then Err(BadString)
    else if |text| >= 0x1_0000_0000 then Err(ArrayTooLong(|text|))
    else Ok(Le(|text|, 4) + text + [0])
  }

  function EncSig(sig: seq<byte>): seq<byte> {
    [|sig| % 256] + sig + [0]
  }

  /** What `v` of type `ty` takes at offset `pos`, its leading padding included. */
  function Enc(pos: nat, ty: Type, v: Value, depth: nat): Wired<seq<byte>>
    decreases MAX_DEPTH + 1 - depth, 1, 0
  {
    if depth > MAX_DEPTH then Err(Depth)
    else
      var gap := Zeros(PadLen(pos, ty.Alignment()));
      var body :- EncBody(pos + |gap|, ty, v, depth);
      Ok(gap + body)
  }

  function EncBody(pos: nat, ty: Type, v: Value, depth: nat): Wired<seq<byte>>
    requires depth <= MAX_DEPTH
    decreases MAX_DEPTH + 1 - depth, 0, 1
  {
    if Fixed(ty) then
      match Raw(ty, v)
      case Some(n) => Ok(Le(n, ty.Alignment()))
      case None => Err(Mismatch(ty, v))
    else if ty.Array? then EncArray(pos, ty.element, v, depth)
    else if ty.Str? && v.Str? then EncStr(v.text)
    else if ty.ObjectPath? && v.ObjectPath? then
      if ValidObjectPath(v.path) then EncStr(v.path) else Err(BadObjectPath(v.path))
    else if ty.Signature? && v.Signature? then
      var _ :- Parse(v.sig);
      Ok(EncSig(v.sig))
    else if ty.Struct? && v.Struct? then
      if |ty.fields| != |v.fields| then Err(Arity(|ty.fields|, |v.fields|))
      else EncFields(pos, ty.fields, v.fields, depth + 1)
    else if ty.Variant? && v.Variant? then EncVariant(pos, v.inner, depth)
    else Err(Mismatch(ty, v))
  }

  /** A variant: the signature of its contents, then the contents. */
  function EncVariant(pos: nat, inner: Value, depth: nat): Wired<seq<byte>>
    requires depth <= MAX_DEPTH
    decreases MAX_DEPTH + 1 - depth, 0, 0
  {
    var sig :- SignatureOf(inner, 0);
    var types :- Parse(sig);
    if |types| != 1 then Err(BadSignature(sig))
    else
      var head := EncSig(sig);
      var body :- Enc(pos + |head|, types[0], inner, depth + 1);
      Ok(head + body)
  }

  /** An array: the byte count, the padding it leaves out, the elements. */
  function EncArray(pos: nat, element: Type, v: Value, depth: nat): Wired<seq<byte>>
    requires depth <= MAX_DEPTH
    decreases MAX_DEPTH + 1 - depth, 0, 0
  {
    if depth >= MAX_DEPTH then Err(Depth)
    else
      var gap := Zeros(PadLen(pos + 4, element.Alignment()));
      var elements :- EncElements(pos + 4 + |gap|, element, v, depth + 1);
      if |elements| > MAX_ARRAY then Err(ArrayTooLong(|elements|))
      else Ok(Le(|elements|, 4) + gap + elements)
  }

  function EncElements(pos: nat, element: Type, v: Value, depth: nat): Wired<seq<byte>>
    requires depth <= MAX_DEPTH
    decreases MAX_DEPTH + 1 - depth, 3, 0
  {
    if element.Byte? then
      if v.ByteArray? then Ok(v.bytes) else Err(TypeMismatch(ARRAY, v))
    else if element.DictEntry? then
      if !v.Dict? then Err(TypeMismatch(ARRAY, v))
      else if !element.key.Str? then Err(Unsupported(DictKeyNotString))
      else EncEntries(pos, element.value, v.entries, depth)
    else if v.Array? then EncItems(pos, element, v.items, depth)
    else Err(TypeMismatch(ARRAY, v))
  }

  function EncItems(pos: nat, element: Type, items: seq<Value>, depth: nat): Wired<seq<byte>>
    decreases MAX_DEPTH + 1 - depth, 2, |items|
  {
    if items == [] then Ok([])
    else
      var first :- Enc(pos, element, items[0], depth);
      var rest :- EncItems(pos + |first|, element, items[1..], depth);
      Ok(first + rest)
  }

  function EncEntries(pos: nat, entry: Type, entries: seq<Entry>, depth: nat): Wired<seq<byte>>
    decreases MAX_DEPTH + 1 - depth, 2, |entries|
  {
    if entries == [] then Ok([])
    else
      var first :- EncEntry(pos, entry, entries[0], depth);
      var rest :- EncEntries(pos + |first|, entry, entries[1..], depth);
      Ok(first + rest)
  }

  /** A dict entry aligns to 8 whatever it holds. */
  function EncEntry(pos: nat, entry: Type, e: Entry, depth: nat): Wired<seq<byte>>
    decreases MAX_DEPTH + 1 - depth, 1, 1
  {
    var gap := Zeros(PadLen(pos, 8));
    var key :- EncStr(e.key);
    var value :- Enc(pos + |gap| + |key|, entry, e.value, depth);
    Ok(gap + key + value)
  }

  function EncFields(pos: nat, types: seq<Type>, vs: seq<Value>, depth: nat): Wired<seq<byte>>
    requires |types| == |vs|
    decreases MAX_DEPTH + 1 - depth, 2, |types|
  {
    if types == [] then Ok([])
    else
      var first :- Enc(pos, types[0], vs[0], depth);
      var rest :- EncFields(pos + |first|, types[1..], vs[1..], depth);
      Ok(first + rest)
  }

  /** `encode`: a whole block, which begins at a multiple of 8. */
  function Encode(sig: seq<byte>, vs: seq<Value>): Wired<seq<byte>> {
    var types :- Parse(sig);
    if |types| != |vs| then Err(Arity(|types|, |vs|))
    else EncFields(0, types, vs, 0)
  }

  // ----- the strict reading of a block -----

  /** Something read, the offset after it, and the values counted so far. */
  datatype Got<+T> = Got(value: T, at: nat, count: nat)

  /** A list of types no part of which can be empty on the wire. */
  predicate Solid(ty: Type) {
    match ty
    case Array(element) => Solid(element)
    case Struct(fields) => fields != [] && forall i :: 0 <= i < |fields| ==> Solid(fields[i])
    case DictEntry(key, value) => Solid(key) && Solid(value)
    case _ => true
  }

  predicate AllSolid(types: seq<Type>) {
    forall i :: 0 <= i < |types| ==> Solid(types[i])
  }

  function Take(buf: seq<byte>, at: nat, n: nat): (r: Wired<seq<byte>>)
    ensures r.Ok? ==> at + n <= |buf| && r.value == buf[at..at + n] && |r.value| == n
  {
    if at + n <= |buf| then Ok(buf[at..at + n]) else Err(Truncated)
  }

  /** The offset past the padding before a value of alignment `align`. */
  function Align(buf: seq<byte>, at: nat, align: nat): (r: Wired<nat>)
    requires align != 0
    ensures r.Ok? ==> at <= r.value <= |buf|
  {
    var n := PadLen(at, align);
    var gap :- Take(buf, at, n);
    if AllZero(gap) then Ok(at + n) else Err(Padding)
  }

  function DecUint32(buf: seq<byte>, at: nat): (r: Wired<u32>)
    ensures r.Ok? ==> at + 4 <= |buf| && r.value == UnLe(buf[at..at + 4])
  {
    var bytes :- Take(buf, at, 4);
    LeOfUnLe(bytes);
    Powers();
    Ok(UnLe(bytes))
  }

  /** `len` bytes of text and the nul after them. */
  function DecText(buf: seq<byte>, at: nat, len: nat): (r: Wired<Text>)
    ensures r.Ok? ==> at + len + 1 <= |buf| && r.value == buf[at..at + len]
  {
    var text :- Take(buf, at, len);
    if 0 in text then Err(BadString)
    else
      var nul :- Take(buf, at + len, 1);
      if nul[0] != 0 || !Utf8(text) then Err(BadString) else Ok(text)
  }

  /** A string with its length word: the text, and the offset after the nul. */
  function DecStr(buf: seq<byte>, at: nat): (r: Wired<(Text, nat)>)
    ensures r.Ok? ==> at < r.value.1 <= |buf|
  {
    var len :- DecUint32(buf, at);
    var text :- DecText(buf, at + 4, len);
    Ok((text, at + 4 + len + 1))
  }

  function DecSig(buf: seq<byte>, at: nat): (r: Wired<(Text, nat)>)
    ensures r.Ok? ==> at < r.value.1 <= |buf|
  {
    var len :- Take(buf, at, 1);
    var text :- DecText(buf, at + 1, len[0]);
    Ok((text, at + 1 + len[0] + 1))
  }

  /**
   One value of type `ty` at `at`, `count` values having been read before it. It moves
   forward, stays inside the block, and a success never counts more than the budget.
   */
  function Dec(buf: seq<byte>, at: nat, count: nat, ty: Type, depth: nat): (r: Wired<Got<Value>>)
    requires Solid(ty)
    ensures r.Ok? ==> at < r.value.at <= |buf| && count < r.value.count <= MAX_VALUES
    decreases MAX_DEPTH + 1 - depth, 1, 0
  {
    if depth > MAX_DEPTH then Err(Depth)
    else if count + 1 > MAX_VALUES then Err(TooManyValues)
    else
      var start :- Align(buf, at, ty.Alignment());
      DecBody(buf, start, count + 1, ty, depth)
  }

  function DecBody(buf: seq<byte>, at: nat, count: nat, ty: Type, depth: nat): (r: Wired<Got<Value>>)
    requires Solid(ty) && depth <= MAX_DEPTH && count <= MAX_VALUES
    ensures r.Ok? ==> at < r.value.at <= |buf| && count <= r.value.count <= MAX_VALUES
    decreases MAX_DEPTH + 1 - depth, 0, 1
  {
    if Fixed(ty) then
      var bytes :- Take(buf, at, ty.Alignment());
      LeOfUnLe(bytes);
      var v :- FromRaw(ty, UnLe(bytes));
      Ok(Got(v, at + ty.Alignment(), count))
    else if ty.Array? then DecArray(buf, at, count, ty.element, depth)
    else if ty.Str? then
      var s :- DecStr(buf, at);
      Ok(Got(Value.Str(s.0), s.1, count))
    else if ty.ObjectPath? then
      var s :- DecStr(buf, at);
      if ValidObjectPath(s.0) then Ok(Got(Value.ObjectPath(s.0), s.1, count)) else Err(BadObjectPath(s.0))
    else if ty.Signature? then
      var s :- DecSig(buf, at);
      var _ :- Parse(s.0);
      Ok(Got(Value.Signature(s.0), s.1, count))
    else if ty.Variant? then DecVariant(buf, at, count, depth)
    else if ty.Struct? then
      var got :- DecFields(buf, at, count, ty.fields, depth + 1);
      Ok(Got(Value.Struct(got.value), got.at, got.count))
    else Err(Unsupported(LooseDictEntry))
  }

  function DecVariant(buf: seq<byte>, at: nat, count: nat, depth: nat): (r: Wired<Got<Value>>)
    requires depth <= MAX_DEPTH && count <= MAX_VALUES
    ensures r.Ok? ==> at < r.value.at <= |buf| && count <= r.value.count <= MAX_VALUES
    ensures r.Ok? ==> r.value.value.Variant?
    decreases MAX_DEPTH + 1 - depth, 0, 0
  {
    var sig :- DecSig(buf, at);
    var types :- Parse(sig.0);
    if |types| != 1 then Err(BadSignature(sig.0))
    else
      ParsedIsSolid(sig.0);
      var got :- Dec(buf, sig.1, count, types[0], depth + 1);
      Ok(Got(Value.Variant(got.value), got.at, got.count))
  }

  /** An array: elements are read until exactly the declared bytes are used. */
  function DecArray(buf: seq<byte>, at: nat, count: nat, element: Type, depth: nat): (r: Wired<Got<Value>>)
    requires Solid(element) && depth <= MAX_DEPTH && count <= MAX_VALUES
    ensures r.Ok? ==> at < r.value.at <= |buf| && count <= r.value.count <= MAX_VALUES
    decreases MAX_DEPTH + 1 - depth, 0, 0
  {
    if depth >= MAX_DEPTH then Err(Depth)
    else
      var length :- DecUint32(buf, at);
      if length > MAX_ARRAY then Err(ArrayTooLong(length))
      else
        var start :- Align(buf, at + 4, element.Alignment());
        if start + length > |buf| then Err(Truncated)
        else DecElements(buf, start, start + length, count, element, depth + 1)
  }

  function DecElements(buf: seq<byte>, at: nat, end: nat, count: nat, element: Type, depth: nat)
    : (r: Wired<Got<Value>>)
    requires Solid(element) && depth <= MAX_DEPTH && count <= MAX_VALUES && at <= end <= |buf|
    ensures r.Ok? ==> r.value.at == end && count <= r.value.count <= MAX_VALUES
    decreases MAX_DEPTH + 1 - depth, 3, 0
  {
    if element.Byte? then Ok(Got(Value.ByteArray(buf[at..end]), end, count))
    else if element.DictEntry? then
      if !element.key.Str? then Err(Unsupported(DictKeyNotString))
      else
        var got :- DecEntries(buf, at, end, count, element.value, depth);
        Ok(Got(Value.Dict(got.value), got.at, got.count))
    else
      var got :- DecItems(buf, at, end, count, element, depth);
      Ok(Got(Value.Array(got.value), got.at, got.count))
  }

  function DecItems(buf: seq<byte>, at: nat, end: nat, count: nat, element: Type, depth: nat)
    : (r: Wired<Got<seq<Value>>>)
    requires Solid(element) && count <= MAX_VALUES && at <= end <= |buf|
    ensures r.Ok? ==> r.value.at == end && count <= r.value.count <= MAX_VALUES
    decreases MAX_DEPTH + 1 - depth, 2, end - at
  {
    if at == end then Ok(Got([], at, count))
    else
      var first :- Dec(buf, at, count, element, depth);
      if first.at > end then Err(Truncated)
      else
        var rest :- DecItems(buf, first.at, end, first.count, element, depth);
        Ok(Got([first.value] + rest.value, rest.at, rest.count))
  }

  function DecEntries(buf: seq<byte>, at: nat, end: nat, count: nat, entry: Type, depth: nat)
    : (r: Wired<Got<seq<Entry>>>)
    requires Solid(entry) && count <= MAX_VALUES && at <= end <= |buf|
    ensures r.Ok? ==> r.value.at == end && count <= r.value.count <= MAX_VALUES
    decreases MAX_DEPTH + 1 - depth, 2, end - at
  {
    if at == end then Ok(Got([], at, count))
    else
      var first :- DecEntry(buf, at, count, entry, depth);
      if first.at > end then Err(Truncated)
      else
        var rest :- DecEntries(buf, first.at, end, first.count, entry, depth);
        Ok(Got([first.value] + rest.value, rest.at, rest.count))
  }

  /** The key is text rather than a value, so the entry is counted here. */
  function DecEntry(buf: seq<byte>, at: nat, count: nat, entry: Type, depth: nat): (r: Wired<Got<Entry>>)
    requires Solid(entry) && count <= MAX_VALUES
    ensures r.Ok? ==> at < r.value.at <= |buf| && count < r.value.count <= MAX_VALUES
    decreases MAX_DEPTH + 1 - depth, 1, 1
  {
    if count + 1 > MAX_VALUES then Err(TooManyValues)
    else
      var start :- Align(buf, at, 8);
      var key :- DecStr(buf, start);
      var value :- Dec(buf, key.1, count + 1, entry, depth);
      Ok(Got(Entry(key.0, value.value), value.at, value.count))
  }

  function DecFields(buf: seq<byte>, at: nat, count: nat, types: seq<Type>, depth: nat)
    : (r: Wired<Got<seq<Value>>>)
    requires AllSolid(types) && count <= MAX_VALUES
    ensures r.Ok? ==> at <= r.value.at && (types != [] || at <= |buf| ==> r.value.at <= |buf|)
    ensures r.Ok? ==> count <= r.value.count <= MAX_VALUES && |r.value.value| == |types|
    decreases MAX_DEPTH + 1 - depth, 2, |types|
  {
    if types == [] then Ok(Got([], at, count))
    else
      var first :- Dec(buf, at, count, types[0], depth);
      var rest :- DecFields(buf, first.at, first.count, types[1..], depth);
      Ok(Got([first.value] + rest.value, rest.at, rest.count))
  }

  /** `decode`: a whole block, every byte of it. */
  function Decode(sig: seq<byte>, body: seq<byte>): Wired<seq<Value>> {
    var types :- Parse(sig);
    ParsedIsSolid(sig);
    var got :- DecFields(body, 0, 0, types, 0);
    if got.at != |body| then Err(Trailing(|body| - got.at)) else Ok(got.value)
  }

  // ----- every type the parser can build occupies at least one byte -----

  lemma {:induction false} LegalIsSolid(ty: Type, arrays: nat, structs: nat)
    requires Legal(ty, arrays, structs)
    ensures Solid(ty)
    decreases ty
  {
    match ty
    case Array(DictEntry(key, value)) => LegalIsSolid(value, arrays + 1, structs + 1);
    case Array(element) => LegalIsSolid(element, arrays + 1, structs);
    case Struct(fields) =>
      forall i | 0 <= i < |fields|
        ensures Solid(fields[i])
      {
        LegalIsSolid(fields[i], arrays, structs + 1);
      }
    case _ =>
  }

  lemma ParsedIsSolid(sig: seq<byte>)
    requires ParseSignature(sig).Some?
    ensures AllSolid(ParseSignature(sig).value)
  {
    var types := ParseSignature(sig).value;
    SignatureIffRendered(sig, types);
    forall i | 0 <= i < |types|
      ensures Solid(types[i])
    {
      LegalIsSolid(types[i], 0, 0);
    }
  }

  // ----- an array, unfolded once -----

  lemma TooDeepForArray(pos: nat, element: Type, v: Value, depth: nat)
    requires depth == MAX_DEPTH
    ensures EncArray(pos, element, v, depth) == Err(Depth)
  {
  }

  lemma ArrayShape(pos: nat, element: Type, v: Value, depth: nat)
    requires depth < MAX_DEPTH
    ensures
      var gap := Zeros(PadLen(pos + 4, element.Alignment()));
      match EncElements(pos + 4 + |gap|, element, v, depth + 1)
      case Ok(es) =>
        EncArray(pos, element, v, depth)
          == if |es| > MAX_ARRAY then Err(ArrayTooLong(|es|)) else Ok(Le(|es|, 4) + gap + es)
      case Err(why) => EncArray(pos, element, v, depth) == Err(why)
  {
    hide EncElements;
  }
}
