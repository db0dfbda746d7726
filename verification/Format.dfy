/**
 The marshalling format as the D-Bus Specification has it, said of the bytes themselves and
 apart from any encoder or decoder ("Marshaling (Wire Format)", "Summary of D-Bus marshalling").
 The encoder writes blocks of this format, and the decoder accepts exactly them.
 */
module Format {
  import opened Results
  import opened Bytes
  import opened Signatures
  import opened Wire
  import opened RoundTrip

  // ----- the format -----

  /** The type code the specification gives each type. */
  function CodeOf(ty: Type): char {
    match ty
    case Byte => 'y'
    case Bool => 'b'
    case Int16 => 'n'
    case Uint16 => 'q'
    case Int32 => 'i'
    case Uint32 => 'u'
    case Int64 => 'x'
    case Uint64 => 't'
    case Double => 'd'
    case Str => 's'
    case ObjectPath => 'o'
    case Signature => 'g'
    case Fd => 'h'
    case Array(_) => 'a'
    case Struct(_) => '('
    case DictEntry(_, _) => '{'
    case Variant => 'v'
  }

  /** The boundary a value of a type code begins on. */
  function Boundary(code: char): (n: nat)
    ensures n > 0
  {
    if code == 'y' || code == 'g' || code == 'v' then 1
    else if code == 'n' || code == 'q' then 2
    else if code == 'x' || code == 't' || code == 'd' || code == '(' || code == '{' then 8
    else 4
  }

  /** The first offset from `at` on that lies on a boundary of `n`. */
  function First(at: nat, n: nat): (s: nat)
    requires n > 0
    ensures at <= s < at + n && s % n == 0
  {
    FirstIsMultiple(at, n);
    at + (n - at % n) % n
  }

  /** There is one such offset. */
  lemma FirstIs(at: nat, n: nat, s: nat)
    requires n > 0 && at <= s < at + n && s % n == 0
    ensures First(at, n) == s
  {
    hide First;
    SameMultiple(s, First(at, n), n);
  }

  lemma SameMultiple(s: int, t: int, n: int)
    requires n > 0 && s % n == 0 && t % n == 0 && -n < s - t < n
    ensures s == t
  {
    var d := s / n - t / n;
    assert s == n * (s / n) && t == n * (t / n);
    assert n * d == s - t;
    assert d > 0 ==> n * d >= n;
    assert d < 0 ==> n * d <= -n;
  }

  lemma FirstIsMultiple(at: nat, n: nat)
    requires n > 0
    ensures (at + (n - at % n) % n) % n == 0
  {
    var q, r := at / n, at % n;
    assert at == n * q + r;
    if r == 0 {
      assert (n - r) % n == 0 by { Quotient(n, n, 1, 0); }
    } else {
      assert (n - r) % n == n - r by { Quotient(n - r, n, 0, n - r); }
      assert at + (n - r) == n * q + n == n * (q + 1);
      Quotient(n * (q + 1), n, q + 1, 0);
    }
  }

  lemma Quotient(x: int, m: int, q: int, r: int)
    requires m > 0 && x == m * q + r && 0 <= r < m
    ensures x / m == q && x % m == r
  {
    var d := x / m - q;
    assert x == m * (x / m) + x % m;
    assert m * d == r - x % m by {
      assert m * d == m * (x / m) - m * q;
    }
    assert d >= 1 ==> m * d >= m;
    assert d <= -1 ==> m * d <= -m;
  }

  /** Nothing but NUL in between. */
  predicate NulBetween(b: seq<byte>, lo: nat, hi: nat) {
    hi <= |b| && forall i :: lo <= i < hi ==> b[i] == 0
  }

  /** The number `n` in `width` bytes, the least significant first. */
  predicate NumberAt(b: seq<byte>, at: nat, width: nat, n: nat) {
    && at + width <= |b| && n < Pow256(width)
    && forall i: nat :: i < width ==> b[at + i] == n / Pow256(i) % 256
  }

  /** Width and number of a value of fixed size: booleans are 0 and 1, negatives two's complement. */
  function Spelled(ty: Type, v: Value): Option<(nat, int)> {
    match ty
    case Byte => if v.Byte? then Some((1, v.octet)) else None
    case Bool => if v.Bool? then Some((4, if v.flag then 1 else 0)) else None
    case Int16 => if v.Int16? then Some((2, if v.int16 < 0 then 65536 + v.int16 else v.int16)) else None
    case Uint16 => if v.Uint16? then Some((2, v.uint16)) else None
    case Int32 => if v.Int32? then Some((4, if v.int32 < 0 then 4294967296 + v.int32 else v.int32)) else None
    case Uint32 => if v.Uint32? then Some((4, v.uint32)) else None
    case Int64 =>
      if v.Int64? then Some((8, if v.int64 < 0 then 18446744073709551616 + v.int64 else v.int64)) else None
    case Uint64 => if v.Uint64? then Some((8, v.uint64)) else None
    case Double => if v.Double? then Some((8, v.bits)) else None
    case Fd => if v.Fd? then Some((4, v.index)) else None
    case _ => None
  }

  /** A string: its length in four bytes, its own bytes, a NUL. */
  predicate StringAt(b: seq<byte>, at: nat, end: nat, text: seq<byte>) {
    && NumberAt(b, at, 4, |text|) && end == at + 4 + |text| + 1 <= |b|
    && b[at + 4..at + 4 + |text|] == text && b[end - 1] == 0 && 0 !in text
  }

  /** A signature: its length in one byte, its own bytes, a NUL. */
  predicate SignatureAt(b: seq<byte>, at: nat, end: nat, sig: seq<byte>) {
    && end == at + 1 + |sig| + 1 <= |b| && b[at] == |sig|
    && b[at + 1..at + 1 + |sig|] == sig && b[end - 1] == 0 && ParseSignature(sig).Some?
  }

  /**
   `b[at..end]` is the value `v` of type `ty`: NULs up to the boundary of its type, then its body;
   `depth` containers and variants are around it, and there may be 64.
   */
  ghost predicate ValueAt(b: seq<byte>, at: nat, end: nat, ty: Type, v: Value, depth: nat)
    decreases v, 2
  {
    var s := First(at, Boundary(CodeOf(ty)));
    depth <= 64 && NulBetween(b, at, s) && BodyAt(b, s, end, ty, v, depth)
  }

  ghost predicate BodyAt(b: seq<byte>, s: nat, end: nat, ty: Type, v: Value, depth: nat)
    decreases v, 1
  {
    match ty
    case Str => v.Str? && StringAt(b, s, end, v.text)
    case ObjectPath => v.ObjectPath? && ValidObjectPath(v.path) && StringAt(b, s, end, v.path)
    case Signature => v.Signature? && SignatureAt(b, s, end, v.sig)
    case Variant => v.Variant? && ContentsAt(b, s, end, v.inner, depth + 1)
    case Struct(fields) => v.Struct? && FieldsAt(b, s, end, fields, v.fields, depth + 1)
    case Array(element) => depth < 64 && ArrayAt(b, s, end, element, v, depth + 1)
    case DictEntry(_, _) => false
    case _ =>
      && Spelled(ty, v).Some? && end == s + Spelled(ty, v).value.0
      && Spelled(ty, v).value.1 >= 0 && NumberAt(b, s, Spelled(ty, v).value.0, Spelled(ty, v).value.1)
  }

  /** A variant: the signature of one type, and a value of it. */
  ghost predicate ContentsAt(b: seq<byte>, s: nat, end: nat, inner: Value, depth: nat)
    decreases inner, 3
  {
    exists sig: seq<byte>, ty: Type ::
      && ParseSignature(sig) == Some([ty]) && SignatureAt(b, s, s + |sig| + 2, sig)
      && ValueAt(b, s + |sig| + 2, end, ty, inner, depth)
  }

  /**
   An array: the number of bytes from the start of its first element to the end of its last, at
   most 2^26, then NULs up to the boundary of the element's type, then the elements.
   */
  ghost predicate ArrayAt(b: seq<byte>, s: nat, end: nat, element: Type, v: Value, depth: nat)
    decreases v, 0
  {
    var first := First(s + 4, Boundary(CodeOf(element)));
    && first <= end <= |b| && NumberAt(b, s, 4, end - first) && end - first <= 67108864
    && NulBetween(b, s + 4, first)
    && (if element.Byte? then v.ByteArray? && v.bytes == b[first..end]
        else if element.DictEntry? then
          element.key.Str? && v.Dict? && EntriesAt(b, first, end, element.value, v.entries, depth)
        else v.Array? && ItemsAt(b, first, end, element, v.items, depth))
  }

  ghost predicate ItemsAt(b: seq<byte>, at: nat, end: nat, ty: Type, items: seq<Value>, depth: nat)
    decreases items, 0
  {
    if items == [] then at == end
    else exists mid: nat :: ValueAt(b, at, mid, ty, items[0], depth) && ItemsAt(b, mid, end, ty, items[1..], depth)
  }

  /** Dict entries: each begins on a boundary of 8, a string and a value. */
  ghost predicate EntriesAt(b: seq<byte>, at: nat, end: nat, ty: Type, entries: seq<Entry>, depth: nat)
    decreases entries, 0
  {
    if entries == [] then at == end
    else
      exists mid: nat ::
        EntryAt(b, at, mid, ty, entries[0], depth) && EntriesAt(b, mid, end, ty, entries[1..], depth)
  }

  ghost predicate EntryAt(b: seq<byte>, at: nat, end: nat, ty: Type, e: Entry, depth: nat)
    decreases e, 3
  {
    var s := First(at, Boundary('{'));
    && NulBetween(b, at, s) && StringAt(b, s, s + |e.key| + 5, e.key)
    && ValueAt(b, s + |e.key| + 5, end, ty, e.value, depth)
  }

  ghost predicate FieldsAt(b: seq<byte>, at: nat, end: nat, types: seq<Type>, vs: seq<Value>, depth: nat)
    decreases vs, 0
  {
    if types == [] || vs == [] then types == [] && vs == [] && at == end
    else
      exists mid: nat ::
        ValueAt(b, at, mid, types[0], vs[0], depth) && FieldsAt(b, mid, end, types[1..], vs[1..], depth)
  }

  // ----- signatures, letter by letter -----

  /** A type as the specification writes it. */
  function Letters(ty: Type): string {
    match ty
    case Array(element) => "a" + Letters(element)
    case Struct(fields) => "(" + AllLetters(fields) + ")"
    case DictEntry(key, value) => "{" + Letters(key) + Letters(value) + "}"
    case _ => [CodeOf(ty)]
  }

  function AllLetters(types: seq<Type>): string {
    if types == [] then "" else Letters(types[0]) + AllLetters(types[1..])
  }

  /**
   "Valid Signatures": inside `arrays` arrays and `structs` structs or dict entries, at most 32 of
   each; no empty struct; a dict entry only as an array's element, with a basic key.
   */
  predicate Lawful(ty: Type, arrays: nat, structs: nat) {
    match ty
    case Array(element) =>
      && arrays < 32
      && (if element.DictEntry? then
            && structs < 32 && CodeOf(element.key) !in "a({v" && Lawful(element.value, arrays + 1, structs + 1)
          else Lawful(element, arrays + 1, structs))
    case Struct(fields) =>
      structs < 32 && |fields| > 0 && forall i :: 0 <= i < |fields| ==> Lawful(fields[i], arrays, structs + 1)
    case DictEntry(_, _) => false
    case _ => true
  }

  predicate SpelledOut(bytes: seq<byte>, text: string) {
    |bytes| == |text| && forall i :: 0 <= i < |bytes| ==> bytes[i] == text[i] as int
  }

  lemma SpelledConcat(a: seq<byte>, s: string, b: seq<byte>, t: string)
    requires SpelledOut(a, s) && SpelledOut(b, t)
    ensures SpelledOut(a + b, s + t)
  {
  }

  lemma {:induction false} RenderIsLetters(ty: Type)
    ensures SpelledOut(Render(ty), Letters(ty))
    decreases ty, 0
  {
    hide SpelledOut;
    Brackets();
    TablesAgree(ty);
    match ty {
      case Array(element) =>
        RenderIsLetters(element);
        SpelledConcat([ARRAY], "a", Render(element), Letters(element));
      case Struct(fields) =>
        RenderAllIsLetters(fields);
        SpelledConcat([STRUCT_OPEN], "(", RenderAll(fields), AllLetters(fields));
        SpelledConcat([STRUCT_OPEN] + RenderAll(fields), "(" + AllLetters(fields), [STRUCT_CLOSE], ")");
      case DictEntry(key, value) =>
        RenderIsLetters(key);
        RenderIsLetters(value);
        SpelledConcat([DICT_OPEN], "{", Render(key), Letters(key));
        SpelledConcat([DICT_OPEN] + Render(key), "{" + Letters(key), Render(value), Letters(value));
        var inner, text := [DICT_OPEN] + Render(key) + Render(value), "{" + Letters(key) + Letters(value);
        SpelledConcat(inner, text, [DICT_CLOSE], "}");
      case _ =>
        OneLetter(ty);
    }
  }

  lemma OneLetter(ty: Type)
    requires !ty.Array? && !ty.Struct? && !ty.DictEntry?
    ensures SpelledOut(Render(ty), Letters(ty))
  {
  }

  lemma Brackets()
    ensures SpelledOut([ARRAY], "a") && SpelledOut([STRUCT_OPEN], "(") && SpelledOut([STRUCT_CLOSE], ")")
    ensures SpelledOut([DICT_OPEN], "{") && SpelledOut([DICT_CLOSE], "}")
  {
  }

  lemma {:induction false} RenderAllIsLetters(types: seq<Type>)
    ensures SpelledOut(RenderAll(types), AllLetters(types))
    decreases types, 0
  {
    hide SpelledOut;
    if types == [] {
      NothingSpelled();
    } else {
      RenderIsLetters(types[0]);
      RenderAllIsLetters(types[1..]);
      SpelledConcat(Render(types[0]), Letters(types[0]), RenderAll(types[1..]), AllLetters(types[1..]));
    }
  }

  lemma NothingSpelled()
    ensures SpelledOut([], "")
  {
  }

  lemma BasicKey(key: Type)
    ensures key.IsBasic() <==> CodeOf(key) !in "a({v"
  {
    assert "a({v" == ['a', '(', '{', 'v'];
  }

  lemma {:induction false} LawfulIsLegal(ty: Type, arrays: nat, structs: nat)
    ensures Lawful(ty, arrays, structs) <==> Legal(ty, arrays, structs)
    decreases ty
  {
    match ty {
      case Array(element) =>
        if element.DictEntry? {
          BasicKey(element.key);
          LawfulIsLegal(element.value, arrays + 1, structs + 1);
        } else {
          LawfulIsLegal(element, arrays + 1, structs);
        }
      case Struct(fields) =>
        forall i | 0 <= i < |fields|
          ensures Lawful(fields[i], arrays, structs + 1) <==> Legal(fields[i], arrays, structs + 1)
        {
          LawfulIsLegal(fields[i], arrays, structs + 1);
        }
      case _ =>
    }
  }

  lemma SpelledOnce(a: seq<byte>, b: seq<byte>, text: string)
    requires SpelledOut(a, text)
    ensures SpelledOut(b, text) <==> a == b
  {
  }

  /** The signatures the parser accepts are those the specification allows, and it reads them so. */
  lemma SignatureIsSpelled(sig: seq<byte>, types: seq<Type>)
    ensures ParseSignature(sig) == Some(types) <==>
              && SpelledOut(sig, AllLetters(types)) && |sig| <= 255
              && forall i :: 0 <= i < |types| ==> Lawful(types[i], 0, 0)
  {
    hide ParseSignature, SpelledOut, Letters, Render, RenderAll, AllLetters, Lawful, Legal;
    SignatureIffRendered(sig, types);
    RenderAllIsLetters(types);
    SpelledOnce(RenderAll(types), sig, AllLetters(types));
    forall i | 0 <= i < |types|
      ensures Lawful(types[i], 0, 0) <==> Legal(types[i], 0, 0)
    {
      LawfulIsLegal(types[i], 0, 0);
    }
  }

  // ----- the leaves -----

  /** The model's own table of codes and boundaries is the specification's. */
  lemma TablesAgree(ty: Type)
    ensures ty.Code() as int == CodeOf(ty) as int
    ensures ty.Alignment() == Boundary(CodeOf(ty))
  {
  }

  lemma PaddingIsLeast(at: nat, n: nat)
    requires n > 0
    ensures First(at, n) == at + PadLen(at, n)
  {
    var r := at % n;
    if r == 0 {
      assert (n - r) % n == 0 by { Quotient(n, n, 1, 0); }
    } else {
      assert (n - r) % n == n - r by { Quotient(n - r, n, 0, n - r); }
    }
  }

  lemma {:induction false} LeDigits(n: nat, width: nat, i: nat)
    requires i < width
    ensures Le(n, width)[i] == n / Pow256(i) % 256
  {
    if i > 0 {
      LeDigits(n / 256, width - 1, i - 1);
      DivTwice(n, Pow256(i - 1));
    }
  }

  lemma DivTwice(n: nat, p: nat)
    requires p > 0
    ensures n / 256 / p == n / (256 * p)
  {
    var q, r := n / 256, n % 256;
    var d, m := q / p, q % p;
    assert q == p * d + m;
    assert n == 256 * (p * d + m) + r == (256 * p) * d + (256 * m + r);
    assert 256 * m + r < 256 * p;
    Quotient(n, 256 * p, d, 256 * m + r);
  }

  lemma NumberIsLe(b: seq<byte>, at: nat, width: nat, n: nat)
    requires n < Pow256(width)
    ensures NumberAt(b, at, width, n) <==> Holds(b, at, Le(n, width))
  {
    if at + width <= |b| {
      forall i: nat | i < width
        ensures Le(n, width)[i] == n / Pow256(i) % 256
      {
        LeDigits(n, width, i);
      }
      var part := b[at..at + width];
      assert forall i :: 0 <= i < width ==> part[i] == b[at + i];
      if NumberAt(b, at, width, n) {
        assert part == Le(n, width);
      }
    }
  }

  lemma NumberRead(b: seq<byte>, at: nat, width: nat)
    requires at + width <= |b|
    ensures UnLe(b[at..at + width]) < Pow256(width) && NumberAt(b, at, width, UnLe(b[at..at + width]))
  {
    LeOfUnLe(b[at..at + width]);
    NumberIsLe(b, at, width, UnLe(b[at..at + width]));
  }

  lemma NumberIs(b: seq<byte>, at: nat, width: nat, n: nat)
    requires NumberAt(b, at, width, n)
    ensures UnLe(b[at..at + width]) == n
  {
    NumberIsLe(b, at, width, n);
    UnLeOfLe(n, width);
  }

  lemma SpelledIsRaw(ty: Type, v: Value)
    requires Fixed(ty)
    ensures Raw(ty, v).Some? <==> Spelled(ty, v).Some?
    ensures Raw(ty, v).Some? ==> Spelled(ty, v).value == (ty.Alignment(), Raw(ty, v).value)
  {
    Powers();
  }

  lemma PaddingAt(b: seq<byte>, at: nat, n: nat)
    requires n > 0
    ensures Align(b, at, n).Ok? <==> NulBetween(b, at, First(at, n))
    ensures Align(b, at, n).Ok? ==> Align(b, at, n).value == First(at, n)
  {
    PaddingIsLeast(at, n);
    var s := First(at, n);
    if s <= |b| {
      var gap := b[at..s];
      assert forall i :: 0 <= i < |gap| ==> gap[i] == b[at + i];
      assert NulBetween(b, at, s) ==> AllZero(gap);
      if AllZero(gap) {
        forall i | at <= i < s
          ensures b[i] == 0
        {
          assert gap[i - at] == 0;
        }
      }
    }
  }

  // ----- object paths -----

  predicate IsElement(e: seq<byte>) {
    |e| > 0 && forall i :: 0 <= i < |e| ==>
      ('a' as int <= e[i] <= 'z' as int) || ('A' as int <= e[i] <= 'Z' as int)
      || ('0' as int <= e[i] <= '9' as int) || e[i] == '_' as int
  }

  predicate AreElements(es: seq<seq<byte>>) {
    forall i :: 0 <= i < |es| ==> IsElement(es[i])
  }

  /** Elements, a slash before each. */
  function Slashed(es: seq<seq<byte>>): seq<byte> {
    if es == [] then [] else ['/' as int] + es[0] + Slashed(es[1..])
  }

  /** "Valid Object Paths": a slash alone, or one or more elements. */
  ghost predicate IsObjectPath(path: seq<byte>) {
    path == ['/' as int] || exists es: seq<seq<byte>> :: es != [] && AreElements(es) && path == Slashed(es)
  }

  /** What every byte of a path from `from` on is, the first of them a slash. */
  predicate PathFrom(path: seq<byte>) {
    && |path| > 1 && path[0] == SLASH && path[|path| - 1] != SLASH
    && forall i {:trigger path[i]} :: 1 <= i < |path| ==>
        PathByte(path[i]) || (path[i] == SLASH && path[i - 1] != SLASH)
  }

  lemma {:induction false} SlashedIsPath(es: seq<seq<byte>>)
    requires es != [] && AreElements(es)
    ensures PathFrom(Slashed(es))
    decreases |es|
  {
    hide AreElements, IsElement, Slashed, PathFrom, PathByte;
    FirstElement(es);
    if es[1..] != [] {
      SlashedIsPath(es[1..]);
    }
    PathBehind(es[0], Slashed(es[1..]));
  }

  lemma FirstElement(es: seq<seq<byte>>)
    requires es != [] && AreElements(es)
    ensures IsElement(es[0]) && AreElements(es[1..])
    ensures Slashed(es) == ['/' as int] + es[0] + Slashed(es[1..]) && Slashed([]) == []
  {
  }

  lemma PathBehind(e: seq<byte>, rest: seq<byte>)
    requires IsElement(e) && (rest == [] || PathFrom(rest))
    ensures PathFrom(['/' as int] + e + rest)
  {
    var path := ['/' as int] + e + rest;
    forall i {:trigger path[i]} | 1 <= i < |path|
      ensures PathByte(path[i]) || (path[i] == SLASH && path[i - 1] != SLASH)
    {
      if i <= |e| {
        assert path[i] == e[i - 1];
      } else {
        assert path[i] == rest[i - 1 - |e|];
        assert i - 1 - |e| > 0 ==> path[i - 1] == rest[i - 2 - |e|];
      }
    }
    assert rest == [] ==> path[|path| - 1] == e[|e| - 1];
    assert rest != [] ==> path[|path| - 1] == rest[|rest| - 1];
  }

  /** Where the first element of a path ends: at the next slash, or with the path. */
  function ElementEnd(path: seq<byte>, i: nat): (e: nat)
    requires i <= |path|
    ensures i <= e <= |path| && (e < |path| ==> path[e] == SLASH)
    ensures forall k :: i <= k < e ==> path[k] != SLASH
    decreases |path| - i
  {
    if i == |path| || path[i] == SLASH then i else ElementEnd(path, i + 1)
  }

  lemma {:induction false} PathIsSlashed(path: seq<byte>) returns (es: seq<seq<byte>>)
    requires PathFrom(path)
    ensures es != [] && AreElements(es) && Slashed(es) == path
    decreases |path|
  {
    var end := ElementEnd(path, 1);
    var e, rest := path[1..end], path[end..];
    var second := path[1];
    assert second != SLASH;
    assert end > 1;
    forall i | 0 <= i < |e|
      ensures PathByte(e[i])
    {
      assert e[i] == path[i + 1];
    }
    if rest == [] {
      es := [e];
      assert es[1..] == [];
    } else {
      forall i {:trigger rest[i]} | 1 <= i < |rest|
        ensures PathByte(rest[i]) || (rest[i] == SLASH && rest[i - 1] != SLASH)
      {
        assert rest[i] == path[end + i] && rest[i - 1] == path[end + i - 1];
      }
      assert rest[|rest| - 1] == path[|path| - 1];
      var more := PathIsSlashed(rest);
      es := [e] + more;
      assert es[1..] == more;
    }
    assert path == ['/' as int] + e + rest;
  }

  /** The check of object paths is the specification's grammar. */
  lemma PathIsElements(path: seq<byte>)
    ensures ValidObjectPath(path) <==> IsObjectPath(path)
  {
    hide Slashed, AreElements;
    if PathFrom(path) {
      var es := PathIsSlashed(path);
    }
    if es: seq<seq<byte>> :| es != [] && AreElements(es) && path == Slashed(es) {
      SlashedIsPath(es);
    }
  }
}
