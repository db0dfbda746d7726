/**
 D-Bus type signatures: the recursive parser with its nesting limits
 (D-Bus Specification, "Valid Signatures") and the printer it inverts.
 */
module Signatures {
  import opened Results
  import opened Bytes
  import opened Utf8Text

  const MAX_SIGNATURE: nat := 255
  const MAX_CONTAINER_DEPTH: nat := 32

  /** One single complete type; a dict entry only ever stands inside an array. */
  datatype Type =
    | Byte | Bool | Int16 | Uint16 | Int32 | Uint32 | Int64 | Uint64
    | Double | Str | ObjectPath | Signature | Fd
    | Array(element: Type)
    | Struct(fields: seq<Type>)
    | DictEntry(key: Type, value: Type)
    | Variant
  {
    predicate IsBasic() {
      !Array? && !Struct? && !DictEntry? && !Variant?
    }

    /** The type code that opens this type. */
    function Code(): byte {
      match this
      case Byte => 121  // 'y'
      case Bool => 98  // 'b'
      case Int16 => 110  // 'n'
      case Uint16 => 113  // 'q'
      case Int32 => 105  // 'i'
      case Uint32 => 117  // 'u'
      case Int64 => 120  // 'x'
      case Uint64 => 116  // 't'
      case Double => 100  // 'd'
      case Str => 115  // 's'
      case ObjectPath => 111  // 'o'
      case Signature => 103  // 'g'
      case Fd => 104  // 'h'
      case Array(_) => ARRAY
      case Struct(_) => STRUCT_OPEN
      case DictEntry(_, _) => DICT_OPEN
      case Variant => 118  // 'v'
    }

    /** Alignment in bytes ("Summary of D-Bus marshalling"). */
    function Alignment(): (n: nat)
      ensures n == 1 || n == 2 || n == 4 || n == 8
    {
      match this
      case Byte | Signature | Variant => 1
      case Int16 | Uint16 => 2
      case Bool | Int32 | Uint32 | Fd | Str | ObjectPath | Array(_) => 4
      case Int64 | Uint64 | Double | Struct(_) | DictEntry(_, _) => 8
    }
  }

  const ARRAY: byte := 97  // 'a'
  const STRUCT_OPEN: byte := 40  // '('
  const STRUCT_CLOSE: byte := 41  // ')'
  const DICT_OPEN: byte := 123  // '{'
  const DICT_CLOSE: byte := 125  // '}'

  /** The type a one-byte signature names. */
  function Leaf(code: byte): Option<Type> {
    if code == 121 then Some(Type.Byte)  // 'y'
    else if code == 98 then Some(Type.Bool)  // 'b'
    else if code == 110 then Some(Type.Int16)  // 'n'
    else if code == 113 then Some(Type.Uint16)  // 'q'
    else if code == 105 then Some(Type.Int32)  // 'i'
    else if code == 117 then Some(Type.Uint32)  // 'u'
    else if code == 120 then Some(Type.Int64)  // 'x'
    else if code == 116 then Some(Type.Uint64)  // 't'
    else if code == 100 then Some(Type.Double)  // 'd'
    else if code == 115 then Some(Type.Str)  // 's'
    else if code == 111 then Some(Type.ObjectPath)  // 'o'
    else if code == 103 then Some(Type.Signature)  // 'g'
    else if code == 104 then Some(Type.Fd)  // 'h'
    else if code == 118 then Some(Type.Variant)  // 'v'
    else None
  }

  // ----- the parser as a function -----

  datatype Parsed<+T> = Parsed(value: T, at: nat)

  /** One single complete type at `at`, inside `arrays` arrays and `structs` structs. */
  function ParseType(b: seq<byte>, at: nat, arrays: nat, structs: nat): (r: Option<Parsed<Type>>)
    ensures r.Some? ==> at < r.value.at <= |b|
    decreases |b| - at, 0
  {
    if at >= |b| then None
    else if Leaf(b[at]).Some? then Some(Parsed(Leaf(b[at]).value, at + 1))
    else if b[at] == ARRAY then ParseArray(b, at + 1, arrays, structs)
    else if b[at] == STRUCT_OPEN then ParseStruct(b, at + 1, arrays, structs)
    else None
  }

  /** An array, past its `a`. A dict entry is only ever an array's element type. */
  function ParseArray(b: seq<byte>, at: nat, arrays: nat, structs: nat): (r: Option<Parsed<Type>>)
    ensures r.Some? ==> at < r.value.at <= |b| && r.value.value.Array?
    decreases |b| - at, 3
  {
    if arrays >= MAX_CONTAINER_DEPTH then None
    else
      var element :- if at < |b| && b[at] == DICT_OPEN
                     then ParseEntry(b, at + 1, arrays + 1, structs)
                     else ParseType(b, at, arrays + 1, structs);
      Some(Parsed(Type.Array(element.value), element.at))
  }

  /** A dict entry, past its `{`. */
  function ParseEntry(b: seq<byte>, at: nat, arrays: nat, structs: nat): (r: Option<Parsed<Type>>)
    ensures r.Some? ==> at < r.value.at <= |b| && r.value.value.DictEntry?
    decreases |b| - at, 2
  {
    if structs >= MAX_CONTAINER_DEPTH then None
    else
      var key :- ParseType(b, at, arrays, structs + 1);
      if !key.value.IsBasic() then None
      else
        var value :- ParseType(b, key.at, arrays, structs + 1);
        if value.at < |b| && b[value.at] == DICT_CLOSE
        then Some(Parsed(DictEntry(key.value, value.value), value.at + 1))
        else None
  }

  /** A struct, past its opening parenthesis. */
  function ParseStruct(b: seq<byte>, at: nat, arrays: nat, structs: nat): (r: Option<Parsed<Type>>)
    ensures r.Some? ==> at < r.value.at <= |b| && r.value.value.Struct?
    decreases |b| - at, 2
  {
    if structs >= MAX_CONTAINER_DEPTH then None
    else
      var fields :- ParseFields(b, at, arrays, structs + 1);
      if fields.value == [] then None
      else Some(Parsed(Type.Struct(fields.value), fields.at))
  }

  /** The fields of a struct up to and including its closing parenthesis. */
  function ParseFields(b: seq<byte>, at: nat, arrays: nat, structs: nat): (r: Option<Parsed<seq<Type>>>)
    ensures r.Some? ==> at < r.value.at <= |b|
    decreases |b| - at, 1
  {
    if at >= |b| then None
    else if b[at] == STRUCT_CLOSE then Some(Parsed([], at + 1))
    else
      var first :- ParseType(b, at, arrays, structs);
      var rest :- ParseFields(b, first.at, arrays, structs);
      Some(Parsed([first.value] + rest.value, rest.at))
  }

  /** Single complete types from `at` to the end of the text. */
  function ParseTypes(b: seq<byte>, at: nat): (r: Option<seq<Type>>)
    requires at <= |b|
    decreases |b| - at
  {
    if at == |b| then Some([])
    else
      var first :- ParseType(b, at, 0, 0);
      var rest :- ParseTypes(b, first.at);
      Some([first.value] + rest)
  }

  /** The single complete types a signature lists. */
  function ParseSignature(sig: seq<byte>): (r: Option<seq<Type>>) {
    if |sig| > MAX_SIGNATURE then None else ParseTypes(sig, 0)
  }

  // ----- the parser as the program runs it -----

  /** `parse_type`, which moves its cursor and collects struct fields in a loop. */
  method ReadType(b: seq<byte>, from: nat, arrays: nat, structs: nat)
    returns (r: Option<Type>, at: nat)
    ensures r.Some? <==> ParseType(b, from, arrays, structs).Some?
    ensures r.Some? ==> ParseType(b, from, arrays, structs) == Some(Parsed(r.value, at))
    decreases |b| - from
  {
    at := from;
    if at >= |b| {
      return None, at;
    }
    var code := b[at];
    at := at + 1;
    if Leaf(code).Some? {
      return Leaf(code), at;
    }
    if code == ARRAY {
      assert ParseType(b, from, arrays, structs) == ParseArray(b, at, arrays, structs);
      if arrays >= MAX_CONTAINER_DEPTH {
        return None, at;
      }
      if at < |b| && b[at] == DICT_OPEN {
        if structs >= MAX_CONTAINER_DEPTH {
          assert ParseEntry(b, at + 1, arrays + 1, structs).None?;
          return None, at;
        }
        at := at + 1;
        ghost var entry := ParseEntry(b, at, arrays + 1, structs);
        assert ParseArray(b, at - 1, arrays, structs).Some? <==> entry.Some?;
        var key, value;
        key, at := ReadType(b, at, arrays + 1, structs + 1);
        if key.None? || !key.value.IsBasic() {
          return None, at;
        }
        value, at := ReadType(b, at, arrays + 1, structs + 1);
        if value.None? || at >= |b| || b[at] != DICT_CLOSE {
          return None, at;
        }
        at := at + 1;
        assert entry == Some(Parsed(DictEntry(key.value, value.value), at));
        return Some(Type.Array(DictEntry(key.value, value.value))), at;
      }
      var element;
      element, at := ReadType(b, at, arrays + 1, structs);
      if element.None? {
        return None, at;
      }
      return Some(Type.Array(element.value)), at;
    }
    if code == STRUCT_OPEN {
      if structs >= MAX_CONTAINER_DEPTH {
        return None, at;
      }
      ghost var whole := ParseFields(b, at, arrays, structs + 1);
      var fields: seq<Type> := [];
      while at < |b| && b[at] != STRUCT_CLOSE
        invariant from < at <= |b|
        invariant whole.Some? <==> ParseFields(b, at, arrays, structs + 1).Some?
        invariant whole.Some? ==>
          && whole.value.at == ParseFields(b, at, arrays, structs + 1).value.at
          && whole.value.value == fields + ParseFields(b, at, arrays, structs + 1).value.value
        decreases |b| - at
      {
        var field;
        field, at := ReadType(b, at, arrays, structs + 1);
        if field.None? {
          return None, at;
        }
        fields := fields + [field.value];
      }
      if at >= |b| || fields == [] {
        return None, at;
      }
      assert fields + [] == fields;
      at := at + 1;
      return Some(Type.Struct(fields)), at;
    }
    return None, at;
  }

  /** `parse_signature`: types are read until the text is used up. */
  method ReadSignature(sig: seq<byte>) returns (r: Option<seq<Type>>)
    ensures r == ParseSignature(sig)
  {
    if |sig| > MAX_SIGNATURE {
      return None;
    }
    var at := 0;
    var out: seq<Type> := [];
    while at < |sig|
      invariant at <= |sig|
      invariant ParseTypes(sig, 0).Some? <==> ParseTypes(sig, at).Some?
      invariant ParseTypes(sig, 0).Some? ==> ParseTypes(sig, 0).value == out + ParseTypes(sig, at).value
      decreases |sig| - at
    {
      var ty;
      ty, at := ReadType(sig, at, 0, 0);
      if ty.None? {
        return None;
      }
      out := out + [ty.value];
    }
    assert out + [] == out;
    return Some(out);
  }

  // ----- the printer and the limits, independent of the parser -----

  function Render(ty: Type): (bs: seq<byte>)
    ensures |bs| >= 1 && bs[0] == ty.Code()
  {
    match ty
    case Array(element) => [ARRAY] + Render(element)
    case Struct(fields) => [STRUCT_OPEN] + RenderAll(fields) + [STRUCT_CLOSE]
    case DictEntry(key, value) => [DICT_OPEN] + Render(key) + Render(value) + [DICT_CLOSE]
    case _ => [ty.Code()]
  }

  function RenderAll(types: seq<Type>): seq<byte> {
    if types == [] then [] else Render(types[0]) + RenderAll(types[1..])
  }

  /**
   What "Valid Signatures" allows inside `arrays` arrays and `structs` structs: nesting
   of each kind up to 32, no empty struct, a dict entry only as an array's element and
   with a basic key.
   */
  predicate Legal(ty: Type, arrays: nat, structs: nat) {
    match ty
    case Array(DictEntry(key, value)) =>
      && arrays < MAX_CONTAINER_DEPTH && structs < MAX_CONTAINER_DEPTH
      && key.IsBasic() && Legal(value, arrays + 1, structs + 1)
    case Array(element) =>
      arrays < MAX_CONTAINER_DEPTH && Legal(element, arrays + 1, structs)
    case Struct(fields) =>
      && structs < MAX_CONTAINER_DEPTH && fields != []
      && forall i :: 0 <= i < |fields| ==> Legal(fields[i], arrays, structs + 1)
    case DictEntry(_, _) => false
    case _ => true
  }

  lemma LeafInverts(code: byte)
    ensures Leaf(code).Some? ==>
      var ty := Leaf(code).value;
      ty.Code() == code && !ty.Array? && !ty.Struct? && !ty.DictEntry?
  {
  }

  lemma RenderCons(types: seq<Type>)
    requires types != []
    ensures RenderAll(types) == Render(types[0]) + RenderAll(types[1..])
  {
    hide Render;
  }

  lemma RenderStruct(fields: seq<Type>)
    ensures Render(Type.Struct(fields)) == [STRUCT_OPEN] + (RenderAll(fields) + [STRUCT_CLOSE])
  {
    hide RenderAll;
  }

  lemma RenderEntry(key: Type, value: Type)
    ensures Render(DictEntry(key, value)) == [DICT_OPEN] + (Render(key) + (Render(value) + [DICT_CLOSE]))
  {
    hide RenderAll;
    var k, v := Render(key), Render(value);
    assert [DICT_OPEN] + k + v + [DICT_CLOSE] == [DICT_OPEN] + (k + (v + [DICT_CLOSE]));
  }

  lemma LegalStruct(fields: seq<Type>, arrays: nat, structs: nat)
    ensures Legal(Type.Struct(fields), arrays, structs) <==>
      && structs < MAX_CONTAINER_DEPTH && fields != []
      && forall i :: 0 <= i < |fields| ==> Legal(fields[i], arrays, structs + 1)
  {
  }

  lemma TypesFrom(b: seq<byte>, at: nat)
    requires at < |b| && ParseType(b, at, 0, 0).Some?
    ensures var first := ParseType(b, at, 0, 0).value;
            ParseTypes(b, at) == match ParseTypes(b, first.at)
                                 case Some(rest) => Some([first.value] + rest)
                                 case None => None
  {
    hide ParseType;
  }

  lemma FieldsFrom(b: seq<byte>, at: nat, arrays: nat, structs: nat)
    requires at < |b| && b[at] != STRUCT_CLOSE
    ensures var first := ParseType(b, at, arrays, structs);
            && (first.None? ==> ParseFields(b, at, arrays, structs).None?)
            && (first.Some? ==>
                  ParseFields(b, at, arrays, structs)
                  == match ParseFields(b, first.value.at, arrays, structs)
                     case Some(rest) => Some(Parsed([first.value.value] + rest.value, rest.at))
                     case None => None)
  {
    hide ParseType;
  }

  // ----- what the parser accepts is what the printer prints -----

  lemma {:induction false} TypeSound(b: seq<byte>, at: nat, arrays: nat, structs: nat)
    ensures ParseType(b, at, arrays, structs).Some? ==>
      var p := ParseType(b, at, arrays, structs).value;
      Render(p.value) == b[at..p.at] && Legal(p.value, arrays, structs) && !p.value.DictEntry?
    decreases |b| - at, 0
  {
    if at < |b| && ParseType(b, at, arrays, structs).Some? {
      var p := ParseType(b, at, arrays, structs).value;
      LeafInverts(b[at]);
      if Leaf(b[at]).None? {
        assert b[at..p.at] == [b[at]] + b[at + 1..p.at];
        if b[at] == ARRAY {
          ArraySound(b, at + 1, arrays, structs);
        } else {
          StructSound(b, at + 1, arrays, structs);
        }
      }
    }
  }

  lemma {:induction false} ArraySound(b: seq<byte>, at: nat, arrays: nat, structs: nat)
    ensures ParseArray(b, at, arrays, structs).Some? ==>
      var p := ParseArray(b, at, arrays, structs).value;
      Render(p.value.element) == b[at..p.at] && Legal(p.value, arrays, structs)
    decreases |b| - at, 3
  {
    if ParseArray(b, at, arrays, structs).Some? {
      if b[at] == DICT_OPEN {
        EntrySound(b, at + 1, arrays + 1, structs);
        var entry := ParseEntry(b, at + 1, arrays + 1, structs).value;
        assert b[at..entry.at] == [DICT_OPEN] + b[at + 1..entry.at];
        LegalDict(entry.value.key, entry.value.value, arrays, structs);
      } else {
        TypeSound(b, at, arrays + 1, structs);
        LegalArray(ParseType(b, at, arrays + 1, structs).value.value, arrays, structs);
      }
    }
  }

  lemma {:induction false} EntrySound(b: seq<byte>, at: nat, arrays: nat, structs: nat)
    ensures ParseEntry(b, at, arrays, structs).Some? ==>
      var p := ParseEntry(b, at, arrays, structs).value;
      && [DICT_OPEN] + b[at..p.at] == Render(p.value)
      && structs < MAX_CONTAINER_DEPTH
      && p.value.key.IsBasic() && Legal(p.value.value, arrays, structs + 1)
    decreases |b| - at, 2
  {
    hide ParseType, Render, Legal;
    if ParseEntry(b, at, arrays, structs).Some? {
      var key := ParseType(b, at, arrays, structs + 1).value;
      var value := ParseType(b, key.at, arrays, structs + 1).value;
      TypeSound(b, at, arrays, structs + 1);
      TypeSound(b, key.at, arrays, structs + 1);
      RenderEntry(key.value, value.value);
      assert b[at..value.at + 1] == b[at..key.at] + (b[key.at..value.at] + [DICT_CLOSE]);
    }
  }

  lemma {:induction false} StructSound(b: seq<byte>, at: nat, arrays: nat, structs: nat)
    ensures ParseStruct(b, at, arrays, structs).Some? ==>
      var p := ParseStruct(b, at, arrays, structs).value;
      Render(p.value) == [STRUCT_OPEN] + b[at..p.at] && Legal(p.value, arrays, structs)
    decreases |b| - at, 2
  {
    if ParseStruct(b, at, arrays, structs).Some? {
      FieldsSound(b, at, arrays, structs + 1);
    }
  }

  lemma LegalDict(key: Type, value: Type, arrays: nat, structs: nat)
    ensures Legal(Type.Array(DictEntry(key, value)), arrays, structs) <==>
      && arrays < MAX_CONTAINER_DEPTH && structs < MAX_CONTAINER_DEPTH
      && key.IsBasic() && Legal(value, arrays + 1, structs + 1)
  {
  }

  lemma LegalArray(element: Type, arrays: nat, structs: nat)
    requires !element.DictEntry?
    ensures Legal(Type.Array(element), arrays, structs) <==>
      arrays < MAX_CONTAINER_DEPTH && Legal(element, arrays + 1, structs)
  {
  }

  lemma {:induction false} FieldsSound(b: seq<byte>, at: nat, arrays: nat, structs: nat)
    ensures ParseFields(b, at, arrays, structs).Some? ==>
      var p := ParseFields(b, at, arrays, structs).value;
      && RenderAll(p.value) + [STRUCT_CLOSE] == b[at..p.at]
      && forall i :: 0 <= i < |p.value| ==> Legal(p.value[i], arrays, structs)
    decreases |b| - at, 1
  {
    hide ParseType, Render, Legal;
    if at < |b| && b[at] != STRUCT_CLOSE && ParseFields(b, at, arrays, structs).Some? {
      FieldsFrom(b, at, arrays, structs);
      var p := ParseFields(b, at, arrays, structs).value;
      var first := ParseType(b, at, arrays, structs).value;
      TypeSound(b, at, arrays, structs);
      FieldsSound(b, first.at, arrays, structs);
      assert p.value[1..] == ParseFields(b, first.at, arrays, structs).value.value;
      assert b[at..p.at] == b[at..first.at] + b[first.at..p.at];
    }
  }

  lemma {:induction false} TypesSound(b: seq<byte>, at: nat)
    requires at <= |b|
    ensures ParseTypes(b, at).Some? ==>
      && RenderAll(ParseTypes(b, at).value) == b[at..]
      && forall i :: 0 <= i < |ParseTypes(b, at).value| ==> Legal(ParseTypes(b, at).value[i], 0, 0)
    decreases |b| - at
  {
    if at < |b| && ParseTypes(b, at).Some? {
      var first := ParseType(b, at, 0, 0).value;
      TypeSound(b, at, 0, 0);
      TypesSound(b, first.at);
      assert ParseTypes(b, at).value[1..] == ParseTypes(b, first.at).value;
      assert b[at..] == b[at..first.at] + b[first.at..];
    }
  }

  // ----- what the printer prints, the parser reads back -----

  lemma {:induction false} TypeComplete(b: seq<byte>, at: nat, ty: Type, arrays: nat, structs: nat)
    requires Legal(ty, arrays, structs) && Holds(b, at, Render(ty))
    ensures ParseType(b, at, arrays, structs) == Some(Parsed(ty, at + |Render(ty)|))
    decreases ty, 1
  {
    OpensWith(b, at, ty);
    if ty.Array? {
      HoldsConcat(b, at, [ARRAY], Render(ty.element));
      ArrayComplete(b, at + 1, ty.element, arrays, structs);
    } else if ty.Struct? {
      StructComplete(b, at, ty.fields, arrays, structs);
    } else {
      BasicComplete(b, at, ty, arrays, structs);
    }
  }

  lemma {:induction false} StructComplete(b: seq<byte>, at: nat, fields: seq<Type>, arrays: nat, structs: nat)
    requires Legal(Type.Struct(fields), arrays, structs) && Holds(b, at, Render(Type.Struct(fields)))
    ensures ParseStruct(b, at + 1, arrays, structs)
         == Some(Parsed(Type.Struct(fields), at + |Render(Type.Struct(fields))|))
    decreases fields, 1
  {
    hide ParseFields, Render, RenderAll, Legal;
    RenderStruct(fields);
    LegalStruct(fields, arrays, structs);
    HoldsConcat(b, at, [STRUCT_OPEN], RenderAll(fields) + [STRUCT_CLOSE]);
    FieldsComplete(b, at + 1, fields, arrays, structs + 1);
  }

  lemma OpensWith(b: seq<byte>, at: nat, ty: Type)
    requires Holds(b, at, Render(ty))
    ensures b[at] == ty.Code()
  {
    assert b[at] == b[at..at + |Render(ty)|][0];
  }

  lemma {:induction false} ArrayComplete(b: seq<byte>, at: nat, element: Type, arrays: nat, structs: nat)
    requires Legal(Type.Array(element), arrays, structs) && Holds(b, at, Render(element))
    ensures ParseArray(b, at, arrays, structs) == Some(Parsed(Type.Array(element), at + |Render(element)|))
    decreases element, 2
  {
    hide ParseType, ParseEntry, Render, Legal;
    assert b[at] == b[at..at + |Render(element)|][0] == element.Code();
    if element.DictEntry? {
      var key, value := element.key, element.value;
      LegalDict(key, value, arrays, structs);
      RenderEntry(key, value);
      HoldsConcat(b, at, [DICT_OPEN], Render(key) + (Render(value) + [DICT_CLOSE]));
      EntryComplete(b, at + 1, key, value, arrays + 1, structs);
    } else {
      LegalArray(element, arrays, structs);
      TypeComplete(b, at, element, arrays + 1, structs);
    }
  }

  lemma {:induction false} EntryComplete(b: seq<byte>, at: nat, key: Type, value: Type, arrays: nat, structs: nat)
    requires structs < MAX_CONTAINER_DEPTH && key.IsBasic() && Legal(value, arrays, structs + 1)
    requires Holds(b, at, Render(key) + (Render(value) + [DICT_CLOSE]))
    ensures ParseEntry(b, at, arrays, structs)
         == Some(Parsed(DictEntry(key, value), at + |Render(key)| + |Render(value)| + 1))
    decreases value, 3
  {
    hide ParseType, Render, Legal;
    HoldsConcat(b, at, Render(key), Render(value) + [DICT_CLOSE]);
    HoldsConcat(b, at + |Render(key)|, Render(value), [DICT_CLOSE]);
    BasicComplete(b, at, key, arrays, structs + 1);
    TypeComplete(b, at + |Render(key)|, value, arrays, structs + 1);
    var end := at + |Render(key)| + |Render(value)|;
    assert b[end] == b[end..end + 1][0];
  }

  lemma BasicComplete(b: seq<byte>, at: nat, ty: Type, arrays: nat, structs: nat)
    requires (ty.IsBasic() || ty.Variant?) && Holds(b, at, Render(ty))
    ensures ParseType(b, at, arrays, structs) == Some(Parsed(ty, at + |Render(ty)|))
  {
    assert b[at] == b[at..at + |Render(ty)|][0] == ty.Code();
  }

  lemma {:induction false} FieldsComplete(b: seq<byte>, at: nat, types: seq<Type>, arrays: nat, structs: nat)
    requires forall i :: 0 <= i < |types| ==> Legal(types[i], arrays, structs)
    requires Holds(b, at, RenderAll(types) + [STRUCT_CLOSE])
    ensures ParseFields(b, at, arrays, structs) == Some(Parsed(types, at + |RenderAll(types)| + 1))
    decreases types, 0
  {
    hide ParseType, ParseFields, Render, RenderAll, Legal;
    if types == [] {
      NoFields(b, at, arrays, structs);
    } else {
      var next := at + |Render(types[0])|;
      RenderCons(types);
      assert Holds(b, at, Render(types[0])) && Holds(b, next, RenderAll(types[1..]) + [STRUCT_CLOSE]) by {
        assert RenderAll(types) + [STRUCT_CLOSE] == Render(types[0]) + (RenderAll(types[1..]) + [STRUCT_CLOSE]);
        HoldsConcat(b, at, Render(types[0]), RenderAll(types[1..]) + [STRUCT_CLOSE]);
      }
      TypeComplete(b, at, types[0], arrays, structs);
      FieldsComplete(b, next, types[1..], arrays, structs);
      assert b[at] != STRUCT_CLOSE by {
        assert b[at] == b[at..next][0] == types[0].Code();
      }
      FieldsFrom(b, at, arrays, structs);
      assert types == [types[0]] + types[1..];
    }
  }

  lemma NoFields(b: seq<byte>, at: nat, arrays: nat, structs: nat)
    requires Holds(b, at, RenderAll([]) + [STRUCT_CLOSE])
    ensures RenderAll([]) == [] && ParseFields(b, at, arrays, structs) == Some(Parsed([], at + 1))
  {
    assert RenderAll([]) + [STRUCT_CLOSE] == [STRUCT_CLOSE];
    assert b[at] == b[at..at + 1][0];
  }

  lemma {:induction false} TypesComplete(b: seq<byte>, at: nat, types: seq<Type>)
    requires forall i :: 0 <= i < |types| ==> Legal(types[i], 0, 0)
    requires at <= |b| && b[at..] == RenderAll(types)
    ensures ParseTypes(b, at) == Some(types)
    decreases types
  {
    hide ParseType, ParseTypes, Render, RenderAll, Legal;
    if types == [] {
      NoTypes(b);
    } else {
      RenderCons(types);
      HoldsConcat(b, at, Render(types[0]), RenderAll(types[1..]));
      TypeComplete(b, at, types[0], 0, 0);
      TypesFrom(b, at);
      assert b[at + |Render(types[0])|..] == b[at..][|Render(types[0])|..] == RenderAll(types[1..]);
      TypesComplete(b, at + |Render(types[0])|, types[1..]);
      assert types == [types[0]] + types[1..];
    }
  }

  lemma NoTypes(b: seq<byte>)
    ensures RenderAll([]) == [] && ParseTypes(b, |b|) == Some([])
  {
  }

  /**
   The parser and the printer undo each other: a signature parses to `types` exactly when
   it is the text of `types`, is at most 255 bytes, and every type keeps the limits.
   */
  lemma {:induction false} SignatureIffRendered(sig: seq<byte>, types: seq<Type>)
    ensures ParseSignature(sig) == Some(types) <==>
      && sig == RenderAll(types) && |sig| <= MAX_SIGNATURE
      && forall i :: 0 <= i < |types| ==> Legal(types[i], 0, 0)
  {
    if ParseSignature(sig) == Some(types) {
      TypesSound(sig, 0);
      assert sig[0..] == sig;
    }
    if sig == RenderAll(types) && |sig| <= MAX_SIGNATURE
       && forall i :: 0 <= i < |types| ==> Legal(types[i], 0, 0)
    {
      assert sig[0..] == sig;
      TypesComplete(sig, 0, types);
    }
  }

  // ----- what the wire format needs of a signature -----

  predicate Printable(bs: seq<byte>) {
    forall i :: 0 <= i < |bs| ==> 0 < bs[i] < 128
  }

  lemma {:induction false} RenderPrintable(ty: Type)
    ensures Printable(Render(ty))
    decreases ty
  {
    match ty
    case Array(element) => RenderPrintable(element);
    case Struct(fields) => RenderAllPrintable(fields);
    case DictEntry(key, value) => RenderPrintable(key); RenderPrintable(value);
    case _ =>
  }

  lemma {:induction false} RenderAllPrintable(types: seq<Type>)
    ensures Printable(RenderAll(types))
    decreases types
  {
    if types != [] {
      RenderPrintable(types[0]);
      RenderAllPrintable(types[1..]);
    }
  }

  /** A signature the parser accepts holds no nul and is ASCII, so it is text. */
  lemma {:induction false} SignatureIsText(sig: seq<byte>)
    requires ParseSignature(sig).Some?
    ensures 0 !in sig && Utf8(sig) && |sig| <= MAX_SIGNATURE
  {
    SignatureIffRendered(sig, ParseSignature(sig).value);
    RenderAllPrintable(ParseSignature(sig).value);
    AsciiIsUtf8(sig);
  }
}
