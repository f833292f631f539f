/** JSONValue: the closed six-way variant of the document model, its
    is_* tests, the as_* accessors that raise JSONError on the wrong
    variant, and to_string. */
module Json {
  import opened Errors
  import opened Text
  import OrderedMap

  /** A number is kept as a mathematical real: the double a C++ program
      holds is not modelled. An object is a std::map from string keys,
      modelled by OrderedMap. */
  datatype Value =
    | Null
    | Bool(b: bool)
    | Number(n: real)
    | String(s: string)
    | Object(entries: seq<OrderedMap.Entry<Value>>)
    | Array(elements: seq<Value>)
  {
    predicate IsNull() { Null? }
    predicate IsBool() { Bool? }
    predicate IsNumber() { Number? }
    predicate IsString() { String? }
    predicate IsObject() { Object? }
    predicate IsArray() { Array? }

    /** How many of the six is_* tests hold. */
    function KindCount(): nat {
      (if IsNull() then 1 else 0) + (if IsBool() then 1 else 0) +
      (if IsNumber() then 1 else 0) + (if IsString() then 1 else 0) +
      (if IsObject() then 1 else 0) + (if IsArray() then 1 else 0)
    }

    function AsBool(): (r: Result<bool>)
      ensures r.Ok? <==> IsBool()
      ensures r.Ok? ==> this == Bool(r.value)
      ensures r.Err? ==> r.error == JSONError("Value is not a boolean")
    {
      if IsBool() then Ok(b) else Err(JSONError("Value is not a boolean"))
    }

    function AsNumber(): (r: Result<real>)
      ensures r.Ok? <==> IsNumber()
      ensures r.Ok? ==> this == Number(r.value)
      ensures r.Err? ==> r.error == JSONError("Value is not a number")
    {
      if IsNumber() then Ok(n) else Err(JSONError("Value is not a number"))
    }

    function AsString(): (r: Result<string>)
      ensures r.Ok? <==> IsString()
      ensures r.Ok? ==> this == String(r.value)
      ensures r.Err? ==> r.error == JSONError("Value is not a string")
    {
      if IsString() then Ok(s) else Err(JSONError("Value is not a string"))
    }

    function AsObject(): (r: Result<seq<OrderedMap.Entry<Value>>>)
      ensures r.Ok? <==> IsObject()
      ensures r.Ok? ==> this == Object(r.value)
      ensures r.Err? ==> r.error == JSONError("Value is not an object")
    {
      if IsObject() then Ok(entries) else Err(JSONError("Value is not an object"))
    }

    function AsArray(): (r: Result<seq<Value>>)
      ensures r.Ok? <==> IsArray()
      ensures r.Ok? ==> this == Array(r.value)
      ensures r.Err? ==> r.error == JSONError("Value is not an array")
    {
      if IsArray() then Ok(elements) else Err(JSONError("Value is not an array"))
    }
  }

  /** Every value is in exactly one variant. */
  lemma ExactlyOneKind(v: Value)
    ensures v.KindCount() == 1
  {
  }

  /** JSONValue(): the default value. */
  function Default(): (v: Value)
    ensures v.IsNull()
  {
    Null
  }

  /** Each converting constructor lands in the variant of its argument
      (a `const char*` converts to std::string first). */
  lemma ConstructorsMatchPredicates(b: bool, d: real, s: string,
                                    o: seq<OrderedMap.Entry<Value>>, a: seq<Value>)
    ensures Bool(b).IsBool() && Bool(b).AsBool() == Ok(b)
    ensures Number(d).IsNumber() && Number(d).AsNumber() == Ok(d)
    ensures String(s).IsString() && String(s).AsString() == Ok(s)
    ensures Object(o).IsObject() && Object(o).AsObject() == Ok(o)
    ensures Array(a).IsArray() && Array(a).AsArray() == Ok(a)
  {
  }

  /** Every object in the tree keeps its keys unique and ascending, as a
      std::map does. */
  ghost predicate WellFormed(v: Value)
    decreases v
  {
    match v
    case Object(es) =>
      && OrderedMap.Sorted(es)
      && forall i :: 0 <= i < |es| ==> WellFormed(es[i].value)
    case Array(xs) => forall i :: 0 <= i < |xs| ==> WellFormed(xs[i])
    case _ => true
  }

  // ------------------------------------------------------------- to_string

  /** `"key": rendered` as to_string writes one object member. */
  function MemberText(key: string, rendered: string): string {
    "\"" + key + "\": " + rendered
  }

  /** The canonical text of a value. Numbers go through fmt, which stands
      for `ostringstream << double`; strings are written verbatim, without
      quotes or escapes; containers list their parts, separated by ", ",
      objects in key order. */
  function Render(v: Value, fmt: real -> string): string
    decreases v, 1
  {
    match v
    case Null => "null"
    case Bool(b) => if b then "true" else "false"
    case Number(n) => fmt(n)
    case String(s) => s
    case Array(_) => "[" + Join(PartTexts(v, fmt), ", ") + "]"
    case Object(_) => "{" + Join(PartTexts(v, fmt), ", ") + "}"
  }

  /** The texts of a container's parts, in order: each element's text, or
      each member's `"key": text` in key order. */
  function PartTexts(v: Value, fmt: real -> string): (parts: seq<string>)
    requires v.Array? || v.Object?
    ensures v.Array? ==> |parts| == |v.elements|
    ensures v.Object? ==> |parts| == |v.entries|
    decreases v, 0
  {
    if v.Array? then
      seq(|v.elements|, i requires 0 <= i < |v.elements| => Render(v.elements[i], fmt))
    else
      seq(|v.entries|, i requires 0 <= i < |v.entries| => MemberText(v.entries[i].key, Render(v.entries[i].value, fmt)))
  }

  /** Appending the part after i parts joined with a pending separator. */
  lemma JoinStep(parts: seq<string>, i: nat, sep: string)
    requires i < |parts|
    ensures Join(parts[..i], sep) + (if 0 < i then sep else "") + parts[i] == Join(parts[..i + 1], sep)
  {
    assert parts[..i + 1][..i] == parts[..i];
  }

  /** JSONValue::to_string: scalars directly, containers by appending one
      element or member at a time. */
  method ToString(v: Value, fmt: real -> string) returns (s: string)
    ensures s == Render(v, fmt)
    decreases v, 1
  {
    match v {
      case Null =>
        s := "null";
      case Bool(b) =>
        s := if b then "true" else "false";
      case Number(n) =>
        s := fmt(n);
      case String(str) =>
        s := str;
      case Array(xs) =>
        s := ArrayToString(v, fmt);
      case Object(es) =>
        s := ObjectToString(v, fmt);
    }
  }

  /** The array branch of to_string: "[", each element's text with ", "
      after all but the last, "]". */
  method ArrayToString(v: Value, fmt: real -> string) returns (s: string)
    requires v.Array?
    ensures s == Render(v, fmt)
    decreases v, 0
  {
    var xs := v.elements;
    ghost var parts := PartTexts(v, fmt);
    s := "[";
    for i := 0 to |xs|
      invariant s == "[" + Join(parts[..i], ", ") + (if 0 < i < |xs| then ", " else "")
    {
      var item := ToString(xs[i], fmt);
      assert item == parts[i];
      JoinStep(parts, i, ", ");
      s := s + item;
      if i != |xs| - 1 {
        s := s + ", ";
      }
    }
    assert parts[..|xs|] == parts;
    s := s + "]";
  }

  /** The object branch of to_string: "{", `"key": text` per member in
      key order with ", " after all but the last, "}". */
  method ObjectToString(v: Value, fmt: real -> string) returns (s: string)
    requires v.Object?
    ensures s == Render(v, fmt)
    decreases v, 0
  {
    var es := v.entries;
    ghost var parts := PartTexts(v, fmt);
    s := "{";
    for i := 0 to |es|
      invariant s == "{" + Join(parts[..i], ", ") + (if 0 < i < |es| then ", " else "")
    {
      var item := ToString(es[i].value, fmt);
      var member := "\"" + es[i].key + "\": " + item;
      assert member == parts[i];
      JoinStep(parts, i, ", ");
      s := s + member;
      if i != |es| - 1 {
        s := s + ", ";
      }
    }
    assert parts[..|es|] == parts;
    s := s + "}";
  }
}
