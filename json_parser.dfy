/** The JSON class: a recursive-descent parser over a single cursor.
    The pure functions ...At(text, i) say what each production does when
    the cursor stands at i: the value it yields and where it leaves the
    cursor, or the JSONError it raises. The class Parser is the C++ object
    itself, a text and a mutable index, whose methods are proved to do
    exactly what those functions say. */
module JsonParser {
  import opened Errors
  import opened Text
  import opened Json
  import OrderedMap

  /** A production's value and the cursor position after it. */
  datatype Parsed = Parsed(value: Value, next: nat)

  /** peek() with the cursor at i: '\0' past the end. */
  function CharAt(text: string, i: nat): char {
    if i < |text| then text[i] else '\0'
  }

  /** The cursor after get(): it never moves past the end. */
  function Advance(text: string, i: nat): nat {
    if i < |text| then i + 1 else i
  }

  /** skip_whitespace(): the first position at or after i whose character
      is not std::isspace. */
  function SkipWs(text: string, i: nat): (j: nat)
    requires i <= |text|
    ensures i <= j <= |text|
    ensures forall k :: i <= k < j ==> IsSpace(text[k])
    ensures !IsSpace(CharAt(text, j))
    decreases |text| - i
  {
    if IsSpace(CharAt(text, i)) then SkipWs(text, i + 1) else i
  }

  /** The end of the run of digits that starts at i. */
  function DigitsEnd(text: string, i: nat): (j: nat)
    requires i <= |text|
    ensures i <= j <= |text|
    ensures forall k :: i <= k < j ==> IsDigit(text[k])
    ensures !IsDigit(CharAt(text, j))
    decreases |text| - i
  {
    if IsDigit(CharAt(text, i)) then DigitsEnd(text, i + 1) else i
  }

  // -------------------------------------------------------------- literals

  function ParseNullAt(text: string, i: nat): (r: Result<Parsed>)
    requires i <= |text|
    ensures r.Ok? ==> i < r.value.next <= |text|
  {
    if Substr(text, i, 4) == "null" then Ok(Parsed(Null, i + 4))
    else Err(JSONError("Invalid JSON null"))
  }

  function ParseBoolAt(text: string, i: nat): (r: Result<Parsed>)
    requires i <= |text|
    ensures r.Ok? ==> i < r.value.next <= |text|
  {
    if Substr(text, i, 4) == "true" then Ok(Parsed(Bool(true), i + 4))
    else if Substr(text, i, 5) == "false" then Ok(Parsed(Bool(false), i + 5))
    else Err(JSONError("Invalid JSON boolean"))
  }

  // --------------------------------------------------------------- numbers

  /** The integer part starting at a: a lone '0', or a run of digits. */
  function IntegerEnd(text: string, a: nat): (r: Result<nat>)
    requires a <= |text|
    ensures r.Ok? ==> a < r.value <= |text|
  {
    if CharAt(text, a) == '0' then Ok(a + 1)
    else if IsDigit(CharAt(text, a)) then Ok(DigitsEnd(text, a))
    else Err(JSONError("Invalid JSON number"))
  }

  /** The optional fraction starting at b: '.' must be followed by a
      digit. */
  function FractionEnd(text: string, b: nat): (r: Result<nat>)
    requires b <= |text|
    ensures r.Ok? ==> b <= r.value <= |text|
  {
    if CharAt(text, b) != '.' then Ok(b)
    else if !IsDigit(CharAt(text, b + 1)) then Err(JSONError("Invalid JSON number"))
    else Ok(DigitsEnd(text, b + 1))
  }

  /** The exact decimal value of a digit string with an optional '.'. */
  function UnsignedValue(s: string): real {
    match Find(s, ".")
    case None => DigitsValue(s) as real
    case Some(d) =>
      DigitsValue(s[..d]) as real + DigitsValue(s[d + 1..]) as real / Pow10(|s| - d - 1) as real
  }

  /** The value std::stod gives a number lexeme, read exactly instead of
      rounded to a double. */
  function LexemeValue(lexeme: string): real {
    if |lexeme| > 0 && lexeme[0] == '-' then -UnsignedValue(lexeme[1..]) else UnsignedValue(lexeme)
  }

  function ParseNumberAt(text: string, i: nat): (r: Result<Parsed>)
    requires i <= |text|
    ensures r.Ok? ==> i < r.value.next <= |text|
  {
    var a := if CharAt(text, i) == '-' then i + 1 else i;
    var b :- IntegerEnd(text, a);
    var e :- FractionEnd(text, b);
    Ok(Parsed(Number(LexemeValue(text[i..e])), e))
  }

  // --------------------------------------------------------------- strings

  /** The character an escape `\c` stands for, for the eight escapes the
      parser knows. */
  function Unescape(c: char): (r: Option<char>)
    ensures r.Some? <==> c in "\"\\/bfnrt"
  {
    match c
    case '"' => Some('"')
    case '\\' => Some('\\')
    case '/' => Some('/')
    case 'b' => Some('\U{0008}')
    case 'f' => Some('\U{000C}')
    case 'n' => Some('\n')
    case 'r' => Some('\r')
    case 't' => Some('\t')
    case _ => None
  }

  /** The loop of parse_string with the cursor at j and acc decoded so
      far. */
  function StringFrom(text: string, j: nat, acc: string): (r: Result<Parsed>)
    requires j <= |text|
    ensures r.Ok? ==> j < r.value.next <= |text| && r.value.value.String?
    decreases |text| - j
  {
    var c := CharAt(text, j);
    if c != '"' && c != '\0' then
      if c == '\\' then
        match Unescape(CharAt(text, j + 1))
        case None => Err(JSONError("Invalid escape character"))
        case Some(d) => StringFrom(text, Advance(text, j + 1), acc + [d])
      else
        StringFrom(text, j + 1, acc + [c])
    else if c == '"' then Ok(Parsed(String(acc), j + 1))
    else Err(JSONError("Unterminated string"))
  }

  /** parse_string: skips the opening quote, whatever it is. */
  function ParseStringAt(text: string, i: nat): (r: Result<Parsed>)
    requires i <= |text|
    ensures r.Ok? ==> i < r.value.next <= |text| && r.value.value.String?
  {
    StringFrom(text, Advance(text, i), [])
  }

  // ----------------------------------------------------- values, containers

  function ParseValueAt(text: string, i: nat): (r: Result<Parsed>)
    requires i <= |text|
    ensures r.Ok? ==> i < r.value.next <= |text|
    decreases |text| - i, 1
  {
    var j := SkipWs(text, i);
    var c := CharAt(text, j);
    if c == 'n' then ParseNullAt(text, j)
    else if c == 't' || c == 'f' then ParseBoolAt(text, j)
    else if c == '-' || IsDigit(c) then ParseNumberAt(text, j)
    else if c == '"' then ParseStringAt(text, j)
    else if c == '[' then ParseArrayAt(text, j)
    else if c == '{' then ParseObjectAt(text, j)
    else Err(JSONError("Invalid JSON value"))
  }

  /** parse_array. At the end of the text the source skips nothing, finds
      neither ']' nor a value, and raises what parse_value raises there;
      that case is written out first. */
  function ParseArrayAt(text: string, i: nat): (r: Result<Parsed>)
    requires i <= |text|
    ensures r.Ok? ==> i < r.value.next <= |text|
    decreases |text| - i, 0
  {
    if i == |text| then Err(JSONError("Invalid JSON value"))
    else
      var j := SkipWs(text, i + 1);
      if CharAt(text, j) == ']' then Ok(Parsed(Array([]), j + 1))
      else ElementsFrom(text, j, [])
  }

  /** The loop of parse_array with the cursor at j, before the next
      element, and acc parsed so far. */
  function ElementsFrom(text: string, j: nat, acc: seq<Value>): (r: Result<Parsed>)
    requires j <= |text|
    ensures r.Ok? ==> j < r.value.next <= |text|
    decreases |text| - j, 2
  {
    match ParseValueAt(text, j)
    case Err(e) => Err(e)
    case Ok(p) => ElementsAfter(text, j, acc + [p.value], p.next)
  }

  /** The rest of that loop once an element has been appended: ',' goes
      round again, ']' ends the array. */
  function ElementsAfter(text: string, j: nat, acc: seq<Value>, next: nat): (r: Result<Parsed>)
    requires j < next <= |text|
    ensures r.Ok? ==> j < r.value.next <= |text|
    decreases |text| - next, 3
  {
    var k := SkipWs(text, next);
    if CharAt(text, k) == ',' then ElementsFrom(text, k + 1, acc)
    else if CharAt(text, k) == ']' then Ok(Parsed(Array(acc), k + 1))
    else Err(JSONError("Expected ',' or ']'"))
  }

  /** parse_object. At the end of the text the source finds neither '}'
      nor a key; that case is written out first. */
  function ParseObjectAt(text: string, i: nat): (r: Result<Parsed>)
    requires i <= |text|
    ensures r.Ok? ==> i < r.value.next <= |text|
    decreases |text| - i, 0
  {
    if i == |text| then Err(JSONError("Expected string key"))
    else
      var j := SkipWs(text, i + 1);
      if CharAt(text, j) == '}' then Ok(Parsed(Object([]), j + 1))
      else MembersFrom(text, j, [])
  }

  /** The map after one more member, and the cursor after its value. */
  datatype Step = Step(entries: seq<OrderedMap.Entry<Value>>, next: nat)

  /** One `"key": value` member of parse_object with the cursor at j and
      acc the map built so far: the value is stored under the key, a key
      seen before losing its old value. */
  function MemberAt(text: string, j: nat, acc: seq<OrderedMap.Entry<Value>>): (r: Result<Step>)
    requires j <= |text|
    ensures r.Ok? ==> j < r.value.next <= |text|
    decreases |text| - j, 2
  {
    var k := SkipWs(text, j);
    if CharAt(text, k) != '"' then Err(JSONError("Expected string key"))
    else
      match ParseStringAt(text, k)
      case Err(e) => Err(e)
      case Ok(key) =>
        var c := SkipWs(text, key.next);
        if CharAt(text, c) != ':' then Err(JSONError("Expected ':'"))
        else
          match ParseValueAt(text, SkipWs(text, c + 1))
          case Err(e) => Err(e)
          case Ok(p) => Ok(Step(OrderedMap.Insert(acc, key.value.s, p.value), p.next))
  }

  /** The loop of parse_object with the cursor at j, before the next
      member, and acc the map built so far. */
  function MembersFrom(text: string, j: nat, acc: seq<OrderedMap.Entry<Value>>): (r: Result<Parsed>)
    requires j <= |text|
    ensures r.Ok? ==> j < r.value.next <= |text|
    decreases |text| - j, 3
  {
    match MemberAt(text, j, acc)
    case Err(e) => Err(e)
    case Ok(st) => MembersAfter(text, j, st)
  }

  /** The rest of that loop once a member has been stored: ',' goes round
      again, '}' ends the object. */
  function MembersAfter(text: string, j: nat, st: Step): (r: Result<Parsed>)
    requires j < st.next <= |text|
    ensures r.Ok? ==> j < r.value.next <= |text|
    decreases |text| - st.next, 4
  {
    var d := SkipWs(text, st.next);
    if CharAt(text, d) == ',' then MembersFrom(text, d + 1, st.entries)
    else if CharAt(text, d) == '}' then Ok(Parsed(Object(st.entries), d + 1))
    else Err(JSONError("Expected ',' or '}'"))
  }

  datatype Separator = Comma | Close | Unexpected

  /** What the character at d means after an element or member. */
  function SeparatorAt(text: string, d: nat, close: char): Separator {
    if CharAt(text, d) == ',' then Comma
    else if CharAt(text, d) == close then Close
    else Unexpected
  }

  /** Unfolding one round of the array loop, for the parser's proof. */
  lemma ElementsStep(text: string, j: nat, acc: seq<Value>, p: Parsed)
    requires j <= |text| && ParseValueAt(text, j) == Ok(p)
    ensures ElementsFrom(text, j, acc) == ElementsAfter(text, j, acc + [p.value], p.next)
  {
  }

  lemma ElementsEnd(text: string, j: nat, acc: seq<Value>, next: nat, sep: Separator)
    requires j < next <= |text|
    requires sep == SeparatorAt(text, SkipWs(text, next), ']')
    ensures sep == Comma ==> ElementsAfter(text, j, acc, next) == ElementsFrom(text, SkipWs(text, next) + 1, acc)
    ensures sep == Close ==> ElementsAfter(text, j, acc, next) == Ok(Parsed(Array(acc), SkipWs(text, next) + 1))
    ensures sep == Unexpected ==> ElementsAfter(text, j, acc, next) == Err(JSONError("Expected ',' or ']'"))
  {
  }

  /** Unfolding one round of the object loop, for the parser's proof. */
  lemma MembersStep(text: string, j: nat, acc: seq<OrderedMap.Entry<Value>>, st: Step)
    requires j <= |text| && MemberAt(text, j, acc) == Ok(st)
    ensures MembersFrom(text, j, acc) == MembersAfter(text, j, st)
  {
  }

  lemma MembersEnd(text: string, j: nat, st: Step, sep: Separator)
    requires j < st.next <= |text|
    requires sep == SeparatorAt(text, SkipWs(text, st.next), '}')
    ensures sep == Comma ==> MembersAfter(text, j, st) == MembersFrom(text, SkipWs(text, st.next) + 1, st.entries)
    ensures sep == Close ==> MembersAfter(text, j, st) == Ok(Parsed(Object(st.entries), SkipWs(text, st.next) + 1))
    ensures sep == Unexpected ==> MembersAfter(text, j, st) == Err(JSONError("Expected ',' or '}'"))
  {
  }

  /** JSON::parse: the first value of the text; the rest is not looked at. */
  function ParseDocument(text: string): Result<Value> {
    var p :- ParseValueAt(text, 0);
    Ok(p.value)
  }

  // ------------------------------------------------------------ the parser

  class Parser {
    const text: string
    var index: nat

    ghost predicate Valid()
      reads this
    {
      index <= |text|
    }

    /** JSON(text): the cursor starts at the beginning. */
    constructor (text: string)
      ensures this.text == text && index == 0 && Valid()
    {
      this.text := text;
      index := 0;
    }

    /** The outcome spec, with the cursor where it says on success. */
    ghost predicate Delivered(spec: Result<Parsed>, r: Result<Value>)
      reads this
    {
      match spec
      case Ok(p) => r == Ok(p.value) && index == p.next
      case Err(e) => r == Err(e)
    }

    /** peek: the character at the cursor, '\0' once it is past the end. */
    function Peek(): (c: char)
      reads this
      ensures c == CharAt(text, index)
    {
      if index < |text| then text[index] else '\0'
    }

    method Get() returns (c: char)
      requires Valid()
      modifies this
      ensures Valid()
      ensures old(index) < |text| ==> c == text[old(index)] && index == old(index) + 1
      ensures old(index) == |text| ==> c == '\0' && index == old(index)
    {
      if index < |text| {
        c := text[index];
        index := index + 1;
      } else {
        c := '\0';
      }
    }

    method SkipWhitespace()
      requires Valid()
      modifies this
      ensures Valid() && index == SkipWs(text, old(index))
    {
      while IsSpace(Peek())
        invariant Valid() && old(index) <= index
        invariant SkipWs(text, index) == SkipWs(text, old(index))
        decreases |text| - index
      {
        var _ := Get();
      }
    }

    method ParseValue() returns (r: Result<Value>)
      requires Valid()
      modifies this
      ensures Valid() && Delivered(ParseValueAt(text, old(index)), r)
      decreases |text| - index, 1
    {
      SkipWhitespace();
      var c := Peek();
      if c == 'n' {
        r := ParseNull();
      } else if c == 't' || c == 'f' {
        r := ParseBool();
      } else if c == '-' || IsDigit(c) {
        r := ParseNumber();
      } else if c == '"' {
        r := ParseString();
      } else if c == '[' {
        r := ParseArray();
      } else if c == '{' {
        r := ParseObject();
      } else {
        r := Err(JSONError("Invalid JSON value"));
      }
    }

    method ParseNull() returns (r: Result<Value>)
      requires Valid()
      modifies this
      ensures Valid() && Delivered(ParseNullAt(text, old(index)), r)
    {
      if Substr(text, index, 4) == "null" {
        index := index + 4;
        r := Ok(Null);
      } else {
        r := Err(JSONError("Invalid JSON null"));
      }
    }

    method ParseBool() returns (r: Result<Value>)
      requires Valid()
      modifies this
      ensures Valid() && Delivered(ParseBoolAt(text, old(index)), r)
    {
      if Substr(text, index, 4) == "true" {
        index := index + 4;
        r := Ok(Bool(true));
      } else if Substr(text, index, 5) == "false" {
        index := index + 5;
        r := Ok(Bool(false));
      } else {
        r := Err(JSONError("Invalid JSON boolean"));
      }
    }

    /** Advances over a run of digits. */
    method SkipDigits()
      requires Valid()
      modifies this
      ensures Valid() && index == DigitsEnd(text, old(index))
    {
      while IsDigit(Peek())
        invariant Valid() && old(index) <= index
        invariant DigitsEnd(text, index) == DigitsEnd(text, old(index))
        decreases |text| - index
      {
        var _ := Get();
      }
    }

    method ParseNumber() returns (r: Result<Value>)
      requires Valid()
      modifies this
      ensures Valid() && Delivered(ParseNumberAt(text, old(index)), r)
    {
      var start := index;
      if Peek() == '-' {
        var _ := Get();
      }
      if Peek() == '0' {
        var _ := Get();
      } else if IsDigit(Peek()) {
        SkipDigits();
      } else {
        return Err(JSONError("Invalid JSON number"));
      }
      if Peek() == '.' {
        var _ := Get();
        if !IsDigit(Peek()) {
          return Err(JSONError("Invalid JSON number"));
        }
        SkipDigits();
      }
      r := Ok(Number(LexemeValue(text[start..index])));
    }

    method ParseString() returns (r: Result<Value>)
      requires Valid()
      modifies this
      ensures Valid() && Delivered(ParseStringAt(text, old(index)), r)
    {
      var _ := Get();
      var s: string := [];
      while Peek() != '"' && Peek() != '\0'
        invariant Valid()
        invariant StringFrom(text, index, s) == ParseStringAt(text, old(index))
        decreases |text| - index
      {
        if Peek() == '\\' {
          var _ := Get();
          var escaped := Get();
          match escaped {
            case '"' => s := s + ['"'];
            case '\\' => s := s + ['\\'];
            case '/' => s := s + ['/'];
            case 'b' => s := s + ['\U{0008}'];
            case 'f' => s := s + ['\U{000C}'];
            case 'n' => s := s + ['\n'];
            case 'r' => s := s + ['\r'];
            case 't' => s := s + ['\t'];
            case _ => return Err(JSONError("Invalid escape character"));
          }
        } else {
          var c := Get();
          s := s + [c];
        }
      }
      var c := Get();
      if c != '"' {
        return Err(JSONError("Unterminated string"));
      }
      r := Ok(String(s));
    }

    method ParseArray() returns (r: Result<Value>)
      requires Valid()
      modifies this
      ensures Valid() && Delivered(ParseArrayAt(text, old(index)), r)
      decreases |text| - index, 0
    {
      if index == |text| {
        return Err(JSONError("Invalid JSON value"));
      }
      var _ := Get();
      SkipWhitespace();
      if Peek() == ']' {
        var _ := Get();
        return Ok(Array([]));
      }
      r := ParseElements([]);
    }

    /** The loop of parse_array, from the first element on, with acc the
        elements already read. */
    method ParseElements(acc: seq<Value>) returns (r: Result<Value>)
      requires Valid()
      modifies this
      ensures Valid() && Delivered(ElementsFrom(text, old(index), acc), r)
      decreases |text| - index, 3
    {
      var elements := acc;
      while true
        invariant Valid() && old(index) <= index
        invariant ElementsFrom(text, index, elements) == ElementsFrom(text, old(index), acc)
        decreases |text| - index
      {
        var next, done := ElementRound(elements);
        if next.Err? {
          return Err(next.error);
        }
        elements := next.value;
        if done {
          return Ok(Array(elements));
        }
      }
    }

    /** One round of parse_array's loop: an element, appended, then ','
        (the loop goes on) or ']' (done). */
    method ElementRound(acc: seq<Value>) returns (r: Result<seq<Value>>, done: bool)
      requires Valid()
      modifies this
      ensures Valid()
      ensures r.Err? ==> ElementsFrom(text, old(index), acc) == Err(r.error)
      ensures r.Ok? && done ==> ElementsFrom(text, old(index), acc) == Ok(Parsed(Array(r.value), index))
      ensures r.Ok? && !done ==> old(index) < index && ElementsFrom(text, old(index), acc) == ElementsFrom(text, index, r.value)
      decreases |text| - index, 2
    {
      ghost var start := index;
      var val := ParseValue();
      if val.Err? {
        return Err(val.error), false;
      }
      var elements := acc + [val.value];
      ghost var mid := index;
      ElementsStep(text, start, acc, Parsed(val.value, mid));
      var sep := ParseSeparator(']');
      ElementsEnd(text, start, elements, mid, sep);
      if sep == Unexpected {
        return Err(JSONError("Expected ',' or ']'")), false;
      }
      assert index == SkipWs(text, mid) + 1;
      return Ok(elements), sep == Close;
    }

    method ParseObject() returns (r: Result<Value>)
      requires Valid()
      modifies this
      ensures Valid() && Delivered(ParseObjectAt(text, old(index)), r)
      decreases |text| - index, 0
    {
      if index == |text| {
        return Err(JSONError("Expected string key"));
      }
      var _ := Get();
      SkipWhitespace();
      if Peek() == '}' {
        var _ := Get();
        return Ok(Object([]));
      }
      r := ParseMembers([]);
    }

    /** The loop of parse_object, from the first member on, with acc the
        members already inserted. */
    method ParseMembers(acc: seq<OrderedMap.Entry<Value>>) returns (r: Result<Value>)
      requires Valid()
      modifies this
      ensures Valid() && Delivered(MembersFrom(text, old(index), acc), r)
      decreases |text| - index, 4
    {
      var members := acc;
      while true
        invariant Valid() && old(index) <= index
        invariant MembersFrom(text, index, members) == MembersFrom(text, old(index), acc)
        decreases |text| - index
      {
        var next, done := MemberRound(members);
        if next.Err? {
          return Err(next.error);
        }
        members := next.value;
        if done {
          return Ok(Object(members));
        }
      }
    }

    /** One round of parse_object's loop: a member, then ',' (the loop goes
        on) or '}' (done). */
    method MemberRound(acc: seq<OrderedMap.Entry<Value>>) returns (r: Result<seq<OrderedMap.Entry<Value>>>, done: bool)
      requires Valid()
      modifies this
      ensures Valid()
      ensures r.Err? ==> MembersFrom(text, old(index), acc) == Err(r.error)
      ensures r.Ok? && done ==> MembersFrom(text, old(index), acc) == Ok(Parsed(Object(r.value), index))
      ensures r.Ok? && !done ==> old(index) < index && MembersFrom(text, old(index), acc) == MembersFrom(text, index, r.value)
      decreases |text| - index, 3
    {
      ghost var start := index;
      var next := ParseMember(acc);
      if next.Err? {
        return Err(next.error), false;
      }
      ghost var mid := index;
      ghost var st := Step(next.value, mid);
      MembersStep(text, start, acc, st);
      var sep := ParseSeparator('}');
      MembersEnd(text, start, st, sep);
      if sep == Unexpected {
        return Err(JSONError("Expected ',' or '}'")), false;
      }
      assert index == SkipWs(text, mid) + 1;
      return next, sep == Close;
    }

    /** The end of one round of the array or object loop: whitespace, then
        ',' to go round again or the closing character to stop, either of
        them consumed; anything else is left in place. */
    method ParseSeparator(close: char) returns (sep: Separator)
      requires Valid() && (close == ']' || close == '}')
      modifies this
      ensures Valid()
      ensures var d := SkipWs(text, old(index));
              sep == SeparatorAt(text, d, close) && index == (if sep == Unexpected then d else d + 1)
    {
      SkipWhitespace();
      if Peek() == ',' {
        var _ := Get();
        sep := Comma;
      } else if Peek() == close {
        var _ := Get();
        sep := Close;
      } else {
        sep := Unexpected;
      }
    }

    /** The body of parse_object's loop up to and including the value. */
    method ParseMember(acc: seq<OrderedMap.Entry<Value>>) returns (r: Result<seq<OrderedMap.Entry<Value>>>)
      requires Valid()
      modifies this
      ensures Valid()
      ensures match MemberAt(text, old(index), acc)
              case Ok(st) => r == Ok(st.entries) && index == st.next
              case Err(e) => r == Err(e)
      decreases |text| - index, 2
    {
      SkipWhitespace();
      if Peek() != '"' {
        return Err(JSONError("Expected string key"));
      }
      var key := ParseString();
      if key.Err? {
        return Err(key.error);
      }
      SkipWhitespace();
      var colon := Get();
      if colon != ':' {
        return Err(JSONError("Expected ':'"));
      }
      SkipWhitespace();
      var val := ParseValue();
      if val.Err? {
        return Err(val.error);
      }
      r := Ok(OrderedMap.Insert(acc, key.value.s, val.value));
    }

    /** JSON::parse: a fresh parser over text, one parse_value. */
    static method Parse(text: string) returns (r: Result<Value>)
      ensures r == ParseDocument(text)
    {
      var parser := new Parser(text);
      r := parser.ParseValue();
    }
  }
}
