/** to_string and parse agree on the values whose text both of them treat
    the same way: nulls, booleans, and arrays built from them, nested to
    any depth. (Numbers depend on the formatting of doubles, and to_string
    writes strings without quotes, so neither is read back.) */
module JsonRoundTrip {
  import opened Errors
  import opened Text
  import opened Json
  import opened JsonParser
  import opened JsonParserProperties

  /** A value whose canonical text parses back to it. */
  ghost predicate Reparsable(v: Value)
    decreases v
  {
    match v
    case Null => true
    case Bool(_) => true
    case Number(_) => false
    case String(_) => false
    case Array(xs) => forall k :: 0 <= k < |xs| ==> Reparsable(xs[k])
    case Object(_) => false
  }

  /** The text of such a value starts where parse_value dispatches on it. */
  lemma RenderFirst(v: Value, fmt: real -> string)
    requires Reparsable(v)
    ensures |Render(v, fmt)| > 0
    ensures var c := Render(v, fmt)[0];
            !IsSpace(c) && c != ']' && c != '}' && c != ',' && c != '"'
  {
  }

  // ------------------------------------------------------------ layout

  /** What parse_array reads after the '[' of a nonempty array: the
      elements' texts separated by ", ", then ']'. */
  function ElementsText(xs: seq<Value>, fmt: real -> string): (t: string)
    requires |xs| > 0
    ensures |t| > |Render(xs[0], fmt)|
    ensures t[..|Render(xs[0], fmt)|] == Render(xs[0], fmt)
    decreases |xs|
  {
    if |xs| == 1 then Render(xs[0], fmt) + "]"
    else Render(xs[0], fmt) + ", " + ElementsText(xs[1..], fmt)
  }

  /** Joining the element texts with ", " and closing the bracket gives
      ElementsText. */
  lemma {:induction false} JoinedElements(xs: seq<Value>, parts: seq<string>, fmt: real -> string)
    requires |xs| > 0 && |parts| == |xs|
    requires forall i :: 0 <= i < |xs| ==> parts[i] == Render(xs[i], fmt)
    ensures Join(parts, ", ") + "]" == ElementsText(xs, fmt)
    decreases |xs|
  {
    if |xs| > 1 {
      JoinCons(parts[0], parts[1..], ", ");
      assert [parts[0]] + parts[1..] == parts;
      JoinedElements(xs[1..], parts[1..], fmt);
    }
  }

  /** to_string of a nonempty array, in the shape parse_array reads it. */
  lemma ArrayText(v: Value, fmt: real -> string)
    requires v.Array? && |v.elements| > 0
    ensures Render(v, fmt) == "[" + ElementsText(v.elements, fmt)
  {
    JoinedElements(v.elements, PartTexts(v, fmt), fmt);
  }

  /** The text of the elements from k on: element k, then either the
      bracket or ", " and the text of the elements from k + 1 on. */
  lemma ElementsTextAt(xs: seq<Value>, k: nat, fmt: real -> string)
    requires k < |xs|
    ensures k + 1 == |xs| ==> ElementsText(xs[k..], fmt) == Render(xs[k], fmt) + "]"
    ensures k + 1 < |xs| ==> ElementsText(xs[k..], fmt) == Render(xs[k], fmt) + ", " + ElementsText(xs[k + 1..], fmt)
  {
    assert xs[k..][0] == xs[k];
    if k + 1 < |xs| {
      assert xs[k..][1..] == xs[k + 1..];
    }
  }

  /** The text of a nonempty list of elements starts with the first
      character of the first element. */
  lemma ElementsTextFirst(xs: seq<Value>, fmt: real -> string)
    requires |xs| > 0 && |Render(xs[0], fmt)| > 0
    ensures ElementsText(xs, fmt)[0] == Render(xs[0], fmt)[0]
  {
    var t := ElementsText(xs, fmt);
    assert t[0] == t[..|Render(xs[0], fmt)|][0];
  }

  /** A slice holding x + y holds x and then y. */
  lemma Split(text: string, a: nat, x: string, y: string)
    requires a + |x| + |y| <= |text|
    requires text[a..a + |x| + |y|] == x + y
    ensures text[a..a + |x|] == x
    ensures text[a + |x|..a + |x| + |y|] == y
  {
    assert text[a..a + |x|] == text[a..a + |x| + |y|][..|x|];
    assert text[a + |x|..a + |x| + |y|] == text[a..a + |x| + |y|][|x|..];
  }

  /** Where e, the separator and rest stand in a slice holding
      e + ", " + rest. */
  lemma CommaLayout(text: string, a: nat, e: string, rest: string)
    requires a + |e| + 2 + |rest| <= |text|
    requires text[a..a + |e| + 2 + |rest|] == e + ", " + rest
    ensures text[a..a + |e|] == e
    ensures text[a + |e|] == ',' && text[a + |e| + 1] == ' '
    ensures text[a + |e| + 2..a + |e| + 2 + |rest|] == rest
  {
    assert e + ", " + rest == e + (", " + rest);
    Split(text, a, e, ", " + rest);
    Split(text, a + |e|, ", ", rest);
  }

  /** skip_whitespace stops where the text of the elements from k on
      starts. */
  lemma NextElement(xs: seq<Value>, k: nat, fmt: real -> string, text: string, a: nat, b: nat)
    requires k < |xs| && Reparsable(xs[k])
    requires var t := ElementsText(xs[k..], fmt);
             a <= b && b + |t| <= |text| && text[b..b + |t|] == t
    requires forall i :: a <= i < b ==> IsSpace(text[i])
    ensures SkipWs(text, a) == b
  {
    RenderFirst(xs[k], fmt);
    assert xs[k..][0] == xs[k];
    ElementsTextFirst(xs[k..], fmt);
    var t := ElementsText(xs[k..], fmt);
    assert text[b] == text[b..b + |t|][0];
    SkipWsAt(text, a, b);
  }

  // ------------------------------------------------------ parser steps

  lemma ElementsAfterComma(text: string, j: nat, acc: seq<Value>, next: nat)
    requires j < next < |text| && text[next] == ','
    ensures ElementsAfter(text, j, acc, next) == ElementsFrom(text, next + 1, acc)
  {
    assert SkipWs(text, next) == next;
  }

  lemma ElementsAfterClose(text: string, j: nat, acc: seq<Value>, next: nat)
    requires j < next < |text| && text[next] == ']'
    ensures ElementsAfter(text, j, acc, next) == Ok(Parsed(Array(acc), next + 1))
  {
    assert SkipWs(text, next) == next;
  }

  // --------------------------------------------------------- round trip

  /** Wherever the cursor starts before leading whitespace, parse_value
      reads the canonical text of v and stops right after it. */
  lemma {:induction false} ValueRoundTrip(v: Value, fmt: real -> string, text: string, i: nat, i0: nat)
    requires Reparsable(v)
    requires i <= i0 && i0 + |Render(v, fmt)| <= |text|
    requires SkipWs(text, i) == i0
    requires text[i0..i0 + |Render(v, fmt)|] == Render(v, fmt)
    ensures ParseValueAt(text, i) == Ok(Parsed(v, i0 + |Render(v, fmt)|))
    decreases v, 2, 0
  {
    var r := Render(v, fmt);
    RenderFirst(v, fmt);
    assert text[i0] == r[0];
    match v
    case Null =>
      assert Substr(text, i0, 4) == "null";
    case Bool(b) =>
      if b {
        assert Substr(text, i0, 4) == "true";
      } else {
        assert text[i0..i0 + 4] == text[i0..i0 + 5][..4];
        assert Substr(text, i0, 4) == "fals";
        assert Substr(text, i0, 5) == "false";
      }
    case Array(xs) =>
      ArrayRoundTrip(v, fmt, text, i0);
  }

  lemma {:induction false} ArrayRoundTrip(v: Value, fmt: real -> string, text: string, i0: nat)
    requires v.Array? && Reparsable(v)
    requires i0 + |Render(v, fmt)| <= |text|
    requires text[i0..i0 + |Render(v, fmt)|] == Render(v, fmt)
    ensures ParseArrayAt(text, i0) == Ok(Parsed(v, i0 + |Render(v, fmt)|))
    decreases v, 1, 0
  {
    var xs := v.elements;
    if |xs| == 0 {
      assert Render(v, fmt) == "[]";
      assert text[i0 + 1] == text[i0..i0 + 2][1];
      assert SkipWs(text, i0 + 1) == i0 + 1;
    } else {
      ArrayText(v, fmt);
      var t := ElementsText(xs, fmt);
      Split(text, i0, "[", t);
      assert xs[0..] == xs;
      assert xs[..0] == [];
      NextElement(xs, 0, fmt, text, i0 + 1, i0 + 1);
      ElementsRoundTrip(v, fmt, 0, text, i0 + 1, i0 + 1, i0 + |Render(v, fmt)|);
    }
  }

  /** One element: parse_value reads its text and the loop appends it. */
  lemma ElementRead(x: Value, fmt: real -> string, text: string, j: nat, j0: nat, acc: seq<Value>, acc': seq<Value>, next: nat)
    requires Reparsable(x) && acc' == acc + [x] && next == j0 + |Render(x, fmt)|
    requires j <= j0 && next <= |text| && SkipWs(text, j) == j0
    requires text[j0..next] == Render(x, fmt)
    ensures ElementsFrom(text, j, acc) == ElementsAfter(text, j, acc', next)
    decreases x, 3, 0
  {
    RenderFirst(x, fmt);
    ValueRoundTrip(x, fmt, text, j, j0);
    ElementsStep(text, j, acc, Parsed(x, next));
  }

  /** Element k followed by ", ": the loop reads the element and the
      comma and goes on where the next element's text starts. */
  lemma ElementsComma(v: Value, fmt: real -> string, k: nat, text: string, j: nat, j0: nat)
    requires v.Array? && Reparsable(v) && k + 1 < |v.elements|
    requires var t := ElementsText(v.elements[k..], fmt);
             j <= j0 && j0 + |t| <= |text| && SkipWs(text, j) == j0 && text[j0..j0 + |t|] == t
    ensures var next := j0 + |Render(v.elements[k], fmt)|;
            var rest := ElementsText(v.elements[k + 1..], fmt);
            && next + 2 + |rest| == j0 + |ElementsText(v.elements[k..], fmt)|
            && SkipWs(text, next + 1) == next + 2
            && text[next + 2..next + 2 + |rest|] == rest
            && ElementsFrom(text, j, v.elements[..k]) == ElementsFrom(text, next + 1, v.elements[..k + 1])
    decreases v, 0, |v.elements| - k - 1
  {
    var xs := v.elements;
    var e := Render(xs[k], fmt);
    var next := j0 + |e|;
    var rest := ElementsText(xs[k + 1..], fmt);
    ElementsTextAt(xs, k, fmt);
    assert xs[..k] + [xs[k]] == xs[..k + 1];
    CommaLayout(text, j0, e, rest);
    ElementRead(xs[k], fmt, text, j, j0, xs[..k], xs[..k + 1], next);
    ElementsAfterComma(text, j, xs[..k + 1], next);
    NextElement(xs, k + 1, fmt, text, next + 1, next + 2);
  }

  /** The last element followed by ']': the loop reads both and the
      array is complete. */
  lemma ElementsClose(v: Value, fmt: real -> string, k: nat, text: string, j: nat, j0: nat, end: nat)
    requires v.Array? && Reparsable(v) && k + 1 == |v.elements|
    requires var t := ElementsText(v.elements[k..], fmt);
             j <= j0 && end == j0 + |t| <= |text| && SkipWs(text, j) == j0 && text[j0..end] == t
    ensures ElementsFrom(text, j, v.elements[..k]) == Ok(Parsed(v, end))
    decreases v, 0, 0
  {
    var xs := v.elements;
    var e := Render(xs[k], fmt);
    var next := j0 + |e|;
    ElementsTextAt(xs, k, fmt);
    assert xs[..k] + [xs[k]] == xs[..k + 1];
    Split(text, j0, e, "]");
    ElementRead(xs[k], fmt, text, j, j0, xs[..k], xs[..k + 1], next);
    assert xs[..k + 1] == xs;
    ElementsAfterClose(text, j, xs, next);
    assert Array(xs) == v;
  }

  /** From element k on: the loop of parse_array reads the remaining
      elements' texts, separated by ", ", and the closing ']', and stops
      at end, right after the bracket. */
  lemma {:induction false} ElementsRoundTrip(v: Value, fmt: real -> string, k: nat, text: string, j: nat, j0: nat, end: nat)
    requires v.Array? && Reparsable(v) && k < |v.elements|
    requires var t := ElementsText(v.elements[k..], fmt);
             j <= j0 && end == j0 + |t| <= |text| && SkipWs(text, j) == j0 && text[j0..end] == t
    ensures ElementsFrom(text, j, v.elements[..k]) == Ok(Parsed(v, end))
    decreases v, 0, |v.elements| - k
  {
    if k + 1 < |v.elements| {
      ElementsMore(v, fmt, k, text, j, j0, end);
    } else {
      ElementsClose(v, fmt, k, text, j, j0, end);
    }
  }

  /** ElementsRoundTrip when more elements follow element k. */
  lemma {:induction false} ElementsMore(v: Value, fmt: real -> string, k: nat, text: string, j: nat, j0: nat, end: nat)
    requires v.Array? && Reparsable(v) && k + 1 < |v.elements|
    requires var t := ElementsText(v.elements[k..], fmt);
             j <= j0 && end == j0 + |t| <= |text| && SkipWs(text, j) == j0 && text[j0..end] == t
    ensures ElementsFrom(text, j, v.elements[..k]) == Ok(Parsed(v, end))
    decreases v, 0, |v.elements| - k, 0
  {
    ElementsComma(v, fmt, k, text, j, j0);
    var next := j0 + |Render(v.elements[k], fmt)|;
    ElementsRoundTrip(v, fmt, k + 1, text, next + 1, next + 2, end);
  }

  /** parse(to_string(v)) == v, whatever text follows. */
  lemma RenderThenParse(v: Value, fmt: real -> string, post: string)
    requires Reparsable(v)
    ensures ParseDocument(Render(v, fmt) + post) == Ok(v)
  {
    var text := Render(v, fmt) + post;
    RenderFirst(v, fmt);
    assert text[0] == Render(v, fmt)[0];
    assert SkipWs(text, 0) == 0;
    assert text[0..|Render(v, fmt)|] == Render(v, fmt);
    ValueRoundTrip(v, fmt, text, 0, 0);
  }
}
