/** What the parser's productions accept and reject, stated over the
    functions of JsonParser (which the Parser class is proved to follow). */
module JsonParserProperties {
  import opened Errors
  import opened Text
  import opened Json
  import opened JsonParser
  import OrderedMap

  // ------------------------------------------------------------ whitespace

  /** skip_whitespace stops at the first non-space: over a run of spaces
      followed by anything else it lands exactly after the run. */
  lemma {:induction false} SkipWsAt(text: string, i: nat, k: nat)
    requires i <= k <= |text|
    requires forall j :: i <= j < k ==> IsSpace(text[j])
    requires !IsSpace(CharAt(text, k))
    ensures SkipWs(text, i) == k
    decreases k - i
  {
    if i < k {
      SkipWsAt(text, i + 1, k);
    }
  }

  /** Skipping twice is skipping once. */
  lemma SkipWsIdempotent(text: string, i: nat)
    requires i <= |text|
    ensures SkipWs(text, SkipWs(text, i)) == SkipWs(text, i)
  {
  }

  // --------------------------------------------------------------- numbers

  /** An optionally signed integer part without superfluous leading zero. */
  predicate IsIntegerPart(s: string) {
    |s| > 0 && AllDigits(s) && (s[0] == '0' ==> |s| == 1)
  }

  /** Empty, or '.' followed by at least one digit. */
  predicate IsFractionPart(s: string) {
    |s| == 0 || (|s| >= 2 && s[0] == '.' && AllDigits(s[1..]))
  }

  /** The number grammar -?(0|[1-9][0-9]*)(\.[0-9]+)? */
  predicate IsNumberLexeme(s: string) {
    var u := if |s| > 0 && s[0] == '-' then s[1..] else s;
    var n := DigitPrefixLength(u);
    IsIntegerPart(u[..n]) && IsFractionPart(u[n..])
  }

  /** A run of digits followed by a non-digit is what DigitsEnd skips. */
  lemma {:induction false} DigitsEndAt(text: string, i: nat, k: nat)
    requires i <= k <= |text|
    requires forall j :: i <= j < k ==> IsDigit(text[j])
    requires !IsDigit(CharAt(text, k))
    ensures DigitsEnd(text, i) == k
    decreases k - i
  {
    if i < k {
      DigitsEndAt(text, i + 1, k);
    }
  }

  /** DigitPrefixLength is the length of the leading run of digits. */
  lemma {:induction false} DigitPrefixLengthAt(s: string, n: nat)
    requires n <= |s| && AllDigits(s[..n])
    requires n < |s| ==> !IsDigit(s[n])
    ensures DigitPrefixLength(s) == n
  {
    if n > 0 {
      assert IsDigit(s[..n][0]);
      assert s[1..][..n - 1] == s[..n][1..];
      DigitPrefixLengthAt(s[1..], n - 1);
    } else if |s| > 0 {
      assert !IsDigit(s[0]);
    }
  }

  /** Where parse_number's three cursors stand after a successful read:
      the integer part is a lone '0' or a run of digits that no digit
      follows, and a fraction is a '.' and at least one digit. */
  lemma NumberCursors(text: string, i: nat)
    requires i <= |text|
    requires ParseNumberAt(text, i).Ok?
    ensures var a := if CharAt(text, i) == '-' then i + 1 else i;
            var b := IntegerEnd(text, a).value;
            var e := FractionEnd(text, b).value;
            && a < b <= e <= |text|
            && ParseNumberAt(text, i) == Ok(Parsed(Number(LexemeValue(text[i..e])), e))
            && (forall k :: a <= k < b ==> IsDigit(text[k]))
            && (text[a] == '0' ==> b == a + 1)
            && (b < |text| && text[a] != '0' ==> !IsDigit(text[b]))
            && (b < e ==> b + 1 < e && text[b] == '.' && forall k :: b + 1 <= k < e ==> IsDigit(text[k]))
  {
  }

  /** The text between the cursors of NumberCursors is a lexeme of the
      number grammar. */
  lemma CursorsLexeme(text: string, i: nat, a: nat, b: nat, e: nat)
    requires i <= a < b <= e <= |text|
    requires a == if CharAt(text, i) == '-' then i + 1 else i
    requires forall k :: a <= k < b ==> IsDigit(text[k])
    requires text[a] == '0' ==> b == a + 1
    requires b < e ==> b + 1 < e && text[b] == '.' && forall k :: b + 1 <= k < e ==> IsDigit(text[k])
    ensures IsNumberLexeme(text[i..e])
  {
    var s := text[i..e];
    assert s[0] == text[i];
    var u := text[a..e];
    assert u == if |s| > 0 && s[0] == '-' then s[1..] else s;
    assert u[..b - a] == text[a..b];
    assert u[b - a..] == text[b..e];
    assert AllDigits(text[a..b]);
    if b < e {
      assert u[b - a] == '.';
      assert u[b - a..][1..] == text[b + 1..e];
      assert AllDigits(text[b + 1..e]);
    }
    DigitPrefixLengthAt(u, b - a);
  }

  /** parse_number consumes exactly a lexeme of the number grammar and
      yields the value of that lexeme. */
  lemma NumberSound(text: string, i: nat)
    requires i <= |text|
    requires ParseNumberAt(text, i).Ok?
    ensures var p := ParseNumberAt(text, i).value;
            IsNumberLexeme(text[i..p.next]) && p.value == Number(LexemeValue(text[i..p.next]))
  {
    NumberCursors(text, i);
    var a := if CharAt(text, i) == '-' then i + 1 else i;
    var b := IntegerEnd(text, a).value;
    CursorsLexeme(text, i, a, b, FractionEnd(text, b).value);
  }

  /** An integer part in the text is read in full when no digit follows
      it (or when it is a lone '0'). */
  lemma IntegerEndAt(text: string, a: nat, n: nat)
    requires a + n <= |text|
    requires IsIntegerPart(text[a..a + n])
    requires !IsDigit(CharAt(text, a + n))
    ensures IntegerEnd(text, a) == Ok(a + n)
  {
    assert text[a..a + n][0] == text[a];
    if text[a] != '0' {
      forall j | a <= j < a + n
        ensures IsDigit(text[j])
      {
        assert text[j] == text[a..a + n][j - a];
      }
      DigitsEndAt(text, a, a + n);
    }
  }

  /** A fraction part in the text is read in full when no digit follows
      it; an empty one must not stand before a '.'. */
  lemma FractionEndAt(text: string, b: nat, m: nat)
    requires b + m <= |text|
    requires IsFractionPart(text[b..b + m])
    requires !IsDigit(CharAt(text, b + m))
    requires m == 0 ==> CharAt(text, b) != '.'
    ensures FractionEnd(text, b) == Ok(b + m)
  {
    if m > 0 {
      var f := text[b..b + m];
      assert f[0] == text[b] && f[1..][0] == text[b + 1];
      forall j | b + 1 <= j < b + m
        ensures IsDigit(text[j])
      {
        assert text[j] == f[1..][j - b - 1];
      }
      DigitsEndAt(text, b + 1, b + m);
    }
  }

  /** Where the integer and fraction parts of a lexeme from i to e stand. */
  lemma LexemeLayout(text: string, i: nat, e: nat)
    requires i <= e <= |text| && IsNumberLexeme(text[i..e])
    ensures var a := if CharAt(text, i) == '-' then i + 1 else i;
            var n := DigitPrefixLength(text[a..e]);
            a + n <= e && IsIntegerPart(text[a..a + n]) && IsFractionPart(text[a + n..e])
  {
    var s := text[i..e];
    var signed := |s| > 0 && s[0] == '-';
    var u := if signed then s[1..] else s;
    var a := if signed then i + 1 else i;
    if |s| > 0 {
      assert s[0] == text[i];
    }
    assert text[a..e] == u;
    var n := DigitPrefixLength(u);
    assert text[a..a + n] == u[..n];
    assert text[a + n..e] == u[n..];
  }

  /** Conversely, every lexeme of the number grammar in the text that no
      digit or '.' follows is read in full. */
  lemma NumberComplete(text: string, i: nat, e: nat)
    requires i <= e <= |text| && IsNumberLexeme(text[i..e])
    requires !IsDigit(CharAt(text, e)) && CharAt(text, e) != '.'
    ensures ParseNumberAt(text, i) == Ok(Parsed(Number(LexemeValue(text[i..e])), e))
  {
    LexemeLayout(text, i, e);
    var a := if CharAt(text, i) == '-' then i + 1 else i;
    var b := a + DigitPrefixLength(text[a..e]);
    NumberEnds(text, a, b, e);
    NumberRead(text, i, b, e);
  }

  /** parse_number succeeds once both parts end where expected. */
  lemma NumberRead(text: string, i: nat, b: nat, e: nat)
    requires i <= b <= e <= |text|
    requires IntegerEnd(text, if CharAt(text, i) == '-' then i + 1 else i) == Ok(b)
    requires FractionEnd(text, b) == Ok(e)
    ensures ParseNumberAt(text, i) == Ok(Parsed(Number(LexemeValue(text[i..e])), e))
  {
  }

  /** An integer part from a to b and a fraction part from b to e, with no
      digit or '.' after them, are read in full. */
  lemma NumberEnds(text: string, a: nat, b: nat, e: nat)
    requires a <= b <= e <= |text|
    requires IsIntegerPart(text[a..b]) && IsFractionPart(text[b..e])
    requires !IsDigit(CharAt(text, e)) && CharAt(text, e) != '.'
    ensures IntegerEnd(text, a) == Ok(b) && FractionEnd(text, b) == Ok(e)
  {
    if b < e {
      assert text[b] == text[b..e][0];
    }
    IntegerEndAt(text, a, b - a);
    FractionEndAt(text, b, e - b);
  }

  /** A leading '0' ends the integer part: "012" reads as 0 and stops
      before the '1'. */
  lemma LeadingZero(text: string, i: nat)
    requires i <= |text|
    requires var a := if CharAt(text, i) == '-' then i + 1 else i;
             CharAt(text, a) == '0' && CharAt(text, a + 1) != '.'
    ensures var a := if CharAt(text, i) == '-' then i + 1 else i;
            ParseNumberAt(text, i) == Ok(Parsed(Number(LexemeValue(text[i..a + 1])), a + 1))
  {
  }

  /** A '-' that no digit follows is rejected. */
  lemma MinusWithoutDigit(text: string, i: nat)
    requires i <= |text|
    requires CharAt(text, i) == '-' && !IsDigit(CharAt(text, i + 1))
    ensures ParseNumberAt(text, i) == Err(JSONError("Invalid JSON number"))
  {
  }

  /** A '.' that no digit follows is rejected. */
  lemma DotWithoutDigit(text: string, i: nat)
    requires i <= |text|
    requires var a := if CharAt(text, i) == '-' then i + 1 else i;
             IntegerEnd(text, a).Ok? &&
             CharAt(text, IntegerEnd(text, a).value) == '.' &&
             !IsDigit(CharAt(text, IntegerEnd(text, a).value + 1))
    ensures ParseNumberAt(text, i) == Err(JSONError("Invalid JSON number"))
  {
  }

  // --------------------------------------------------------------- strings

  /** String content that decodes to itself: no quote, backslash or NUL. */
  predicate Plain(s: string) {
    forall k :: 0 <= k < |s| ==> s[k] != '"' && s[k] != '\\' && s[k] != '\0'
  }

  /** parse_string copies a plain run of characters one by one. */
  lemma {:induction false} PlainRun(text: string, j: nat, acc: string, m: nat)
    requires j + m <= |text|
    requires Plain(text[j..j + m])
    ensures StringFrom(text, j, acc) == StringFrom(text, j + m, acc + text[j..j + m])
    decreases m
  {
    if m > 0 {
      assert text[j..j + m][0] == text[j];
      assert text[j + 1..j + m] == text[j..j + m][1..];
      assert Plain(text[j + 1..j + m]);
      PlainRun(text, j + 1, acc + [text[j]], m - 1);
      assert acc + [text[j]] + text[j + 1..j + m] == acc + text[j..j + m];
    } else {
      assert acc + text[j..j] == acc;
    }
  }

  /** After the opening quote and a plain run s, decoding goes on with s
      decoded so far. */
  lemma PlainPrefix(text: string, i: nat, s: string)
    requires i + 1 + |s| <= |text|
    requires text[i] == '"' && text[i + 1..i + 1 + |s|] == s && Plain(s)
    ensures ParseStringAt(text, i) == StringFrom(text, i + 1 + |s|, s)
  {
    PlainRun(text, i + 1, [], |s|);
    assert [] + s == s;
  }

  /** `"` + s + `"` decodes to s and leaves the cursor after the closing
      quote, whatever follows. */
  lemma PlainStringRoundTrip(pre: string, s: string, post: string)
    requires Plain(s)
    ensures ParseStringAt(pre + "\"" + s + "\"" + post, |pre|) == Ok(Parsed(String(s), |pre| + |s| + 2))
  {
    var text := pre + "\"" + s + "\"" + post;
    assert text[|pre| + 1..|pre| + 1 + |s|] == s;
    PlainPrefix(text, |pre|, s);
    assert text[|pre| + 1 + |s|] == '"';
  }

  /** A string with no closing quote is rejected. */
  lemma UnterminatedString(pre: string, s: string)
    requires Plain(s)
    ensures ParseStringAt(pre + "\"" + s, |pre|) == Err(JSONError("Unterminated string"))
  {
    var text := pre + "\"" + s;
    assert text[|pre| + 1..|pre| + 1 + |s|] == s;
    PlainPrefix(text, |pre|, s);
  }

  /** A backslash followed by anything but one of the eight escape letters
      is rejected. */
  lemma InvalidEscape(pre: string, s: string, c: char, post: string)
    requires Plain(s)
    requires Unescape(c).None?
    ensures ParseStringAt(pre + "\"" + s + "\\" + [c] + post, |pre|) == Err(JSONError("Invalid escape character"))
  {
    var text := pre + "\"" + s + "\\" + [c] + post;
    assert text[|pre| + 1..|pre| + 1 + |s|] == s;
    PlainPrefix(text, |pre|, s);
    assert text[|pre| + 1 + |s|] == '\\' && text[|pre| + 2 + |s|] == c;
  }

  /** So is a backslash at the very end of the text. */
  lemma BackslashAtEnd(pre: string, s: string)
    requires Plain(s)
    ensures ParseStringAt(pre + "\"" + s + "\\", |pre|) == Err(JSONError("Invalid escape character"))
  {
    var text := pre + "\"" + s + "\\";
    assert text[|pre| + 1..|pre| + 1 + |s|] == s;
    PlainPrefix(text, |pre|, s);
    assert text[|pre| + 1 + |s|] == '\\' && CharAt(text, |pre| + 2 + |s|) == '\0';
  }

  /** A valid escape contributes the one character it stands for and
      decoding goes on after it. */
  lemma EscapeDecoded(text: string, i: nat, s: string, c: char)
    requires i + 2 + |s| < |text|
    requires text[i] == '"' && text[i + 1..i + 1 + |s|] == s && Plain(s)
    requires text[i + 1 + |s|] == '\\' && text[i + 2 + |s|] == c
    requires Unescape(c).Some?
    ensures ParseStringAt(text, i) == StringFrom(text, i + 3 + |s|, s + [Unescape(c).value])
  {
    PlainPrefix(text, i, s);
  }

  // ---------------------------------------------------------------- arrays

  /** `[` ws `]` is the empty array. */
  lemma EmptyArray(pre: string, ws: string, post: string)
    requires forall k :: 0 <= k < |ws| ==> IsSpace(ws[k])
    ensures ParseArrayAt(pre + "[" + ws + "]" + post, |pre|) == Ok(Parsed(Array([]), |pre| + |ws| + 2))
  {
    var text := pre + "[" + ws + "]" + post;
    assert forall j :: |pre| + 1 <= j < |pre| + 1 + |ws| ==> text[j] == ws[j - |pre| - 1];
    SkipWsAt(text, |pre| + 1, |pre| + 1 + |ws|);
  }

  /** Elements come out in the order they appear: the array produced from
      the cursor at j begins with what was parsed before and then the
      value found at j. */
  lemma {:induction false} ElementsInOrder(text: string, j: nat, acc: seq<Value>)
    requires j <= |text|
    requires ElementsFrom(text, j, acc).Ok?
    ensures var v := ElementsFrom(text, j, acc).value.value;
            v.Array? && |v.elements| > |acc| && v.elements[..|acc|] == acc &&
            v.elements[|acc|] == ParseValueAt(text, j).value.value
    decreases |text| - j, 1
  {
    var p := ParseValueAt(text, j).value;
    var acc' := acc + [p.value];
    ElementsAfterKeeps(text, j, acc', p.next);
    var v := ElementsAfter(text, j, acc', p.next).value.value;
    assert v.elements[..|acc|] == v.elements[..|acc'|][..|acc|];
  }

  /** What the loop has collected stays at the front of the array. */
  lemma {:induction false} ElementsAfterKeeps(text: string, j: nat, acc: seq<Value>, next: nat)
    requires j < next <= |text|
    requires ElementsAfter(text, j, acc, next).Ok?
    ensures var v := ElementsAfter(text, j, acc, next).value.value;
            v.Array? && |v.elements| >= |acc| && v.elements[..|acc|] == acc
    decreases |text| - next, 0
  {
    var k := SkipWs(text, next);
    if CharAt(text, k) == ',' {
      ElementsInOrder(text, k + 1, acc);
    }
  }

  /** After an element, anything but ',' or ']' is rejected. */
  lemma UnexpectedAfterElement(text: string, j: nat, acc: seq<Value>)
    requires j <= |text|
    requires ParseValueAt(text, j).Ok?
    requires var c := CharAt(text, SkipWs(text, ParseValueAt(text, j).value.next));
             c != ',' && c != ']'
    ensures ElementsFrom(text, j, acc) == Err(JSONError("Expected ',' or ']'"))
  {
  }

  /** A trailing comma is rejected: after ',' the loop asks for a value,
      and ']' does not begin one. */
  lemma TrailingComma(text: string, j: nat, acc: seq<Value>)
    requires j <= |text|
    requires CharAt(text, SkipWs(text, j)) == ']'
    ensures ElementsFrom(text, j, acc) == Err(JSONError("Invalid JSON value"))
  {
  }

  // --------------------------------------------------------------- objects

  /** A member that does not begin with '"' is rejected. */
  lemma KeyMustBeQuoted(text: string, j: nat, acc: seq<OrderedMap.Entry<Value>>)
    requires j <= |text|
    requires CharAt(text, SkipWs(text, j)) != '"'
    ensures MembersFrom(text, j, acc) == Err(JSONError("Expected string key"))
  {
  }

  /** A key that no ':' follows is rejected. */
  lemma MissingColon(text: string, j: nat, acc: seq<OrderedMap.Entry<Value>>)
    requires j <= |text|
    requires var k := SkipWs(text, j);
             CharAt(text, k) == '"' && ParseStringAt(text, k).Ok? &&
             CharAt(text, SkipWs(text, ParseStringAt(text, k).value.next)) != ':'
    ensures MembersFrom(text, j, acc) == Err(JSONError("Expected ':'"))
  {
  }

  /** Each member is stored with the map assignment: its value replaces
      any earlier one under the same key, and every other key keeps its
      value. */
  lemma MemberAssigns(text: string, j: nat, acc: seq<OrderedMap.Entry<Value>>, other: string)
    requires j <= |text|
    requires MemberAt(text, j, acc).Ok?
    ensures var k := SkipWs(text, j);
            var key := ParseStringAt(text, k).value;
            var c := SkipWs(text, key.next);
            var p := ParseValueAt(text, SkipWs(text, c + 1)).value;
            var m := MemberAt(text, j, acc).value.entries;
            OrderedMap.Lookup(m, key.value.s) == Some(p.value) &&
            (other != key.value.s ==> OrderedMap.Lookup(m, other) == OrderedMap.Lookup(acc, other))
  {
    var k := SkipWs(text, j);
    var key := ParseStringAt(text, k).value;
    var c := SkipWs(text, key.next);
    var p := ParseValueAt(text, SkipWs(text, c + 1)).value;
    OrderedMap.LookupInsert(acc, key.value.s, p.value, key.value.s);
    OrderedMap.LookupInsert(acc, key.value.s, p.value, other);
  }

  // ------------------------------------------------------------ well-formed

  /** Every object the parser builds is a std::map: in the whole tree the
      keys of each object are unique and ascending. */
  lemma {:induction false} ValueWellFormed(text: string, i: nat)
    requires i <= |text|
    requires ParseValueAt(text, i).Ok?
    ensures WellFormed(ParseValueAt(text, i).value.value)
    decreases |text| - i, 2
  {
    var j := SkipWs(text, i);
    var c := CharAt(text, j);
    if c == '[' {
      ArrayWellFormed(text, j);
    } else if c == '{' {
      ObjectWellFormed(text, j);
    }
  }

  lemma {:induction false} ArrayWellFormed(text: string, i: nat)
    requires i <= |text|
    requires ParseArrayAt(text, i).Ok?
    ensures WellFormed(ParseArrayAt(text, i).value.value)
    decreases |text| - i, 1
  {
    var j := SkipWs(text, i + 1);
    if CharAt(text, j) != ']' {
      ElementsWellFormed(text, j, []);
    }
  }

  lemma {:induction false} ElementsWellFormed(text: string, j: nat, acc: seq<Value>)
    requires j <= |text|
    requires forall k :: 0 <= k < |acc| ==> WellFormed(acc[k])
    requires ElementsFrom(text, j, acc).Ok?
    ensures WellFormed(ElementsFrom(text, j, acc).value.value)
    decreases |text| - j, 3
  {
    var p := ParseValueAt(text, j).value;
    ValueWellFormed(text, j);
    ElementsAfterWellFormed(text, j, acc + [p.value], p.next);
  }

  lemma {:induction false} ElementsAfterWellFormed(text: string, j: nat, acc: seq<Value>, next: nat)
    requires j < next <= |text|
    requires forall k :: 0 <= k < |acc| ==> WellFormed(acc[k])
    requires ElementsAfter(text, j, acc, next).Ok?
    ensures WellFormed(ElementsAfter(text, j, acc, next).value.value)
    decreases |text| - next, 0
  {
    var k := SkipWs(text, next);
    if CharAt(text, k) == ',' {
      ElementsWellFormed(text, k + 1, acc);
    }
  }

  lemma {:induction false} ObjectWellFormed(text: string, i: nat)
    requires i <= |text|
    requires ParseObjectAt(text, i).Ok?
    ensures WellFormed(ParseObjectAt(text, i).value.value)
    decreases |text| - i, 1
  {
    var j := SkipWs(text, i + 1);
    if CharAt(text, j) != '}' {
      MembersWellFormed(text, j, []);
    }
  }

  /** A map whose keys ascend and whose values are well-formed. */
  ghost predicate GoodEntries(es: seq<OrderedMap.Entry<Value>>) {
    OrderedMap.Sorted(es) && forall k :: 0 <= k < |es| ==> WellFormed(es[k].value)
  }

  lemma {:induction false} MemberWellFormed(text: string, j: nat, acc: seq<OrderedMap.Entry<Value>>)
    requires j <= |text|
    requires GoodEntries(acc)
    requires MemberAt(text, j, acc).Ok?
    ensures GoodEntries(MemberAt(text, j, acc).value.entries)
    decreases |text| - j, 2
  {
    var k := SkipWs(text, j);
    var key := ParseStringAt(text, k).value;
    var c := SkipWs(text, key.next);
    var start := SkipWs(text, c + 1);
    var p := ParseValueAt(text, start).value;
    ValueWellFormed(text, start);
    var m := OrderedMap.Insert(acc, key.value.s, p.value);
    OrderedMap.InsertSorted(acc, key.value.s, p.value);
    OrderedMap.InsertEntries(acc, key.value.s, p.value);
    forall n | 0 <= n < |m|
      ensures WellFormed(m[n].value)
    {
      assert m[n] in m;
    }
  }

  lemma {:induction false} MembersWellFormed(text: string, j: nat, acc: seq<OrderedMap.Entry<Value>>)
    requires j <= |text|
    requires GoodEntries(acc)
    requires MembersFrom(text, j, acc).Ok?
    ensures WellFormed(MembersFrom(text, j, acc).value.value)
    decreases |text| - j, 3
  {
    MemberWellFormed(text, j, acc);
    var st := MemberAt(text, j, acc).value;
    MembersAfterWellFormed(text, j, st);
  }

  lemma {:induction false} MembersAfterWellFormed(text: string, j: nat, st: Step)
    requires j < st.next <= |text|
    requires GoodEntries(st.entries)
    requires MembersAfter(text, j, st).Ok?
    ensures WellFormed(MembersAfter(text, j, st).value.value)
    decreases |text| - st.next, 0
  {
    var d := SkipWs(text, st.next);
    if CharAt(text, d) == ',' {
      MembersWellFormed(text, d + 1, st.entries);
    }
  }

  /** What parse returns is well-formed. */
  lemma DocumentWellFormed(text: string)
    requires ParseDocument(text).Ok?
    ensures WellFormed(ParseDocument(text).value)
  {
    ValueWellFormed(text, 0);
  }

  // -------------------------------------------------------------- document

  /** parse reads one value and never looks at what follows a literal. */
  lemma TrailingTextIgnored(t: string)
    ensures ParseDocument("null" + t) == Ok(Null)
    ensures ParseDocument("true" + t) == Ok(Bool(true))
    ensures ParseDocument("false" + t) == Ok(Bool(false))
  {
    assert Substr("null" + t, 0, 4) == "null";
    assert Substr("true" + t, 0, 4) == "true";
    assert Substr("false" + t, 0, 4) == "fals";
    assert Substr("false" + t, 0, 5) == "false";
  }
}
