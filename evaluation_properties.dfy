/** What the evaluator's functions promise: the argument split and the
    bracket match in terms of parenthesis depth, std::stoul on digit
    strings, the path forms, the operator tables and their fixed scan
    order, and the aggregates. */
module EvaluationProperties {
  import opened Errors
  import opened Text
  import opened Json
  import opened Evaluation
  import OrderedMap

  // ------------------------------------------------------- parentheses

  /** Index k of s holds a ',' outside every parenthesis. */
  predicate TopComma(s: string, k: nat)
    requires k < |s|
  {
    s[k] == ',' && Depth(s[..k]) == 0
  }

  /** The depth of s[a..k+1] is that of s[a..k] moved by s[k]. */
  lemma DepthStep(s: string, a: nat, k: nat)
    requires a <= k < |s|
    ensures Depth(s[a..k + 1]) == Depth(s[a..k]) + Delta(s[k])
  {
    assert s[a..k + 1][..k - a] == s[a..k];
  }

  /** parse_arguments' scan from j, with d the depth of s[..j], finds the
      first top-level comma at or after j. */
  lemma {:induction false} TopCommaFromIsFirst(s: string, j: nat, d: int)
    requires j <= |s| && d == Depth(s[..j])
    ensures TopCommaFrom(s, j, d).Some? ==>
      TopComma(s, TopCommaFrom(s, j, d).value) &&
      forall k :: j <= k < TopCommaFrom(s, j, d).value ==> !TopComma(s, k)
    ensures TopCommaFrom(s, j, d).None? ==> forall k :: j <= k < |s| ==> !TopComma(s, k)
    decreases |s| - j
  {
    if j < |s| && !(s[j] == ',' && d == 0) {
      DepthStep(s, 0, j);
      TopCommaFromIsFirst(s, j + 1, d + Delta(s[j]));
    }
  }

  /** FirstTopComma is the least index of a top-level comma, and None
      exactly when there is none. */
  lemma FirstTopCommaIsLeast(s: string)
    ensures FirstTopComma(s).Some? ==>
      TopComma(s, FirstTopComma(s).value) &&
      forall k :: 0 <= k < FirstTopComma(s).value ==> !TopComma(s, k)
    ensures FirstTopComma(s).None? <==> forall k :: 0 <= k < |s| ==> !TopComma(s, k)
  {
    assert s[..0] == [];
    TopCommaFromIsFirst(s, 0, 0);
  }

  /** Joining the arguments with ',' gives back the argument text. */
  lemma {:induction false} SplitJoin(s: string)
    ensures Join(SplitArgs(s), ",") == s
    decreases |s|
  {
    match FirstTopComma(s)
    case None =>
    case Some(i) =>
      SplitJoin(s[i + 1..]);
      JoinCons(s[..i], SplitArgs(s[i + 1..]), ",");
      assert s == s[..i] + "," + s[i + 1..];
  }

  /** The scan stops at its first top-level comma i, so s[..i] has none. */
  lemma {:induction false} TopCommaFromPrefix(s: string, j: nat, d: int, i: nat)
    requires j <= i < |s| && TopCommaFrom(s, j, d) == Some(i)
    ensures TopCommaFrom(s[..i], j, d).None?
    decreases i - j
  {
    if j < i {
      assert s[..i][j] == s[j];
      TopCommaFromPrefix(s, j + 1, d + Delta(s[j]), i);
    }
  }

  /** No argument holds a top-level comma. */
  lemma {:induction false} SplitPieces(s: string)
    ensures forall k :: 0 <= k < |SplitArgs(s)| ==> FirstTopComma(SplitArgs(s)[k]).None?
    decreases |s|
  {
    match FirstTopComma(s)
    case None =>
    case Some(i) =>
      TopCommaFromPrefix(s, 0, 0, i);
      SplitPieces(s[i + 1..]);
      var rest := SplitArgs(s[i + 1..]);
      assert SplitArgs(s) == [s[..i]] + rest;
      forall k | 0 <= k < |SplitArgs(s)|
        ensures FirstTopComma(SplitArgs(s)[k]).None?
      {
        if k > 0 {
          assert SplitArgs(s)[k] == rest[k - 1];
        }
      }
  }

  /** The parentheses left open in s[pos+1..m], after a '(' at pos. */
  function Nesting(s: string, pos: nat, m: nat): int
    requires pos < m <= |s|
  {
    Depth(s[pos + 1..m])
  }

  /** find_matching_bracket's scan from i with depth d > 0, d being one
      more than the nesting of s[pos+1..i]: the nesting stays at or above
      0 until the ')' that brings the depth to 0. */
  lemma {:induction false} MatchFromIsFirst(s: string, pos: nat, i: nat, d: int)
    requires pos < i <= |s| && d == 1 + Nesting(s, pos, i) && d > 0
    ensures MatchFrom(s, i, d).Ok? ==>
      var e := MatchFrom(s, i, d).value;
      s[e] == ')' && Nesting(s, pos, e) == 0 &&
      forall m :: i <= m <= e ==> Nesting(s, pos, m) >= 0
    ensures MatchFrom(s, i, d).Err? ==> forall m :: i <= m <= |s| ==> Nesting(s, pos, m) >= 0
    decreases |s| - i
  {
    if i < |s| {
      DepthStep(s, pos + 1, i);
      if d + Delta(s[i]) != 0 {
        MatchFromIsFirst(s, pos, i + 1, d + Delta(s[i]));
      }
    }
  }

  /** The bracket find_matching_bracket returns is a ')' that closes the
      '(' at pos: the text between is balanced and never closes more than
      it opens. It fails exactly when no such ')' exists. */
  lemma MatchingBracketCloses(s: string, pos: nat)
    ensures MatchingBracket(s, pos).Ok? ==>
      var e := MatchingBracket(s, pos).value;
      pos < e < |s| && s[e] == ')' && Nesting(s, pos, e) == 0 &&
      forall m :: pos < m <= e ==> Nesting(s, pos, m) >= 0
    ensures MatchingBracket(s, pos).Err? ==>
      MatchingBracket(s, pos).error == EvalError("Mismatched parentheses") &&
      forall m :: pos < m <= |s| ==> Nesting(s, pos, m) >= 0
  {
    if pos < |s| {
      assert s[pos + 1..pos + 1] == [];
      MatchFromIsFirst(s, pos, pos + 1, 1);
    }
  }

  /** The scan stops at the matching bracket: text appended after it does
      not change the result. */
  lemma {:induction false} MatchFromExtend(s: string, u: string, i: nat, d: int)
    requires MatchFrom(s, i, d).Ok?
    ensures MatchFrom(s + u, i, d) == MatchFrom(s, i, d)
    decreases |s| - i
  {
    assert (s + u)[i] == s[i];
    if d + Delta(s[i]) != 0 {
      MatchFromExtend(s, u, i + 1, d + Delta(s[i]));
    }
  }

  /** A call is decided by the text up to its matching ')': whatever
      follows is not looked at. */
  lemma CallIgnoresTail(root: Value, pow: (real, real) -> real, t: string, p: nat, u: string)
    requires 0 < p < |t| && MatchingBracket(t, p).Ok?
    ensures EvalCall(root, pow, t + u, p) == EvalCall(root, pow, t, p)
  {
    MatchFromExtend(t, u, p + 1, 1);
    var e := MatchingBracket(t, p).value;
    assert (t + u)[p + 1..e] == t[p + 1..e];
    assert (t + u)[..p] == t[..p];
  }

  // ---------------------------------------------------------- std::stoul

  /** A run of digits is its own digit prefix. */
  lemma DigitPrefixAll(ds: string)
    requires AllDigits(ds)
    ensures DigitPrefixLength(ds) == |ds|
  {
  }

  /** std::stoul of a string of digits: its decimal value, or out of range
      from 2^64 on. */
  lemma StoulDigits(ds: string)
    requires ds != [] && AllDigits(ds)
    ensures Stoul(ds) == if DigitsValue(ds) < ULongLimit then Converted(DigitsValue(ds)) else OutOfRange
  {
    DigitPrefixAll(ds);
    assert ds[0..] == ds && ds[0..|ds|] == ds;
  }

  /** std::stoul stops at the first non-digit: whatever follows the digits
      is ignored, so "1abc" converts like "1". */
  lemma StoulIgnoresTail(ds: string, rest: string)
    requires ds != [] && AllDigits(ds) && (rest == [] || !IsDigit(rest[0]))
    ensures Stoul(ds + rest) == Stoul(ds)
  {
    var s := ds + rest;
    assert IsDigit(s[0]);
    assert s[0..] == s;
    assert s[..|ds|] == ds;
    DigitPrefixAll(ds);
    assert DigitPrefixLength(s) == |ds| by {
      PrefixLengthOf(ds, rest);
    }
    StoulDigits(ds);
    assert s[0..|ds|] == ds;
  }

  lemma {:induction false} PrefixLengthOf(ds: string, rest: string)
    requires AllDigits(ds) && (rest == [] || !IsDigit(rest[0]))
    ensures DigitPrefixLength(ds + rest) == |ds|
    decreases |ds|
  {
    if ds != [] {
      assert (ds + rest)[1..] == ds[1..] + rest;
      PrefixLengthOf(ds[1..], rest);
    }
  }

  // ----------------------------------------------------------- get_value

  /** get_value on an array with a digit key: the element at the key's
      value, or the out-of-range or out-of-bounds error. */
  lemma ArrayElement(xs: seq<Value>, ds: string)
    requires ds != [] && AllDigits(ds)
    ensures GetValue(Array(xs), ds) ==
      if DigitsValue(ds) >= ULongLimit then Err(EvalError("Array index out of range: " + ds))
      else if DigitsValue(ds) >= |xs| then Err(EvalError("Array index out of bounds: " + ds))
      else Ok(xs[DigitsValue(ds)])
  {
    StoulDigits(ds);
  }

  /** get_value on an object: the member when the key is present, else
      the key-not-found error. */
  lemma ObjectMember(es: seq<OrderedMap.Entry<Value>>, key: string)
    ensures GetValue(Object(es), key).Ok? <==> key in OrderedMap.Keys(es)
    ensures GetValue(Object(es), key).Err? ==> GetValue(Object(es), key).error == EvalError("Key not found: " + key)
  {
  }

  // --------------------------------------------------------------- paths

  predicate IsIdentifier(s: string) {
    forall k :: 0 <= k < |s| ==> IsIdentChar(s[k])
  }

  /** A path that is only an identifier (possibly empty) is one get_value
      on the root. */
  lemma IdentifierPath(root: Value, path: string)
    requires IsIdentifier(path)
    ensures ResolvePath(root, path) == GetValue(root, path)
  {
    assert path[..|path|] == path;
  }

  /** The leading identifier of a path, followed by a character that
      cannot continue it, is looked up in the root; the loop goes on from
      there. */
  lemma LeadingSegment(root: Value, a: string, rest: string)
    requires IsIdentifier(a) && rest != [] && !IsIdentChar(rest[0])
    ensures ResolvePath(root, a + rest) ==
      match GetValue(root, a)
      case Err(e) => Err(e)
      case Ok(c) => PathFrom(a + rest, |a|, c)
  {
    var path := a + rest;
    assert forall k :: 0 <= k < |a| ==> path[k] == a[k];
    assert path[|a|] == rest[0];
    assert IdentEnd(path, 0) == |a|;
    assert path[..|a|] == a;
  }

  /** A last segment ends the loop with its value or its error. */
  lemma LastSegment(path: string, pos: nat, c: Value)
    requires pos < |path|
    requires SegmentAt(path, pos, c).Ok? ==> SegmentAt(path, pos, c).value.next == |path|
    ensures PathFrom(path, pos, c) ==
      match SegmentAt(path, pos, c)
      case Err(e) => Err(e)
      case Ok(st) => Ok(st.value)
  {
  }

  /** a.b: a looked up in the root, which must give an object, then b. */
  lemma DottedPath(root: Value, a: string, b: string)
    requires IsIdentifier(a) && IsIdentifier(b)
    ensures ResolvePath(root, a + "." + b) ==
      match GetValue(root, a)
      case Err(e) => Err(e)
      case Ok(c) =>
        if !c.IsObject() then Err(EvalError("Invalid key access on non-object type: " + b))
        else GetValue(c, b)
  {
    var path := a + "." + b;
    assert path == a + ("." + b);
    LeadingSegment(root, a, "." + b);
    assert path[|a|] == '.' && path[|a| + 1..] == b;
    match GetValue(root, a)
    case Err(e) =>
    case Ok(c) =>
      LastKey(path, |a|, b, c);
  }

  /** A last segment .b with b an identifier. */
  lemma LastKey(path: string, pos: nat, b: string, c: Value)
    requires pos < |path| && path[pos] == '.' && path[pos + 1..] == b && IsIdentifier(b)
    ensures PathFrom(path, pos, c) ==
      if !c.IsObject() then Err(EvalError("Invalid key access on non-object type: " + b))
      else GetValue(c, b)
  {
    assert IdentEnd(path, pos + 1) == |path| by {
      assert forall k :: pos + 1 <= k < |path| ==> path[k] == b[k - pos - 1];
    }
    assert path[pos + 1..|path|] == b;
    LastSegment(path, pos, c);
  }

  /** a[n] with n a run of digits: a looked up in the root, n converted by
      std::stoul (whose out_of_range escapes before any type test), then
      an array and a bound are required. */
  lemma IndexedPath(root: Value, a: string, ds: string)
    requires IsIdentifier(a) && ds != [] && AllDigits(ds)
    ensures ResolvePath(root, a + "[" + ds + "]") ==
      match GetValue(root, a)
      case Err(e) => Err(e)
      case Ok(c) =>
        if DigitsValue(ds) >= ULongLimit then Err(Abort("std::out_of_range from std::stoul"))
        else if !c.IsArray() then Err(EvalError("Invalid array index access on non-array type."))
        else if DigitsValue(ds) >= |c.elements| then Err(EvalError("Array index out of bounds: " + ds))
        else Ok(c.elements[DigitsValue(ds)])
  {
    var path := a + "[" + ds + "]";
    assert path == a + ("[" + ds + "]");
    LeadingSegment(root, a, "[" + ds + "]");
    assert path[|a|] == '[' && path[|a| + 1..|path| - 1] == ds && path[|path| - 1] == ']';
    match GetValue(root, a)
    case Err(e) =>
    case Ok(c) =>
      ClosedIndex(path, |a|, ds, c);
  }

  /** A last segment [n] with n a run of digits. */
  lemma ClosedIndex(path: string, pos: nat, ds: string, c: Value)
    requires pos + |ds| + 2 == |path| && path[pos] == '[' && path[|path| - 1] == ']'
    requires path[pos + 1..|path| - 1] == ds && ds != [] && AllDigits(ds)
    ensures PathFrom(path, pos, c) ==
      if DigitsValue(ds) >= ULongLimit then Err(Abort("std::out_of_range from std::stoul"))
      else if !c.IsArray() then Err(EvalError("Invalid array index access on non-array type."))
      else if DigitsValue(ds) >= |c.elements| then Err(EvalError("Array index out of bounds: " + ds))
      else Ok(c.elements[DigitsValue(ds)])
  {
    ClosingBracket(path, pos, ds);
    assert SegmentAt(path, pos, c) == IndexInto(ds, |path|, c);
    DigitIndex(ds, |path|, c);
    LastSegment(path, pos, c);
  }

  /** The ']' after a run of digits closes the segment. */
  lemma ClosingBracket(path: string, pos: nat, ds: string)
    requires pos + |ds| + 2 == |path| && path[|path| - 1] == ']'
    requires path[pos + 1..|path| - 1] == ds && AllDigits(ds)
    ensures BracketEnd(path, pos + 1) == |path| - 1
  {
    assert forall k :: pos + 1 <= k < |path| - 1 ==> path[k] == ds[k - pos - 1];
  }

  /** A run of digits as the index text. */
  lemma DigitIndex(ds: string, next: nat, c: Value)
    requires ds != [] && AllDigits(ds)
    ensures IndexInto(ds, next, c) ==
      if DigitsValue(ds) >= ULongLimit then Err(Abort("std::out_of_range from std::stoul"))
      else if !c.IsArray() then Err(EvalError("Invalid array index access on non-array type."))
      else if DigitsValue(ds) >= |c.elements| then Err(EvalError("Array index out of bounds: " + ds))
      else Ok(Position(next, c.elements[DigitsValue(ds)]))
  {
    StoulDigits(ds);
  }

  /** a[n without its ']': the segment is not closed. */
  lemma UnclosedIndex(root: Value, a: string, ix: string)
    requires IsIdentifier(a) && forall k :: 0 <= k < |ix| ==> ix[k] != ']'
    ensures ResolvePath(root, a + "[" + ix) ==
      match GetValue(root, a)
      case Err(e) => Err(e)
      case Ok(_) => Err(EvalError("Expected ']' for array index access."))
  {
    var path := a + "[" + ix;
    assert path == a + ("[" + ix);
    LeadingSegment(root, a, "[" + ix);
    assert BracketEnd(path, |a| + 1) == |path| by {
      assert forall k :: |a| + 1 <= k < |path| ==> path[k] == ix[k - |a| - 1];
    }
  }

  // ----------------------------------------------------------- operators

  /** `&&` on two numbers is true exactly when both are non-zero; a zero
      left operand decides without converting the right one, and a
      non-number that is converted fails in as_number. */
  lemma AndTable(left: Value, right: Value)
    ensures left.IsNumber() && right.IsNumber() ==>
      AndOp(left, right) == Ok(Bool(left.n != 0.0 && right.n != 0.0))
    ensures left == Number(0.0) ==> AndOp(left, right) == Ok(Bool(false))
    ensures AndOp(left, right).Err? <==>
      !left.IsNumber() || (left.n != 0.0 && !right.IsNumber())
    ensures AndOp(left, right).Err? ==> AndOp(left, right).error == JSONError("Value is not a number")
  {
  }

  /** `||` on two numbers is true exactly when one is non-zero; a
      non-zero left operand decides without converting the right one. */
  lemma OrTable(left: Value, right: Value)
    ensures left.IsNumber() && right.IsNumber() ==>
      OrOp(left, right) == Ok(Bool(left.n != 0.0 || right.n != 0.0))
    ensures left.IsNumber() && left.n != 0.0 ==> OrOp(left, right) == Ok(Bool(true))
    ensures OrOp(left, right).Err? <==>
      !left.IsNumber() || (left.n == 0.0 && !right.IsNumber())
    ensures OrOp(left, right).Err? ==> OrOp(left, right).error == JSONError("Value is not a number")
  {
  }

  /** `+ - * /` on numbers, the operand check and division by zero. */
  lemma ArithTable(op: char, left: Value, right: Value)
    requires op in ArithChars
    ensures !left.IsNumber() || !right.IsNumber() ==>
      ArithOp(op, left, right) == Err(EvalError("Arithmetic operations require numeric operands"))
    ensures left.IsNumber() && right.IsNumber() ==>
      ArithOp(op, left, right) ==
        match op
        case '+' => Ok(Number(left.n + right.n))
        case '-' => Ok(Number(left.n - right.n))
        case '*' => Ok(Number(left.n * right.n))
        case _ =>
          if right.n == 0.0 then Err(EvalError("Division by zero")) else Ok(Number(left.n / right.n))
  {
    assert op == '+' || op == '-' || op == '*' || op == '/';
    if op == '*' && left.IsNumber() && right.IsNumber() {
      var r := ArithOp(op, left, right);
      assert r.Ok? && r.value.Number? && r.value.n == left.n * right.n;
    }
  }

  /** static_cast<int> truncates toward zero: the result lies between 0
      and x, less than 1 away from x. */
  lemma TruncateTowardZero(x: real)
    ensures x >= 0.0 ==> 0 <= Truncate(x) && Truncate(x) as real <= x
    ensures x < 0.0 ==> x <= Truncate(x) as real && Truncate(x) <= 0
    ensures -1.0 < x - Truncate(x) as real < 1.0
  {
  }

  /** C++ int / on two ints: the quotient truncated toward zero. */
  function TruncQuot(a: int, b: int): int
    requires b != 0
  {
    var m := if b < 0 then -b else b;
    var q := if a >= 0 then a / m else -((-a) / m);
    if b < 0 then -q else q
  }

  /** C++ % is the remainder of C++ /: a == (a / b) * b + a % b, the
      remainder has the sign of the dividend and is smaller than the
      divisor in magnitude. */
  lemma TruncRemDivision(a: int, b: int)
    requires b != 0
    ensures a == TruncQuot(a, b) * b + TruncRem(a, b)
    ensures a >= 0 ==> 0 <= TruncRem(a, b)
    ensures a <= 0 ==> TruncRem(a, b) <= 0
    ensures -b < TruncRem(a, b) < b || b < TruncRem(a, b) < -b
  {
    var m := if b < 0 then -b else b;
    if a >= 0 {
      assert a == (a / m) * m + a % m;
    } else {
      assert -a == ((-a) / m) * m + (-a) % m;
    }
  }

  /** `-7 % 2` is -1, as in C++, where Dafny's own % would give 1. */
  lemma ModTakesDividendSign()
    ensures ModOp(Number(-7.0), Number(2.0)) == Ok(Number(-1.0))
    ensures ModOp(Number(7.5), Number(-2.0)) == Ok(Number(1.0))
  {
    assert Truncate(-7.0) == -7 && Truncate(2.0) == 2;
    assert Truncate(7.5) == 7 && Truncate(-2.0) == -2;
  }

  /** std::round: an integer at most 1/2 away, halfway cases away from
      zero, symmetric around 0. */
  lemma RoundHalfAwayFromZero(x: real)
    ensures RoundHalfAway(x) == RoundHalfAway(x).Floor as real
    ensures -0.5 <= RoundHalfAway(x) - x <= 0.5
    ensures RoundHalfAway(-x) == -RoundHalfAway(x)
    ensures x - x.Floor as real == 0.5 ==>
      (x > 0.0 ==> RoundHalfAway(x) == x + 0.5) && (x < 0.0 ==> RoundHalfAway(x) == x - 0.5)
  {
    RoundNear(x);
    RoundOdd(x);
    if x - x.Floor as real == 0.5 {
      RoundHalfway(x);
    }
  }

  lemma RoundNear(x: real)
    ensures RoundHalfAway(x) == RoundHalfAway(x).Floor as real
    ensures -0.5 <= RoundHalfAway(x) - x <= 0.5
  {
    if x >= 0.0 {
      var k := (x + 0.5).Floor;
      FloorBounds(x + 0.5);
      assert RoundHalfAway(x) == k as real;
      IntegerFloor(k);
    } else {
      var k := (-x + 0.5).Floor;
      FloorBounds(-x + 0.5);
      assert RoundHalfAway(x) == (-k) as real;
      IntegerFloor(-k);
    }
  }

  lemma IntegerFloor(k: int)
    ensures (k as real).Floor == k
  {
  }

  lemma RoundHalfway(x: real)
    requires x - x.Floor as real == 0.5
    ensures x > 0.0 ==> RoundHalfAway(x) == x + 0.5
    ensures x < 0.0 ==> RoundHalfAway(x) == x - 0.5
  {
    if x > 0.0 {
      assert (x + 0.5).Floor == x.Floor + 1;
    } else if x < 0.0 {
      assert (-x + 0.5).Floor == -x.Floor;
    }
  }

  lemma FloorBounds(y: real)
    ensures y.Floor as real <= y < y.Floor as real + 1.0
    ensures (y.Floor as real).Floor == y.Floor
  {
  }

  lemma RoundOdd(x: real)
    ensures RoundHalfAway(-x) == -RoundHalfAway(x)
  {
    if x > 0.0 {
      assert -(-x) + 0.5 == x + 0.5;
    } else if x < 0.0 {
      assert -x > 0.0;
    }
  }

  // ---------------------------------------------------------- aggregates

  /** The minimum is one of the numbers and at most each of them. */
  lemma {:induction false} MinOfIsLeast(xs: seq<real>)
    requires |xs| > 0
    ensures MinOf(xs) in xs
    ensures forall i :: 0 <= i < |xs| ==> MinOf(xs) <= xs[i]
    decreases |xs|
  {
    if |xs| > 1 {
      var init := xs[..|xs| - 1];
      MinOfIsLeast(init);
      assert forall i :: 0 <= i < |xs| - 1 ==> xs[i] == init[i];
      assert MinOf(init) in xs by {
        var j :| 0 <= j < |init| && init[j] == MinOf(init);
        assert xs[j] == MinOf(init);
      }
    }
  }

  /** The maximum is one of the numbers and at least each of them. */
  lemma {:induction false} MaxOfIsGreatest(xs: seq<real>)
    requires |xs| > 0
    ensures MaxOf(xs) in xs
    ensures forall i :: 0 <= i < |xs| ==> xs[i] <= MaxOf(xs)
    decreases |xs|
  {
    if |xs| > 1 {
      var init := xs[..|xs| - 1];
      MaxOfIsGreatest(init);
      assert forall i :: 0 <= i < |xs| - 1 ==> xs[i] == init[i];
      assert MaxOf(init) in xs by {
        var j :| 0 <= j < |init| && init[j] == MaxOf(init);
        assert xs[j] == MaxOf(init);
      }
    }
  }

  /** The sum lies between |xs| times a lower and an upper bound. */
  lemma {:induction false} SumOfBounds(xs: seq<real>, lo: real, hi: real)
    requires forall i :: 0 <= i < |xs| ==> lo <= xs[i] <= hi
    ensures |xs| as real * lo <= SumOf(xs) <= |xs| as real * hi
    decreases |xs|
  {
    if |xs| > 0 {
      var init := xs[..|xs| - 1];
      assert forall i :: 0 <= i < |init| ==> init[i] == xs[i];
      SumOfBounds(init, lo, hi);
    }
  }

  /** avg lies between min and max. */
  lemma AvgBetween(xs: seq<real>)
    requires |xs| > 0
    ensures Aggregated(Min, xs).Ok? && Aggregated(Max, xs).Ok? && Aggregated(Avg, xs).Ok?
    ensures Aggregated(Min, xs).value.n <= Aggregated(Avg, xs).value.n <= Aggregated(Max, xs).value.n
  {
    MinOfIsLeast(xs);
    MaxOfIsGreatest(xs);
    SumOfBounds(xs, MinOf(xs), MaxOf(xs));
    DivideBetween(MinOf(xs), SumOf(xs), MaxOf(xs), |xs| as real);
  }

  /** A total of n values between lo and hi, divided by n, stays between them. */
  lemma DivideBetween(lo: real, total: real, hi: real, n: real)
    requires n > 0.0 && n * lo <= total <= n * hi
    ensures lo <= total / n <= hi
  {
    assert total / n - lo == (total - n * lo) / n;
    assert hi - total / n == (n * hi - total) / n;
  }

  /** Results that all evaluated to a number or an array of numbers give
      numbers. */
  lemma {:induction false} NumbersAllAccepted(results: seq<Result<Value>>, name: string)
    requires forall i :: 0 <= i < |results| ==> results[i].Ok? && Contribution(results[i].value, name).Ok?
    ensures Numbers(results, name).Ok?
    decreases |results|
  {
    if |results| > 0 {
      var init := results[..|results| - 1];
      assert forall i :: 0 <= i < |init| ==> init[i] == results[i];
      NumbersAllAccepted(init, name);
    }
  }

  /** The aggregates fail with the first argument, in argument order, that
      failed to evaluate or is neither a number nor an array of numbers;
      later arguments do not matter. */
  lemma NumbersFirstError(results: seq<Result<Value>>, name: string, m: nat)
    requires m < |results|
    requires forall i :: 0 <= i < m ==> results[i].Ok? && Contribution(results[i].value, name).Ok?
    requires results[m].Err? || Contribution(results[m].value, name).Err?
    ensures Numbers(results, name) ==
      if results[m].Err? then Err(results[m].error) else Err(EvalError(name + " requires numeric values"))
  {
    var pre := results[..m + 1];
    assert pre[..m] == results[..m];
    assert forall i :: 0 <= i < m ==> results[..m][i] == results[i];
    NumbersAllAccepted(results[..m], name);
    assert pre[m] == results[m];
    NumbersPrefixError(results, name, m + 1);
  }

  /** Number arguments contribute themselves, in argument order. */
  lemma {:induction false} NumbersOfNumbers(results: seq<Result<Value>>, name: string, xs: seq<real>)
    requires |results| == |xs| && forall i :: 0 <= i < |xs| ==> results[i] == Ok(Number(xs[i]))
    ensures Numbers(results, name) == Ok(xs)
    decreases |xs|
  {
    if |xs| > 0 {
      var k := |xs| - 1;
      assert forall i :: 0 <= i < k ==> results[..k][i] == results[i];
      NumbersOfNumbers(results[..k], name, xs[..k]);
      assert xs[..k] + [xs[k]] == xs;
    }
  }

  // ---------------------------------------------------------- evaluation

  /** Find of a pattern whose first character s does not contain. */
  lemma FindAbsent(s: string, pat: string)
    requires pat != [] && forall k :: 0 <= k < |s| ==> s[k] != pat[0]
    ensures Find(s, pat).None?
  {
    forall v: nat | OccursAt(s, pat, v)
      ensures v < |s| && s[v] == pat[0]
    {
      assert s[v..v + |pat|][0] == s[v];
    }
  }

  /** An expression that is a bare identifier, digits included, is a
      lookup in the root: there are no number literals. */
  lemma IdentifierEval(root: Value, pow: (real, real) -> real, s: string)
    requires IsIdentifier(s)
    ensures Eval(root, pow, s) == GetValue(root, s)
  {
    IdentifierScans(s);
    IdentifierPath(root, s);
  }

  /** None of the evaluator's scans finds anything in an identifier. */
  lemma IdentifierScans(s: string)
    requires IsIdentifier(s)
    ensures Trim(s) == s && Find(s, "(").None? && Find(s, "**").None?
    ensures Find(s, "&&").None? && Find(s, "||").None? && Find(s, "%").None?
    ensures FirstOf(s, ArithChars).None?
  {
    TrimIdentity(s);
    FindAbsent(s, "(");
    FindAbsent(s, "**");
    FindAbsent(s, "&&");
    FindAbsent(s, "||");
    FindAbsent(s, "%");
  }

  /** "1" against an object is the key "1". */
  lemma DigitsAreKeys(pow: (real, real) -> real)
    ensures Eval(Object([]), pow, "1") == Err(EvalError("Key not found: 1"))
  {
    assert IsIdentifier("1") by {
      assert "1"[0] == '1';
    }
    IdentifierEval(Object([]), pow, "1");
    assert GetValue(Object([]), "1") == Err(EvalError("Key not found: " + "1"));
    assert "Key not found: " + "1" == "Key not found: 1";
  }

  /** The characters that make an earlier scan than the arithmetic one
      apply, or make the text a call. */
  predicate NoEarlierOperator(y: string) {
    forall k :: 0 <= k < |y| ==> y[k] != '(' && y[k] != '*' && y[k] != '&' && y[k] != '|' && y[k] != '%'
  }

  lemma OccursPair(s: string, pat: string, v: nat)
    requires |pat| == 2 && OccursAt(s, pat, v)
    ensures v + 1 < |s| && s[v] == pat[0] && s[v + 1] == pat[1]
  {
    assert s[v..v + 2][0] == s[v] && s[v..v + 2][1] == s[v + 1];
  }

  /** Find of a two-character pattern that occurs nowhere in s. */
  lemma PairAbsent(s: string, pat: string)
    requires |pat| == 2
    requires forall k :: 0 <= k < |s| - 1 ==> !(s[k] == pat[0] && s[k + 1] == pat[1])
    ensures Find(s, pat).None?
  {
    if Find(s, pat).Some? {
      OccursPair(s, pat, Find(s, pat).value);
      assert false;
    }
  }

  /** The characters of a path operand: none that makes the text a call
      or that any operator scan looks for. */
  predicate Operatorless(x: string) {
    forall k :: 0 <= k < |x| ==>
      x[k] != '(' && x[k] != '&' && x[k] != '|' && x[k] != '%' && x[k] !in ArithChars
  }

  /** e is x op y with x operator-free, op at p an arithmetic character
      and y free of the characters of the earlier scans. */
  predicate ArithmeticAt(e: string, p: nat) {
    p < |e| && Operatorless(e[..p]) && e[p] in ArithChars && NoEarlierOperator(e[p + 1..])
  }

  /** The characters of x op y: those of x, then op, then those of y. */
  lemma ArithmeticChars(e: string, p: nat)
    requires ArithmeticAt(e, p)
    ensures forall k :: 0 <= k < |e| && k != p ==>
      (e[k] != '(' && e[k] != '*' && e[k] != '&' && e[k] != '|' && e[k] != '%' && e[k] !in ArithChars) || p < k
  {
    assert forall k :: 0 <= k < p ==> e[k] == e[..p][k];
    assert forall k :: p < k < |e| ==> e[k] == e[p + 1..][k - p - 1];
  }

  /** In x op y no scan before the arithmetic one finds anything, the
      trimmed text has no '(', and the first arithmetic character is op. */
  lemma ArithmeticScans(e: string, p: nat)
    requires ArithmeticAt(e, p)
    ensures Find(Trim(e), "(").None? && Find(e, "**").None? && Find(e, "&&").None?
    ensures Find(e, "||").None? && Find(e, "%").None? && FirstOf(e, ArithChars) == Some(p)
  {
    ArithmeticChars(e, p);
    assert forall k :: p < k < |e| ==> e[k] != '(' && e[k] != '*' && e[k] != '&' && e[k] != '|' && e[k] != '%' by {
      assert forall k :: p < k < |e| ==> e[k] == e[p + 1..][k - p - 1];
    }
    TrimNoOpen(e);
    PairAbsent(e, "**");
    FindAbsent(e, "&&");
    FindAbsent(e, "||");
    FindAbsent(e, "%");
  }

  lemma TrimNoOpen(e: string)
    requires forall k :: 0 <= k < |e| ==> e[k] != '('
    ensures Find(Trim(e), "(").None?
  {
    var t := Trim(e);
    assert forall k :: 0 <= k < |t| ==> t[k] == e[TrimStart(e) + k];
    FindAbsent(t, "(");
  }

  /** An operator-free text is a path: its trimmed text resolved from
      the root. */
  lemma PathOperand(root: Value, pow: (real, real) -> real, x: string)
    requires Operatorless(x)
    ensures Eval(root, pow, x) == ResolvePath(root, Trim(x))
  {
    TrimNoOpen(x);
    FindAbsent(x, "**");
    FindAbsent(x, "&&");
    FindAbsent(x, "||");
    FindAbsent(x, "%");
    assert FirstOf(x, ArithChars).None?;
  }

  /** Arithmetic has no precedence: with one arithmetic character first
      and nothing an earlier scan looks for, the expression splits there;
      everything after it is the right operand, the left is evaluated
      first. */
  lemma TextualPrecedence(root: Value, pow: (real, real) -> real, e: string, p: nat)
    requires ArithmeticAt(e, p)
    ensures Eval(root, pow, e) == Operands(pow, Arith(e[p]), Eval(root, pow, e[..p]), Eval(root, pow, e[p + 1..]))
  {
    ArithmeticScans(e, p);
    assert Eval(root, pow, e) == EvalOperators(root, pow, e, Trim(e));
    assert Eval(root, pow, e) == EvalBinary(root, pow, e, p, Arith(e[p]));
  }

  /** On two numbers, + - * / compute in the reals; division by zero is
      the evaluator's error. */
  lemma ArithmeticOnNumbers(root: Value, pow: (real, real) -> real, e: string, p: nat, u: real, v: real)
    requires ArithmeticAt(e, p)
    requires Eval(root, pow, e[..p]) == Ok(Number(u)) && Eval(root, pow, e[p + 1..]) == Ok(Number(v))
    ensures Eval(root, pow, e) ==
      if e[p] == '+' then Ok(Number(u + v))
      else if e[p] == '-' then Ok(Number(u - v))
      else if e[p] == '*' then Ok(Number(u * v))
      else if v == 0.0 then Err(EvalError("Division by zero"))
      else Ok(Number(u / v))
  {
    NumbersCombined(root, pow, e, p, u, v);
    NumberOperands(pow, e[p], u, v);
  }

  lemma NumbersCombined(root: Value, pow: (real, real) -> real, e: string, p: nat, u: real, v: real)
    requires ArithmeticAt(e, p)
    requires Eval(root, pow, e[..p]) == Ok(Number(u)) && Eval(root, pow, e[p + 1..]) == Ok(Number(v))
    ensures Eval(root, pow, e) == Operands(pow, Arith(e[p]), Ok(Number(u)), Ok(Number(v)))
  {
    TextualPrecedence(root, pow, e, p);
  }


  /** An arithmetic operator on two evaluated numbers. */
  lemma NumberOperands(pow: (real, real) -> real, op: char, x: real, y: real)
    requires op in ArithChars
    ensures Operands(pow, Arith(op), Ok(Number(x)), Ok(Number(y))) ==
      if op == '+' then Ok(Number(x + y))
      else if op == '-' then Ok(Number(x - y))
      else if op == '*' then Ok(Number(x * y))
      else if y == 0.0 then Err(EvalError("Division by zero"))
      else Ok(Number(x / y))
  {
    var r := Operands(pow, Arith(op), Ok(Number(x)), Ok(Number(y)));
    assert r == ArithOp(op, Number(x), Number(y));
    if op == '*' {
      assert r.Ok? && r.value.Number? && r.value.n == x * y;
    }
  }

  /** x*y+z, with x and y operator-free and nothing an earlier scan looks
      for in z, is x*(y+z): the '*' splits first and y+z is its right
      operand. */
  lemma TimesBeforePlus(root: Value, pow: (real, real) -> real, x: string, y: string, z: string)
    requires Operatorless(x) && Operatorless(y) && NoEarlierOperator(z)
    ensures Eval(root, pow, x + "*" + y + "+" + z) ==
      Operands(pow, Arith('*'), Eval(root, pow, x), Operands(pow, Arith('+'), Eval(root, pow, y), Eval(root, pow, z)))
  {
    var r := y + "+" + z;
    var e := x + "*" + r;
    assert x + "*" + y + "+" + z == e;
    assert r[..|y|] == y && r[|y|] == '+' && r[|y| + 1..] == z;
    assert ArithmeticAt(r, |y|);
    assert NoEarlierOperator(r) by {
      assert forall k :: 0 <= k < |y| ==> r[k] == y[k];
      assert forall k :: |y| < k < |r| ==> r[k] == z[k - |y| - 1];
    }
    assert e[..|x|] == x && e[|x|] == '*' && e[|x| + 1..] == r;
    assert ArithmeticAt(e, |x|);
    TextualPrecedence(root, pow, r, |y|);
    TextualPrecedence(root, pow, e, |x|);
  }

  /** With numbers a, b, c under x, y and z, x*y+z is a * (b + c), not
      a * b + c. */
  lemma TimesBeforePlusNumbers(root: Value, pow: (real, real) -> real, x: string, y: string, z: string, a: real, b: real, c: real)
    requires Operatorless(x) && Operatorless(y) && NoEarlierOperator(z)
    requires Eval(root, pow, x) == Ok(Number(a)) && Eval(root, pow, y) == Ok(Number(b)) && Eval(root, pow, z) == Ok(Number(c))
    ensures Eval(root, pow, x + "*" + y + "+" + z) == Ok(Number(a * (b + c)))
  {
    TimesBeforePlus(root, pow, x, y, z);
    Plus(pow, b, c);
    ProductOfSum(pow, a, b, c);
  }

  /** The expression of the evaluator's arithmetic test: three paths, the
      '*' splitting first, y+z its right operand. */
  lemma PathArithmetic(root: Value, pow: (real, real) -> real)
    ensures Eval(root, pow, "a.b[2] * a.b[3] + a.b[4]") ==
      Operands(pow, Arith('*'), Eval(root, pow, "a.b[2] "),
        Operands(pow, Arith('+'), Eval(root, pow, " a.b[3] "), Eval(root, pow, " a.b[4]")))
  {
    PathTexts();
    TimesBeforePlus(root, pow, "a.b[2] ", " a.b[3] ", " a.b[4]");
  }

  /** Each operand of that expression is its path without the blanks. */
  lemma PathArithmeticOperands(root: Value, pow: (real, real) -> real)
    ensures Eval(root, pow, "a.b[2] ") == ResolvePath(root, "a.b[2]")
    ensures Eval(root, pow, " a.b[3] ") == ResolvePath(root, "a.b[3]")
    ensures Eval(root, pow, " a.b[4]") == ResolvePath(root, "a.b[4]")
  {
    PathTexts();
    BlankAround(root, pow, "", "a.b[2]", " ");
    BlankAround(root, pow, " ", "a.b[3]", " ");
    BlankAround(root, pow, " ", "a.b[4]", "");
  }

  lemma PathTexts()
    ensures "a.b[2] " + "*" + " a.b[3] " + "+" + " a.b[4]" == "a.b[2] * a.b[3] + a.b[4]"
    ensures "a.b[2] " == "" + "a.b[2]" + " " && " a.b[3] " == " " + "a.b[3]" + " " && " a.b[4]" == " " + "a.b[4]" + ""
    ensures Operatorless("a.b[2]") && Operatorless("a.b[3]") && Operatorless("a.b[4]")
    ensures Operatorless("a.b[2] ") && Operatorless(" a.b[3] ") && NoEarlierOperator(" a.b[4]")
  {
  }

  /** An operator-free path with at most one blank on either side is
      evaluated as the path itself. */
  lemma BlankAround(root: Value, pow: (real, real) -> real, before: string, path: string, after: string)
    requires before == "" || before == " "
    requires after == "" || after == " "
    requires path != [] && !IsBlank(path[0]) && !IsBlank(path[|path| - 1]) && Operatorless(path)
    ensures Operatorless(before + path + after)
    ensures Eval(root, pow, before + path + after) == ResolvePath(root, path)
  {
    BlankTrim(before, path, after);
    PathOperand(root, pow, before + path + after);
  }

  lemma BlankTrim(before: string, path: string, after: string)
    requires before == "" || before == " "
    requires after == "" || after == " "
    requires path != [] && !IsBlank(path[0]) && !IsBlank(path[|path| - 1]) && Operatorless(path)
    ensures Operatorless(before + path + after)
    ensures Trim(before + path + after) == path
  {
    var x := before + path + after;
    OperatorlessAround(before, path, after);
    BlankStart(before, path + after);
    assert x == before + (path + after);
    BlankEnd(before + path, after);
    assert x[|before|..|before| + |path|] == path;
  }

  lemma OperatorlessAround(before: string, path: string, after: string)
    requires before == "" || before == " "
    requires after == "" || after == " "
    requires Operatorless(path)
    ensures Operatorless(before + path + after)
  {
    var x := before + path + after;
    assert forall k :: |before| <= k < |before| + |path| ==> x[k] == path[k - |before|];
  }

  lemma BlankStart(before: string, rest: string)
    requires before == "" || before == " "
    requires rest != [] && !IsBlank(rest[0])
    ensures TrimStart(before + rest) == |before|
  {
    if before == " " {
      assert (before + rest)[1..] == rest;
    }
  }

  lemma BlankEnd(rest: string, after: string)
    requires after == "" || after == " "
    requires rest != [] && !IsBlank(rest[|rest| - 1])
    ensures TrimEnd(rest + after) == |rest|
  {
    if after == " " {
      assert (rest + after)[..|rest|] == rest;
    }
  }

  /** '*' applied to x and the number y + z. */
  lemma ProductOfSum(pow: (real, real) -> real, x: real, y: real, z: real)
    ensures Operands(pow, Arith('*'), Ok(Number(x)), Ok(Number(y + z))) == Ok(Number(x * (y + z)))
  {
    var product := Operands(pow, Arith('*'), Ok(Number(x)), Ok(Number(y + z)));
    assert product.Ok? && product.value.Number?;
    assert product.value.n == x * (y + z);
  }

  lemma Plus(pow: (real, real) -> real, y: real, z: real)
    ensures Operands(pow, Arith('+'), Ok(Number(y)), Ok(Number(z))) == Ok(Number(y + z))
  {
  }

  /** x/y with a number under x and zero under y is the division-by-zero
      error. */
  lemma DivisionByZero(root: Value, pow: (real, real) -> real, x: string, y: string, u: real)
    requires Operatorless(x) && NoEarlierOperator(y)
    requires Eval(root, pow, x) == Ok(Number(u)) && Eval(root, pow, y) == Ok(Number(0.0))
    ensures Eval(root, pow, x + "/" + y) == Err(EvalError("Division by zero"))
  {
    var e := x + "/" + y;
    assert e[..|x|] == x && e[|x|] == '/' && e[|x| + 1..] == y;
    assert ArithmeticAt(e, |x|);
    NumbersCombined(root, pow, e, |x|, u, 0.0);
    DivideByZero(pow, u);
  }

  lemma DivideByZero(pow: (real, real) -> real, x: real)
    ensures Operands(pow, Arith('/'), Ok(Number(x)), Ok(Number(0.0))) == Err(EvalError("Division by zero"))
  {
  }

  /** "min()" and the other aggregates with nothing between the brackets
      have one argument, the empty text, which is looked up as a key. */
  lemma EmptyArgument(root: Value, pow: (real, real) -> real, e: string)
    requires |e| >= 2 && e[|e| - 2] == '(' && e[|e| - 1] == ')' && AggregateKind(e[..|e| - 2]).Some?
    ensures Eval(root, pow, e) == AggregateOf(AggregateKind(e[..|e| - 2]).value, [GetValue(root, "")])
  {
    var p := |e| - 2;
    var name := e[..p];
    EmptyCall(e);
    assert e[p + 1..p + 1] == "";
    assert SplitArgs("") == [""];
    IdentifierEval(root, pow, "");
    assert Outcomes(root, pow, [""]) == [GetValue(root, "")] by {
      assert [""][..0] == [];
    }
    assert EvalCall(root, pow, e, p) == ApplyFunction(root, pow, name, [""]);
  }

  /** name() for a three-letter name: the call's '(' is the first one and
      is closed by the last character. */
  lemma EmptyCall(e: string)
    requires |e| >= 2 && e[|e| - 2] == '(' && e[|e| - 1] == ')' && AggregateKind(e[..|e| - 2]).Some?
    ensures |e| == 5 && Trim(e) == e && Find(e, "(") == Some(3) && MatchingBracket(e, 3) == Ok(4)
  {
    var p := |e| - 2;
    var name := e[..p];
    assert name == "min" || name == "max" || name == "sum" || name == "avg";
    assert p == 3;
    assert !IsBlank(e[0]) by {
      assert e[0] == name[0];
    }
    TrimIdentity(e);
    assert !OccursAt(e, "(", 0) && !OccursAt(e, "(", 1) && !OccursAt(e, "(", 2) by {
      assert e[0] == name[0] && e[1] == name[1] && e[2] == name[2];
      assert e[0..1][0] == e[0] && e[1..2][0] == e[1] && e[2..3][0] == e[2];
    }
    assert OccursAt(e, "(", p) by {
      assert e[p..p + 1] == "(";
    }
    assert Find(e, "(") == Some(p);
    assert MatchingBracket(e, p) == Ok(p + 1);
  }

  // ----------------------------------------------------------- functions

  /** The name is checked before the arguments: an unknown name fails
      whatever the arguments; size, count, abs and round need exactly
      one argument; otherwise the argument's value or error decides. */
  lemma FunctionDispatch(root: Value, pow: (real, real) -> real, name: string, args: seq<string>)
    ensures AggregateKind(name).None? && !IsUnary(name) ==>
      ApplyFunction(root, pow, name, args) == Err(EvalError("Unknown function: " + name))
    ensures IsUnary(name) ==> AggregateKind(name).None?
    ensures IsUnary(name) && |args| != 1 ==>
      ApplyFunction(root, pow, name, args) == Err(EvalError(name + " requires exactly one argument"))
    ensures IsUnary(name) && |args| == 1 ==>
      ApplyFunction(root, pow, name, args) ==
        if Eval(root, pow, args[0]).Err? then Err(Eval(root, pow, args[0]).error)
        else UnaryOf(name, Eval(root, pow, args[0]).value)
  {
  }

  /** The aggregates' outcomes: argument i's is what evaluating argument
      i gives, so they are in argument order. */
  lemma {:induction false} OutcomeAt(root: Value, pow: (real, real) -> real, args: seq<string>, i: nat)
    requires i < |args|
    ensures Outcomes(root, pow, args)[i] == Eval(root, pow, args[i])
    decreases |args|
  {
    if i < |args| - 1 {
      var init := args[..|args| - 1];
      OutcomeAt(root, pow, init, i);
      assert init[i] == args[i];
    }
  }

  /** size accepts objects, arrays and strings, count only arrays and
      strings; where both apply they agree. */
  lemma SizeAndCount(v: Value)
    ensures UnaryOf("size", v).Ok? <==> v.IsObject() || v.IsArray() || v.IsString()
    ensures UnaryOf("count", v).Ok? <==> v.IsArray() || v.IsString()
    ensures UnaryOf("count", v).Ok? ==> UnaryOf("count", v) == UnaryOf("size", v)
  {
  }
}
