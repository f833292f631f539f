/** What Evaluator::evaluate computes, as pure functions of the root
    document and the expression text: function-call detection and
    argument splitting, the fixed-order textual operator scan, the
    aggregate and unary functions, and path resolution with get_value.
    The class Evaluator (module Evaluator) runs these steps the way the
    C++ does and is proved to agree with them. */
module Evaluation {
  import opened Errors
  import opened Text
  import opened Json
  import OrderedMap

  // ------------------------------------------------------- parentheses

  /** The change a character makes to the parenthesis depth. */
  function Delta(c: char): int {
    if c == '(' then 1 else if c == ')' then -1 else 0
  }

  /** The parenthesis depth at the end of s, starting from 0. */
  function Depth(s: string): int {
    if |s| == 0 then 0 else Depth(s[..|s| - 1]) + Delta(s[|s| - 1])
  }

  /** The scan of parse_arguments from index i with depth d: the first
      ',' met at depth 0, if any. */
  function TopCommaFrom(s: string, i: nat, d: int): (r: Option<nat>)
    requires i <= |s|
    ensures r.Some? ==> i <= r.value < |s| && s[r.value] == ','
    decreases |s| - i
  {
    if i == |s| then None
    else if s[i] == ',' && d == 0 then Some(i)
    else TopCommaFrom(s, i + 1, d + Delta(s[i]))
  }

  /** The first top-level comma of s. */
  function FirstTopComma(s: string): Option<nat> {
    TopCommaFrom(s, 0, 0)
  }

  /** parse_arguments: s cut at its top-level commas. The depth after
      such a comma is back at 0, so the rest is split afresh. */
  function SplitArgs(s: string): (args: seq<string>)
    ensures |args| >= 1
    decreases |s|
  {
    match FirstTopComma(s)
    case None => [s]
    case Some(i) => [s[..i]] + SplitArgs(s[i + 1..])
  }

  /** A size for argument lists that the evaluation recursion decreases:
      each piece counts its length plus one. */
  function ArgsSize(args: seq<string>): nat {
    if |args| == 0 then 0 else ArgsSize(args[..|args| - 1]) + |args[|args| - 1]| + 1
  }

  /** find_matching_bracket's loop from index i with depth d: the first
      index at which the depth, updated by that character, reaches 0. */
  function MatchFrom(s: string, i: nat, d: int): (r: Result<nat>)
    ensures r.Ok? ==> i <= r.value < |s|
    ensures r.Err? ==> r.error == EvalError("Mismatched parentheses")
    decreases |s| - i
  {
    if i >= |s| then Err(EvalError("Mismatched parentheses"))
    else if d + Delta(s[i]) == 0 then Ok(i)
    else MatchFrom(s, i + 1, d + Delta(s[i]))
  }

  /** find_matching_bracket(s, pos): depth 1 after the '(' at pos. */
  function MatchingBracket(s: string, pos: nat): Result<nat> {
    MatchFrom(s, pos + 1, 1)
  }

  // ------------------------------------------------------------- std::stoul

  const ULongLimit: nat := 0x1_0000_0000_0000_0000

  datatype Conversion = Converted(value: nat) | InvalidArgument | OutOfRange

  /** std::stoul(s) in base 10 with a 64-bit unsigned long: leading
      whitespace, an optional sign, then the longest run of digits; a
      value of 2^64 or more is out of range, and a '-' negates modulo
      2^64 as strtoul does. Characters after the digits are ignored. */
  function Stoul(s: string): (c: Conversion)
    ensures c.Converted? ==> c.value < ULongLimit
  {
    var a := SpacePrefix(s);
    var neg := a < |s| && s[a] == '-';
    var b := if a < |s| && (s[a] == '-' || s[a] == '+') then a + 1 else a;
    var n := DigitPrefixLength(s[b..]);
    if n == 0 then InvalidArgument
    else
      var v := DigitsValue(s[b..b + n]);
      if v >= ULongLimit then OutOfRange
      else if neg then Converted((ULongLimit - v) % ULongLimit)
      else Converted(v)
  }

  /** The number of leading std::isspace characters of s. */
  function SpacePrefix(s: string): (n: nat)
    ensures n <= |s|
  {
    if |s| == 0 || !IsSpace(s[0]) then 0 else 1 + SpacePrefix(s[1..])
  }

  // ------------------------------------------------------------ get_value

  /** get_value(current, key): an object member, an array element indexed
      by std::stoul(key), or an error. */
  function GetValue(current: Value, key: string): (r: Result<Value>)
    ensures r.Ok? ==>
      (current.Object? && OrderedMap.Lookup(current.entries, key) == Some(r.value)) ||
      (current.Array? && r.value in current.elements)
    ensures !current.Object? && !current.Array? ==> r == Err(EvalError("Current value is not an object or array"))
  {
    match current
    case Object(es) =>
      (match OrderedMap.Lookup(es, key)
       case Some(v) => Ok(v)
       case None => Err(EvalError("Key not found: " + key)))
    case Array(xs) =>
      (match Stoul(key)
       case InvalidArgument => Err(EvalError("Invalid array index: " + key))
       case OutOfRange => Err(EvalError("Array index out of range: " + key))
       case Converted(i) =>
         if i >= |xs| then Err(EvalError("Array index out of bounds: " + key)) else Ok(xs[i]))
    case _ => Err(EvalError("Current value is not an object or array"))
  }

  // ---------------------------------------------------- evaluate_json_path

  /** The end of the run of [A-Za-z0-9_] characters that starts at i. */
  function IdentEnd(s: string, i: nat): (j: nat)
    requires i <= |s|
    ensures i <= j <= |s|
    ensures forall k :: i <= k < j ==> IsIdentChar(s[k])
    ensures j < |s| ==> !IsIdentChar(s[j])
    decreases |s| - i
  {
    if i < |s| && IsIdentChar(s[i]) then IdentEnd(s, i + 1) else i
  }

  /** The index of the first ']' at or after i, or |s| if there is none. */
  function BracketEnd(s: string, i: nat): (j: nat)
    requires i <= |s|
    ensures i <= j <= |s|
    ensures forall k :: i <= k < j ==> s[k] != ']'
    ensures j < |s| ==> s[j] == ']'
    decreases |s| - i
  {
    if i < |s| && s[i] != ']' then BracketEnd(s, i + 1) else i
  }

  /** evaluate_json_path: the leading segment is looked up in root, then
      the loop runs from the end of that segment. */
  function ResolvePath(root: Value, path: string): (r: Result<Value>)
    ensures IdentEnd(path, 0) == |path| ==> r == GetValue(root, path)
  {
    var pos := IdentEnd(path, 0);
    assert pos == |path| ==> path[..pos] == path;
    var current :- GetValue(root, path[..pos]);
    PathFrom(path, pos, current)
  }

  /** Where the cursor is and which value is current after one segment. */
  datatype Position = Position(next: nat, value: Value)

  /** One round of evaluate_json_path's loop at pos < |path|: a '.'
      segment, a '[' segment, or an error. */
  function SegmentAt(path: string, pos: nat, current: Value): (r: Result<Position>)
    requires pos < |path|
    ensures r.Ok? ==> pos < r.value.next <= |path|
  {
    if path[pos] == '.' then KeySegment(path, pos, current)
    else if path[pos] == '[' then IndexSegment(path, pos, current)
    else Err(EvalError("Unexpected syntax or character in path: " + path[pos..]))
  }

  /** A '.' segment: the identifier after it, looked up in an object. */
  function KeySegment(path: string, pos: nat, current: Value): (r: Result<Position>)
    requires pos < |path|
    ensures r.Ok? ==> pos < r.value.next <= |path|
  {
    var e := IdentEnd(path, pos + 1);
    var key := path[pos + 1..e];
    if !current.IsObject() then Err(EvalError("Invalid key access on non-object type: " + key))
    else
      var next :- GetValue(current, key);
      Ok(Position(e, next))
  }

  /** A '[' segment: the text up to the next ']', which must be a
      non-empty run of digits, as an index into an array. The digits go
      through std::stoul before the array test, and its out_of_range is
      not caught here. */
  function IndexSegment(path: string, pos: nat, current: Value): (r: Result<Position>)
    requires pos < |path|
    ensures r.Ok? ==> pos < r.value.next <= |path|
  {
    var c := BracketEnd(path, pos + 1);
    if c == |path| then Err(EvalError("Expected ']' for array index access."))
    else IndexInto(path[pos + 1..c], c + 1, current)
  }

  /** The index text ix of a '[' segment applied to current; the segment
      ends before next. */
  function IndexInto(ix: string, next: nat, current: Value): (r: Result<Position>)
    ensures r.Ok? ==> r.value.next == next
  {
    if ix != [] && AllDigits(ix) then
      var conv := Stoul(ix);
      if !conv.Converted? then Err(Abort("std::out_of_range from std::stoul"))
      else if !current.IsArray() then Err(EvalError("Invalid array index access on non-array type."))
      else if conv.value >= |current.elements| then Err(EvalError("Array index out of bounds: " + ix))
      else Ok(Position(next, current.elements[conv.value]))
    else Err(EvalError("Invalid array index: " + ix + " (must be an integer)."))
  }

  /** The loop of evaluate_json_path with the cursor at pos. */
  function PathFrom(path: string, pos: nat, current: Value): Result<Value>
    requires pos <= |path|
    decreases |path| - pos
  {
    if pos == |path| then Ok(current)
    else
      var step :- SegmentAt(path, pos, current);
      PathFrom(path, step.next, step.value)
  }

  // ------------------------------------------------------------- operators

  /** `**`: both operands numbers, then std::pow, which stands for the
      floating-point power function. */
  function PowerOp(pow: (real, real) -> real, left: Value, right: Value): (r: Result<Value>)
    ensures r.Ok? <==> left.IsNumber() && right.IsNumber()
    ensures r.Ok? ==> r.value == Number(pow(left.n, right.n))
    ensures r.Err? ==> r.error == EvalError("** requires numeric operands")
  {
    if !left.IsNumber() || !right.IsNumber() then Err(EvalError("** requires numeric operands"))
    else Ok(Number(pow(left.n, right.n)))
  }

  /** `left.as_number() && right.as_number()` with C++ short-circuiting:
      the right operand is converted only when the left one is non-zero. */
  function AndOp(left: Value, right: Value): Result<Value> {
    var a :- left.AsNumber();
    if a == 0.0 then Ok(Bool(false))
    else
      var b :- right.AsNumber();
      Ok(Bool(b != 0.0))
  }

  /** `left.as_number() || right.as_number()`: the right operand is
      converted only when the left one is zero. */
  function OrOp(left: Value, right: Value): Result<Value> {
    var a :- left.AsNumber();
    if a != 0.0 then Ok(Bool(true))
    else
      var b :- right.AsNumber();
      Ok(Bool(b != 0.0))
  }

  const IntMin: int := -0x8000_0000
  const IntMax: int := 0x7FFF_FFFF

  /** static_cast<int> of a double: truncation toward zero. */
  function Truncate(x: real): int {
    if x >= 0.0 then x.Floor else -((-x).Floor)
  }

  /** C++ int %: the remainder of division truncated toward zero, which
      takes the sign of the dividend. */
  function TruncRem(a: int, b: int): int
    requires b != 0
  {
    var m := if b < 0 then -b else b;
    if a >= 0 then a % m else -((-a) % m)
  }

  /** `%`: both operands numbers, each truncated to int, then the C++
      remainder. A value outside int, a zero divisor and INT_MIN % -1 are
      undefined behaviour. */
  function ModOp(left: Value, right: Value): Result<Value> {
    if !left.IsNumber() || !right.IsNumber() then Err(EvalError("% requires numeric operands"))
    else
      var a, b := Truncate(left.n), Truncate(right.n);
      if a < IntMin || a > IntMax || b < IntMin || b > IntMax then
        Err(Abort("double to int conversion out of range"))
      else if b == 0 then Err(Abort("integer modulus by zero"))
      else if a == IntMin && b == -1 then Err(Abort("integer overflow in INT_MIN % -1"))
      else Ok(Number(TruncRem(a, b) as real))
  }

  /** The characters "+-*" and "/" of the last operator scan. */
  const ArithChars: set<char> := {'+', '-', '*', '/'}

  /** `+ - * /` on two numbers; '/' by zero is an error. */
  function ArithOp(op: char, left: Value, right: Value): Result<Value>
    requires op in ArithChars
  {
    if !left.IsNumber() || !right.IsNumber() then
      Err(EvalError("Arithmetic operations require numeric operands"))
    else
      var l, r := left.n, right.n;
      if op == '+' then Ok(Number(l + r))
      else if op == '-' then Ok(Number(l - r))
      else if op == '*' then Ok(Number(l * r))
      else if r == 0.0 then Err(EvalError("Division by zero"))
      else Ok(Number(l / r))
  }

  // ------------------------------------------------------------ functions

  datatype Aggregate = Min | Max | Sum | Avg

  function AggregateName(kind: Aggregate): string {
    match kind
    case Min => "min"
    case Max => "max"
    case Sum => "sum"
    case Avg => "avg"
  }

  /** The numbers one argument value contributes to an aggregate: a number
      itself, an array each of its elements, which must all be numbers. */
  function Contribution(v: Value, name: string): (r: Result<seq<real>>)
    ensures r.Err? ==> r.error == EvalError(name + " requires numeric values")
  {
    if v.IsArray() then
      if forall i :: 0 <= i < |v.elements| ==> v.elements[i].IsNumber() then
        Ok(seq(|v.elements|, i requires 0 <= i < |v.elements| => v.elements[i].n))
      else Err(EvalError(name + " requires numeric values"))
    else if v.IsNumber() then Ok([v.n])
    else Err(EvalError(name + " requires numeric values"))
  }

  /** The numbers the evaluated arguments contribute, in argument order;
      the first argument whose evaluation failed, or whose value does not
      contribute, decides the error. */
  function Numbers(results: seq<Result<Value>>, name: string): Result<seq<real>> {
    if |results| == 0 then Ok([])
    else
      var before :- Numbers(results[..|results| - 1], name);
      var v :- results[|results| - 1];
      var more :- Contribution(v, name);
      Ok(before + more)
  }

  function MinOf(xs: seq<real>): real
    requires |xs| > 0
  {
    if |xs| == 1 then xs[0]
    else
      var m := MinOf(xs[..|xs| - 1]);
      if xs[|xs| - 1] < m then xs[|xs| - 1] else m
  }

  function MaxOf(xs: seq<real>): real
    requires |xs| > 0
  {
    if |xs| == 1 then xs[0]
    else
      var m := MaxOf(xs[..|xs| - 1]);
      if xs[|xs| - 1] > m then xs[|xs| - 1] else m
  }

  function SumOf(xs: seq<real>): real {
    if |xs| == 0 then 0.0 else SumOf(xs[..|xs| - 1]) + xs[|xs| - 1]
  }

  /** min, max, sum and avg over the evaluated arguments. */
  function AggregateOf(kind: Aggregate, results: seq<Result<Value>>): Result<Value> {
    var xs :- Numbers(results, AggregateName(kind));
    Aggregated(kind, xs)
  }

  /** min, max, sum and avg over the numbers xs; min, max and avg need at
      least one. */
  function Aggregated(kind: Aggregate, xs: seq<real>): Result<Value> {
    match kind
    case Min =>
      if |xs| == 0 then Err(EvalError("min requires at least one numeric value")) else Ok(Number(MinOf(xs)))
    case Max =>
      if |xs| == 0 then Err(EvalError("max requires at least one numeric value")) else Ok(Number(MaxOf(xs)))
    case Sum => Ok(Number(SumOf(xs)))
    case Avg =>
      if |xs| == 0 then Err(EvalError("avg requires at least one numeric value"))
      else Ok(Number(SumOf(xs) / |xs| as real))
  }

  /** std::round on the mathematical value: to the nearest integer,
      halfway cases away from zero. */
  function RoundHalfAway(x: real): real {
    if x >= 0.0 then (x + 0.5).Floor as real else -((-x + 0.5).Floor as real)
  }

  function Abs(x: real): real {
    if x < 0.0 then -x else x
  }

  predicate IsUnary(name: string) {
    name == "size" || name == "count" || name == "abs" || name == "round"
  }

  /** size, count, abs and round on the value of their single argument. */
  function UnaryOf(name: string, v: Value): Result<Value>
    requires IsUnary(name)
  {
    if name == "size" then
      if v.IsString() then Ok(Number(|v.s| as real))
      else if v.IsArray() then Ok(Number(|v.elements| as real))
      else if v.IsObject() then Ok(Number(|v.entries| as real))
      else Err(EvalError("size requires an object, array, or string"))
    else if name == "count" then
      if v.IsArray() then Ok(Number(|v.elements| as real))
      else if v.IsString() then Ok(Number(|v.s| as real))
      else Err(EvalError("count requires an array or string"))
    else if name == "abs" then
      if !v.IsNumber() then Err(EvalError("abs requires a numeric value")) else Ok(Number(Abs(v.n)))
    else
      if !v.IsNumber() then Err(EvalError("round requires a numeric value")) else Ok(Number(RoundHalfAway(v.n)))
  }

  function AggregateKind(name: string): Option<Aggregate> {
    if name == "min" then Some(Min)
    else if name == "max" then Some(Max)
    else if name == "sum" then Some(Sum)
    else if name == "avg" then Some(Avg)
    else None
  }

  // ----------------------------------------------------------- evaluation

  /** evaluate_expression. The function-call test and the path use the
      trimmed text; the operator scans use the text as given. */
  function Eval(root: Value, pow: (real, real) -> real, expr: string): Result<Value>
    decreases |expr|, 3
  {
    var t := Trim(expr);
    var open := Find(t, "(");
    if open.Some? && open.value > 0 then EvalCall(root, pow, t, open.value)
    else EvalOperators(root, pow, expr, t)
  }

  /** A function call whose '(' is at p: the name is everything before it,
      the arguments everything up to the matching ')'; what follows that
      ')' is not looked at. */
  function EvalCall(root: Value, pow: (real, real) -> real, t: string, p: nat): Result<Value>
    requires 0 < p < |t|
    decreases |t|, 2
  {
    var e :- MatchingBracket(t, p);
    var args := SplitArgs(t[p + 1..e]);
    SplitArgsSize(t[p + 1..e]);
    ApplyFunction(root, pow, t[..p], args)
  }

  /** The binary operators, in the order evaluate_expression looks for
      them; Arith holds the character found. */
  datatype Operator = Power | And | Or | Mod | Arith(c: char)

  /** The width of the operator's text: 2 for `**`, `&&` and `||`. */
  function Width(op: Operator): nat {
    match op
    case Power => 2
    case And => 2
    case Or => 2
    case _ => 1
  }

  /** The operator applied to the two evaluated operands. */
  function BinaryOp(pow: (real, real) -> real, op: Operator, left: Value, right: Value): Result<Value>
    requires op.Arith? ==> op.c in ArithChars
  {
    match op
    case Power => PowerOp(pow, left, right)
    case And => AndOp(left, right)
    case Or => OrOp(left, right)
    case Mod => ModOp(left, right)
    case Arith(c) => ArithOp(c, left, right)
  }

  /** The operator scans in their fixed order, each splitting at the first
      occurrence; with no operator the trimmed text t is a path. */
  function EvalOperators(root: Value, pow: (real, real) -> real, expr: string, t: string): Result<Value>
    decreases |expr|, 2
  {
    var power := Find(expr, "**");
    var and := Find(expr, "&&");
    var or := Find(expr, "||");
    var mod := Find(expr, "%");
    var arith := FirstOf(expr, ArithChars);
    if power.Some? then EvalBinary(root, pow, expr, power.value, Power)
    else if and.Some? then EvalBinary(root, pow, expr, and.value, And)
    else if or.Some? then EvalBinary(root, pow, expr, or.value, Or)
    else if mod.Some? then EvalBinary(root, pow, expr, mod.value, Mod)
    else if arith.Some? then EvalBinary(root, pow, expr, arith.value, Arith(expr[arith.value]))
    else ResolvePath(root, t)
  }

  /** The operator op at p: the left side is evaluated before the right,
      and the first failure is the result. */
  function EvalBinary(root: Value, pow: (real, real) -> real, expr: string, p: nat, op: Operator): Result<Value>
    requires p + Width(op) <= |expr|
    requires op.Arith? ==> op.c in ArithChars
    decreases |expr|, 1
  {
    Operands(pow, op, Eval(root, pow, expr[..p]), Eval(root, pow, expr[p + Width(op)..]))
  }

  /** The first failed operand, left before right, or op applied to both. */
  function Operands(pow: (real, real) -> real, op: Operator, left: Result<Value>, right: Result<Value>): Result<Value>
    requires op.Arith? ==> op.c in ArithChars
  {
    var l :- left;
    var r :- right;
    BinaryOp(pow, op, l, r)
  }

  /** evaluate_function. */
  function ApplyFunction(root: Value, pow: (real, real) -> real, name: string, args: seq<string>): Result<Value>
    decreases ArgsSize(args), 1
  {
    match AggregateKind(name)
    case Some(kind) => AggregateOf(kind, Outcomes(root, pow, args))
    case None =>
      if IsUnary(name) then
        if |args| != 1 then Err(EvalError(name + " requires exactly one argument"))
        else
          var v :- Eval(root, pow, args[0]);
          UnaryOf(name, v)
      else Err(EvalError("Unknown function: " + name))
  }

  /** What evaluating each argument gives, in argument order: the outcomes
      the aggregates' futures hold. */
  function Outcomes(root: Value, pow: (real, real) -> real, args: seq<string>): (rs: seq<Result<Value>>)
    ensures |rs| == |args|
    decreases ArgsSize(args), 0
  {
    if |args| == 0 then []
    else Outcomes(root, pow, args[..|args| - 1]) + [Eval(root, pow, args[|args| - 1])]
  }

  // ------------------------------------------------- sizes for termination

  lemma {:induction false} SplitArgsSize(s: string)
    ensures ArgsSize(SplitArgs(s)) == |s| + 1
    decreases |s|
  {
    match FirstTopComma(s)
    case None =>
      assert SplitArgs(s) == [s];
      assert [s][..0] == [];
    case Some(i) =>
      var rest := SplitArgs(s[i + 1..]);
      SplitArgsSize(s[i + 1..]);
      ArgsSizeCons(s[..i], rest);
  }

  lemma {:induction false} ArgsSizeCons(a: string, rest: seq<string>)
    ensures ArgsSize([a] + rest) == |a| + 1 + ArgsSize(rest)
    decreases |rest|
  {
    if |rest| == 0 {
      assert [a] + rest == [a];
      assert [a][..0] == [];
    } else {
      var init := rest[..|rest| - 1];
      assert ([a] + rest)[..|rest|] == [a] + init;
      ArgsSizeCons(a, init);
    }
  }

  /** Each argument is shorter than the size of the list it is in. */
  lemma {:induction false} ArgsSizeBound(args: seq<string>, i: nat)
    requires i < |args|
    ensures |args[i]| < ArgsSize(args)
    decreases |args|
  {
    if i < |args| - 1 {
      var init := args[..|args| - 1];
      assert init[i] == args[i];
      ArgsSizeBound(init, i);
    }
  }

  /** Once a prefix of the outcomes fails, the aggregate fails with that
      prefix's error: later arguments are not looked at. */
  lemma {:induction false} NumbersPrefixError(results: seq<Result<Value>>, name: string, m: nat)
    requires m <= |results| && Numbers(results[..m], name).Err?
    ensures Numbers(results, name) == Numbers(results[..m], name)
    decreases |results| - m
  {
    if m < |results| {
      var init := results[..|results| - 1];
      assert init[..m] == results[..m];
      NumbersPrefixError(init, name, m);
    } else {
      assert results[..m] == results;
    }
  }
}
