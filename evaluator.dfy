/** class Evaluator: the root document and the recursive, looping
    procedures of evaluator.cpp, each proved to compute what the
    functions of module Evaluation specify. */
module Evaluator {
  import opened Errors
  import opened Text
  import opened Json
  import opened Evaluation

  /** The common loop of min, max, sum and avg over the futures' results,
      in order: an accumulator and the count of numbers seen so far, which
      stands for the ±infinity start value of min and max. */
  method Fold(kind: Aggregate, futures: seq<Result<Value>>) returns (r: Result<Value>)
    ensures r == AggregateOf(kind, futures)
  {
    var name := AggregateName(kind);
    var acc: real := 0.0;
    var count: nat := 0;
    ghost var xs: seq<real> := [];
    for k := 0 to |futures|
      invariant Numbers(futures[..k], name) == Ok(xs)
      invariant count == |xs| && acc == Accumulated(kind, xs)
    {
      assert futures[..k + 1][..k] == futures[..k];
      if futures[k].Err? {
        NumbersPrefixError(futures, name, k + 1);
        return Err(futures[k].error);
      }
      var ok;
      ok, acc, count := Absorb(kind, name, futures[k].value, acc, count, xs);
      if !ok {
        NumbersPrefixError(futures, name, k + 1);
        return Err(EvalError(name + " requires numeric values"));
      }
      xs := xs + Contribution(futures[k].value, name).value;
    }
    assert futures[..|futures|] == futures;
    r := Finish(kind, acc, count, xs);
  }

  /** One future's value: an array of numbers or a number, folded into
      the accumulator; false when it is neither. */
  method Absorb(kind: Aggregate, name: string, val: Value, acc: real, count: nat, ghost xs: seq<real>)
    returns (ok: bool, acc': real, count': nat)
    requires count == |xs| && acc == Accumulated(kind, xs)
    ensures ok == Contribution(val, name).Ok?
    ensures ok ==> count' == |xs + Contribution(val, name).value|
    ensures ok ==> acc' == Accumulated(kind, xs + Contribution(val, name).value)
  {
    acc', count' := acc, count;
    if val.IsArray() {
      var items := val.elements;
      ghost var ys := xs;
      for j := 0 to |items|
        invariant forall i :: 0 <= i < j ==> items[i].IsNumber()
        invariant ys == xs + seq(j, i requires 0 <= i < j => items[i].n)
        invariant count' == |ys| && acc' == Accumulated(kind, ys)
      {
        if !items[j].IsNumber() {
          return false, acc', count';
        }
        AccumulatedSnoc(kind, ys, items[j].n);
        acc' := Combine(kind, acc', count', items[j].n);
        count' := count' + 1;
        assert seq(j + 1, i requires 0 <= i < j + 1 => items[i].n)
          == seq(j, i requires 0 <= i < j => items[i].n) + [items[j].n];
        ys := ys + [items[j].n];
      }
      ok := true;
    } else if val.IsNumber() {
      AccumulatedSnoc(kind, xs, val.n);
      acc' := Combine(kind, acc, count, val.n);
      count' := count + 1;
      ok := true;
    } else {
      ok := false;
    }
  }

  /** The checks after the loop: min, max and avg of no numbers fail. */
  method Finish(kind: Aggregate, acc: real, count: nat, ghost xs: seq<real>) returns (r: Result<Value>)
    requires count == |xs| && acc == Accumulated(kind, xs)
    ensures r == Aggregated(kind, xs)
  {
    match kind
    case Min =>
      if count == 0 {
        return Err(EvalError("min requires at least one numeric value"));
      }
      r := Ok(Number(acc));
    case Max =>
      if count == 0 {
        return Err(EvalError("max requires at least one numeric value"));
      }
      r := Ok(Number(acc));
    case Sum =>
      r := Ok(Number(acc));
    case Avg =>
      if count == 0 {
        return Err(EvalError("avg requires at least one numeric value"));
      }
      r := Ok(Number(acc / count as real));
  }

  /** The accumulator after the numbers xs: the minimum or maximum so far
      (0 before the first), or the running sum. */
  function Accumulated(kind: Aggregate, xs: seq<real>): real {
    match kind
    case Min => if |xs| == 0 then 0.0 else MinOf(xs)
    case Max => if |xs| == 0 then 0.0 else MaxOf(xs)
    case _ => SumOf(xs)
  }

  /** One update of the accumulator: std::min, std::max or +=. */
  function Combine(kind: Aggregate, acc: real, count: nat, x: real): real {
    match kind
    case Min => if count == 0 || x < acc then x else acc
    case Max => if count == 0 || acc < x then x else acc
    case _ => acc + x
  }

  /** Folding one more number into the accumulator of xs gives the
      accumulator of xs + [x]. */
  lemma AccumulatedSnoc(kind: Aggregate, xs: seq<real>, x: real)
    ensures Accumulated(kind, xs + [x]) == Combine(kind, Accumulated(kind, xs), |xs|, x)
  {
    assert (xs + [x])[..|xs|] == xs;
  }

  /** One character of parse_arguments' scan of the piece from start. */
  lemma ScanStep(s: string, start: nat, i: nat, d: int)
    requires start <= i < |s|
    ensures TopCommaFrom(s[start..], i - start, d)
      == if s[i] == ',' && d == 0 then Some(i - start)
         else TopCommaFrom(s[start..], i - start + 1, d + Delta(s[i]))
  {
    assert s[start..][i - start] == s[i];
  }

  /** A top-level comma at i ends the piece that begins at start. */
  lemma SplitAtComma(s: string, start: nat, i: nat)
    requires start <= i < |s| && FirstTopComma(s[start..]) == Some(i - start)
    ensures SplitArgs(s[start..]) == [s[start..i]] + SplitArgs(s[i + 1..])
  {
    assert s[start..][..i - start] == s[start..i] && s[start..][i - start + 1..] == s[i + 1..];
  }

  /** With no top-level comma left, the rest is the last piece. */
  lemma SplitLast(s: string, start: nat)
    requires start <= |s| && FirstTopComma(s[start..]).None?
    ensures SplitArgs(s[start..]) == [s[start..]]
  {
  }

  /** One round of parse_arguments keeps its loop invariant: a top-level
      comma closes a piece and restarts the scan after it at depth 0;
      any other character only moves the depth. */
  lemma ArgumentsRound(s: string, start: nat, i: nat, depth: int, args: seq<string>)
    requires start <= i < |s|
    requires args + SplitArgs(s[start..]) == SplitArgs(s)
    requires FirstTopComma(s[start..]) == TopCommaFrom(s[start..], i - start, depth)
    ensures s[i] == ',' && depth == 0 ==>
      (args + [s[start..i]]) + SplitArgs(s[i + 1..]) == SplitArgs(s) &&
      FirstTopComma(s[i + 1..]) == TopCommaFrom(s[i + 1..], 0, 0)
    ensures !(s[i] == ',' && depth == 0) ==>
      FirstTopComma(s[start..]) == TopCommaFrom(s[start..], i + 1 - start, depth + Delta(s[i]))
  {
    ScanStep(s, start, i, depth);
    if s[i] == ',' && depth == 0 {
      SplitAtComma(s, start, i);
      assert (args + [s[start..i]]) + SplitArgs(s[i + 1..]) == args + ([s[start..i]] + SplitArgs(s[i + 1..]));
    }
  }

  /** At the end of parse_arguments' scan the rest is the last piece. */
  lemma ArgumentsEnd(s: string, start: nat, depth: int, args: seq<string>)
    requires start <= |s|
    requires args + SplitArgs(s[start..]) == SplitArgs(s)
    requires FirstTopComma(s[start..]) == TopCommaFrom(s[start..], |s| - start, depth)
    ensures args + [s[start..]] == SplitArgs(s)
  {
    SplitLast(s, start);
  }

  /** A binary operation fails with its left operand's error before the
      right operand is looked at; otherwise both decide. */
  lemma BinaryParts(root: Value, pow: (real, real) -> real, expr: string, p: nat, op: Operator, left: Result<Value>)
    requires p + Width(op) <= |expr| && (op.Arith? ==> op.c in ArithChars)
    requires left == Eval(root, pow, expr[..p])
    ensures left.Err? ==> EvalBinary(root, pow, expr, p, op) == Err(left.error)
    ensures left.Ok? ==> EvalBinary(root, pow, expr, p, op) == Operands(pow, op, left, Eval(root, pow, expr[p + Width(op)..]))
  {
  }

  class Evaluator {
    const root: Value
    /** std::pow on doubles, which the model does not define. */
    const pow: (real, real) -> real

    constructor (root: Value, pow: (real, real) -> real)
      ensures this.root == root && this.pow == pow
    {
      this.root := root;
      this.pow := pow;
    }

    method Evaluate(expr: string) returns (r: Result<Value>)
      ensures r == Eval(root, pow, expr)
    {
      r := EvaluateExpression(expr);
    }

    /** parse_arguments: one pass keeping the depth and the start of the
        current piece. */
    method ParseArguments(s: string) returns (args: seq<string>)
      ensures args == SplitArgs(s)
    {
      args := [];
      var start := 0;
      var depth := 0;
      for i := 0 to |s|
        invariant start <= i
        invariant args + SplitArgs(s[start..]) == SplitArgs(s)
        invariant FirstTopComma(s[start..]) == TopCommaFrom(s[start..], i - start, depth)
      {
        ArgumentsRound(s, start, i, depth, args);
        if s[i] == ',' && depth == 0 {
          args := args + [s[start..i]];
          start := i + 1;
        } else {
          // '(' and ')' move the depth; any other character leaves it
          depth := depth + Delta(s[i]);
        }
      }
      ArgumentsEnd(s, start, depth, args);
      args := args + [s[start..]];
    }

    /** find_matching_bracket. */
    method FindMatchingBracket(s: string, pos: nat) returns (r: Result<nat>)
      ensures r == MatchingBracket(s, pos)
    {
      var depth := 1;
      var i := pos + 1;
      while i < |s|
        invariant MatchFrom(s, i, depth) == MatchingBracket(s, pos)
        decreases |s| - i
      {
        if s[i] == '(' {
          depth := depth + 1;
        } else if s[i] == ')' {
          depth := depth - 1;
        }
        if depth == 0 {
          return Ok(i);
        }
        i := i + 1;
      }
      r := Err(EvalError("Mismatched parentheses"));
    }

    /** evaluate_expression. */
    method EvaluateExpression(expr: string) returns (r: Result<Value>)
      ensures r == Eval(root, pow, expr)
      decreases |expr|, 3
    {
      var t := Trim(expr);
      var open := Find(t, "(");
      if open.Some? && open.value > 0 {
        r := EvaluateCall(t, open.value);
      } else {
        r := EvaluateOperators(expr, t);
      }
    }

    /** A call whose '(' is at p: the arguments up to the matching ')'. */
    method EvaluateCall(t: string, p: nat) returns (r: Result<Value>)
      requires 0 < p < |t|
      ensures r == EvalCall(root, pow, t, p)
      decreases |t|, 2
    {
      var close :- FindMatchingBracket(t, p);
      var name := t[..p];
      var args := ParseArguments(t[p + 1..close]);
      SplitArgsSize(t[p + 1..close]);
      r := EvaluateFunction(name, args);
    }

    /** The operator scans of evaluate_expression, then the path. */
    method EvaluateOperators(expr: string, t: string) returns (r: Result<Value>)
      ensures r == EvalOperators(root, pow, expr, t)
      decreases |expr|, 2
    {
      var power := Find(expr, "**");
      if power.Some? {
        r := EvaluateBinary(expr, power.value, Power);
        return;
      }
      var and := Find(expr, "&&");
      if and.Some? {
        r := EvaluateBinary(expr, and.value, And);
        return;
      }
      var or := Find(expr, "||");
      if or.Some? {
        r := EvaluateBinary(expr, or.value, Or);
        return;
      }
      var mod := Find(expr, "%");
      if mod.Some? {
        r := EvaluateBinary(expr, mod.value, Mod);
        return;
      }
      var arith := FirstOf(expr, ArithChars);
      if arith.Some? {
        r := EvaluateBinary(expr, arith.value, Arith(expr[arith.value]));
        return;
      }
      r := EvaluateJsonPath(t);
    }

    /** Both operands of op at p, left first, then the operator. */
    method EvaluateBinary(expr: string, p: nat, op: Operator) returns (r: Result<Value>)
      requires p + Width(op) <= |expr|
      requires op.Arith? ==> op.c in ArithChars
      ensures r == EvalBinary(root, pow, expr, p, op)
      decreases |expr|, 1
    {
      var left := EvaluateExpression(expr[..p]);
      BinaryParts(root, pow, expr, p, op, left);
      if left.Err? {
        return Err(left.error);
      }
      var right := EvaluateExpression(expr[p + Width(op)..]);
      r := Operands(pow, op, left, right);
    }

    /** The futures of the aggregates, evaluated one after the other. */
    method EvaluateArguments(args: seq<string>) returns (futures: seq<Result<Value>>)
      ensures futures == Outcomes(root, pow, args)
      decreases ArgsSize(args), 0
    {
      futures := [];
      for i := 0 to |args|
        invariant futures == Outcomes(root, pow, args[..i])
      {
        assert args[..i + 1][..i] == args[..i];
        ArgsSizeBound(args, i);
        var v := EvaluateExpression(args[i]);
        futures := futures + [v];
      }
      assert args[..|args|] == args;
    }

    /** evaluate_function. */
    method EvaluateFunction(name: string, args: seq<string>) returns (r: Result<Value>)
      ensures r == ApplyFunction(root, pow, name, args)
      decreases ArgsSize(args), 1
    {
      var kind := AggregateKind(name);
      if kind.Some? {
        var futures := EvaluateArguments(args);
        r := Fold(kind.value, futures);
        return;
      }
      if !IsUnary(name) {
        return Err(EvalError("Unknown function: " + name));
      }
      if |args| != 1 {
        return Err(EvalError(name + " requires exactly one argument"));
      }
      assert args[..0] == [];
      var val :- EvaluateExpression(args[0]);
      r := UnaryOf(name, val);
    }

    /** evaluate_json_path: the leading segment, then a loop over '.' and
        '[' segments that moves current down the tree. */
    method EvaluateJsonPath(path: string) returns (r: Result<Value>)
      ensures r == ResolvePath(root, path)
    {
      var pos := 0;
      while pos < |path| && IsIdentChar(path[pos])
        invariant pos <= |path| && IdentEnd(path, pos) == IdentEnd(path, 0)
      {
        pos := pos + 1;
      }
      var current :- GetValue(root, path[..pos]);
      while pos < |path|
        invariant pos <= |path|
        invariant PathFrom(path, pos, current) == ResolvePath(root, path)
        decreases |path| - pos
      {
        var step :- ReadSegment(path, pos, current);
        pos, current := step.next, step.value;
      }
      r := Ok(current);
    }

    /** The body of evaluate_json_path's loop. */
    method ReadSegment(path: string, pos: nat, current: Value) returns (r: Result<Position>)
      requires pos < |path|
      ensures r == SegmentAt(path, pos, current)
    {
      if path[pos] == '.' {
        r := ReadKey(path, pos, current);
      } else if path[pos] == '[' {
        r := ReadIndex(path, pos, current);
      } else {
        r := Err(EvalError("Unexpected syntax or character in path: " + path[pos..]));
      }
    }

    /** '.': the key up to the next non-identifier character, which needs
        an object. */
    method ReadKey(path: string, pos: nat, current: Value) returns (r: Result<Position>)
      requires pos < |path|
      ensures r == KeySegment(path, pos, current)
    {
      var i := pos + 1;
      while i < |path| && IsIdentChar(path[i])
        invariant pos + 1 <= i <= |path| && IdentEnd(path, i) == IdentEnd(path, pos + 1)
      {
        i := i + 1;
      }
      assert i == IdentEnd(path, pos + 1);
      var key := path[pos + 1..i];
      if !current.IsObject() {
        return Err(EvalError("Invalid key access on non-object type: " + key));
      }
      var next :- GetValue(current, key);
      r := Ok(Position(i, next));
    }

    /** '[': the text up to ']', which must be digits, as an array index. */
    method ReadIndex(path: string, pos: nat, current: Value) returns (r: Result<Position>)
      requires pos < |path|
      ensures r == IndexSegment(path, pos, current)
    {
      var i := pos + 1;
      while i < |path| && path[i] != ']'
        invariant pos + 1 <= i <= |path| && BracketEnd(path, i) == BracketEnd(path, pos + 1)
      {
        i := i + 1;
      }
      assert i == BracketEnd(path, pos + 1);
      if i >= |path| || path[i] != ']' {
        return Err(EvalError("Expected ']' for array index access."));
      }
      r := ReadArrayIndex(path[pos + 1..i], i + 1, current);
    }

    /** The index text between '[' and ']' as a position in an array. */
    method ReadArrayIndex(indexStr: string, next: nat, current: Value) returns (r: Result<Position>)
      ensures r == IndexInto(indexStr, next, current)
    {
      if !(indexStr != [] && AllDigits(indexStr)) {
        return Err(EvalError("Invalid array index: " + indexStr + " (must be an integer)."));
      }
      var conv := Stoul(indexStr);
      if !conv.Converted? {
        return Err(Abort("std::out_of_range from std::stoul"));
      }
      var index := conv.value;
      if !current.IsArray() {
        return Err(EvalError("Invalid array index access on non-array type."));
      }
      var arr := current.elements;
      if index >= |arr| {
        return Err(EvalError("Array index out of bounds: " + indexStr));
      }
      r := Ok(Position(next, arr[index]));
    }
  }
}
