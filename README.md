# json_eval in Dafny

json_eval reads a JSON document and evaluates small expressions against it.
An expression is a path such as `a.b[5][1]` or `a.b[6].c`. It can also be an
operator applied to two sub-expressions (`**`, `&&`, `||`, `%`, `+ - * /`), or
a function call: `min`, `max`, `sum` and `avg` over any number of arguments, and
`size`, `count`, `abs` and `round` over one. This project models the three core
files and proves properties of the model:

- `JSONValue` (src/json.h) is the datatype `Json.Value`. Its `std::map` objects
  are key-sorted entry sequences (module `OrderedMap`). `is_*`/`as_*` and
  `to_string` are modelled too. `to_string` is the loop method `Json.ToString`,
  proved equal to the function `Json.Render`.
- The recursive-descent `JSON` parser (src/json.cpp) is the class
  `JsonParser.Parser`, with the text as a constant and a mutable `index`
  cursor. Each of its methods is proved to deliver the result and final cursor
  of a pure production function (`ParseValueAt`, `ParseArrayAt`, ...).
  `JsonParserProperties` proves what those productions accept and reject, with
  the exact error messages. `JsonRoundTrip` proves that rendering and then
  parsing gives the value back, for null, booleans and arrays of them.
- `Evaluator` (src/evaluator.cpp) is specified by the pure functions of module
  `Evaluation` (`Eval`, `ApplyFunction`, `ResolvePath`, `SplitArgs`,
  `MatchingBracket`, `GetValue`). The class `Evaluator.Evaluator` runs the same
  steps as the C++ methods, loops included, and each method is proved equal to
  its function. `EvaluationProperties` proves facts about the evaluator:
  - the argument splitting;
  - the bracket matching;
  - `std::stoul`;
  - path resolution;
  - the operator tables and the textual precedence of the operator scan;
  - the aggregates, rounding and function dispatch.

Errors are values. `JSONError(msg)` and `EvalError(msg)` stand for the two
exception classes, carrying the source's messages. `Abort(reason)` stands for
outcomes the source does not turn into either exception: undefined behaviour
in `%`, and a `std::out_of_range` that escapes from the path evaluator.

Where a plain reading of the system's intent and its code differ, the model
follows the code:
- the operator scans search the expression as given, not the trimmed text,
  and only the path fallback and the function-call test use the trimmed text;
- a call whose parentheses do not match raises "Mismatched parentheses"; the
  `npos` test after `find_matching_bracket` never fails;
- a digit-only expression such as `1` is a key lookup, not a number literal;
- `get_value` on an array uses `std::stoul`'s partial parse. The keys it is
  given are runs of `[A-Za-z0-9_]`, so what shows is that everything after
  the leading digits is ignored: the key `1abc` on an array root is element 1.
  `Evaluation.Stoul` also models `std::stoul`'s leading blanks and sign, which
  no such key contains;
- the binary operators split at the first occurrence, so
  `a.b[2] * a.b[3] + a.b[4]` is `a.b[2] * (a.b[3] + a.b[4])`.

## Model

| member | source | states |
|---|---|---|
| Json.Value.AsBool | src/json.cpp:5-8 | succeeds exactly on a boolean and returns its payload; otherwise it fails with JSONError "Value is not a boolean" |
| Json.Value.AsNumber | src/json.cpp:10-13 | succeeds exactly on a number and returns it; otherwise JSONError "Value is not a number" |
| Json.Value.AsString | src/json.cpp:15-18 | succeeds exactly on a string and returns it; otherwise JSONError "Value is not a string" |
| Json.Value.AsObject | src/json.cpp:20-23 | succeeds exactly on an object and returns its entries; otherwise JSONError "Value is not an object" |
| Json.Value.AsArray | src/json.cpp:25-28 | succeeds exactly on an array and returns its elements; otherwise JSONError "Value is not an array" |
| Json.ExactlyOneKind | src/json.h:34-39 | every value satisfies exactly one of the six is_* tests, as a six-way variant does |
| Json.Default | src/json.h:25 | the default-constructed value is null |
| Json.ConstructorsMatchPredicates | src/json.h:26-32 | a value built from a bool, number, string, object or array satisfies the matching is_* test, and as_* gives the payload back |
| Json.Render | src/json.cpp:30-62 | defines the canonical text: "null", "true"/"false", the formatted number, the string without quotes, "[" and "]" around the element texts and "{" and "}" around the `"key": text` member texts in key order, each list joined by ", " |
| Json.ToString | src/json.cpp:30-62 | the text built is the rendering: null, true/false, the formatted number, the string without quotes, and arrays and objects recursively |
| Json.ArrayToString | src/json.cpp:39-48 | the append loop yields "[" + the element texts joined by ", " + "]" |
| Json.ObjectToString | src/json.cpp:49-60 | the loop over the map yields "{" + `"key": value` texts in key order joined by ", " + "}" |
| Text.Trim | src/evaluator.cpp:36-38 | the result neither starts nor ends with space, tab, newline or CR; it is the slice between the first and last other character, and it is empty exactly when the text is all such characters |
| Text.TrimIdentity | src/evaluator.cpp:36-38 | trimming leaves a text unchanged if and only if it is empty or starts and ends with a non-blank |
| Text.FindFrom | src/evaluator.cpp:58-59 | std::string::find: the first position at or after i where the pattern occurs, with no occurrence before it; none when it never occurs |
| Text.FirstOfFrom | src/evaluator.cpp:102 | find_first_of: the first position holding one of the characters, with none before it; none when there is none |
| Text.DigitPrefixLength | src/evaluator.cpp:342 | the length of the longest all-digit prefix: every character before it is a digit and the next one is not |
| Text.StrLessIrreflexive | src/json.h:19 | std::map's key order never ranks a key before itself |
| Text.StrLessTransitive | src/json.h:19 | the key order is transitive |
| Text.StrLessTotal | src/json.h:19 | any two different keys are ordered one way or the other |
| OrderedMap.Lookup | src/evaluator.cpp:337-339 | map::find succeeds exactly when the key is one of the map's keys |
| OrderedMap.SortedKeysUnique | src/json.h:19 | in a sorted entry list no key appears twice |
| OrderedMap.LookupSorted | src/json.h:19 | every stored entry is found by its key with its value |
| OrderedMap.InsertKeys | src/json.cpp:197 | `object[key] = val` adds exactly that key to the key set |
| OrderedMap.InsertSorted | src/json.cpp:197 | the assignment keeps the entries sorted by key |
| OrderedMap.LookupInsert | src/json.cpp:197 | after the assignment the key maps to the new value and every other key keeps its old lookup |
| OrderedMap.InsertTwice | src/json.cpp:197 | assigning a key twice is the same as assigning only the last value |
| OrderedMap.InsertEntries | src/json.cpp:197 | after the assignment every entry is the new one or an entry that was already there |
| OrderedMap.InsertLast | src/json.cpp:197 | a key greater than every present key is appended at the end |
| JsonParser.SkipWs | src/json.cpp:74-76 | the first position at or after i that is not std::isspace, with every character skipped a space |
| JsonParser.DigitsEnd | src/json.cpp:115 | the end of the digit run at i: all skipped characters are digits and the next is not |
| JsonParser.Unescape | src/json.cpp:138-148 | an escape is decoded exactly for the eight characters `" \ / b f n r t` |
| JsonParser.ElementsEnd | src/json.cpp:168-176 | after an element: ',' continues with the next element, ']' ends the array with the elements so far, anything else is "Expected ',' or ']'" |
| JsonParser.MembersEnd | src/json.cpp:198-206 | after a member: ',' continues, '}' ends the object, anything else is "Expected ',' or '}'" |
| JsonParser.Parser.constructor | src/json.h:61 | the parser reads the given text with the cursor at 0 |
| JsonParser.ParseValueAt | src/json.cpp:78-88 | the value production: skip blanks, then dispatch on the first character to null, boolean, number, string, array or object; anything else is "Invalid JSON value"; a success ends strictly after where it started |
| JsonParser.Parser.Peek | src/json.cpp:64-67 | the character under the cursor, or '\0' past the end, as the pure productions read it |
| JsonParser.Parser.Get | src/json.cpp:69-72 | returns the character under the cursor and advances; at the end it returns '\0' and does not move |
| JsonParser.Parser.SkipWhitespace | src/json.cpp:74-76 | moves the cursor to the first non-space at or after it |
| JsonParser.Parser.ParseValue | src/json.cpp:78-88 | delivers the result and final cursor of the value production: dispatch on the first non-space character, else "Invalid JSON value" |
| JsonParser.Parser.ParseNull | src/json.cpp:90-96 | delivers the null production: "null" or "Invalid JSON null" |
| JsonParser.Parser.ParseBool | src/json.cpp:98-107 | delivers the boolean production: "true", "false" or "Invalid JSON boolean" |
| JsonParser.Parser.SkipDigits | src/json.cpp:115 | moves the cursor to the end of the digit run |
| JsonParser.Parser.ParseNumber | src/json.cpp:109-128 | delivers the number production: optional '-', then '0' or a digit run, then optionally '.' and at least one digit; the value is that of the lexeme read |
| JsonParser.Parser.ParseString | src/json.cpp:131-155 | delivers the string production: escapes decoded, "Invalid escape character" and "Unterminated string" as the source raises them |
| JsonParser.Parser.ParseArray | src/json.cpp:157-179 | delivers the array production: "[" then blanks then "]" is the empty array, otherwise the element loop |
| JsonParser.Parser.ParseElements | src/json.cpp:165-177 | the element loop delivers the production for the elements from the cursor on |
| JsonParser.Parser.ElementRound | src/json.cpp:166-176 | one trip round the element loop: an error, the finished array, or a cursor strictly further on from which the same production continues with the element appended |
| JsonParser.Parser.ParseObject | src/json.cpp:181-209 | delivers the object production: "{" then blanks then "}" is the empty object, otherwise the member loop |
| JsonParser.Parser.ParseMembers | src/json.cpp:189-207 | the member loop delivers the production for the members from the cursor on |
| JsonParser.Parser.MemberRound | src/json.cpp:190-206 | one trip round the member loop: an error, the finished object, or a cursor strictly further on with the member stored |
| JsonParser.Parser.ParseSeparator | src/json.cpp:198-206 | skips blanks and consumes a ',' or the closing bracket; otherwise it consumes nothing |
| JsonParser.Parser.ParseMember | src/json.cpp:190-197 | reads `"key" : value` and stores the value under the key, or returns the first error: "Expected string key", a string error, "Expected ':'", or a value error |
| JsonParser.Parser.Parse | src/json.cpp:211-214 | JSON::parse is the value production at position 0; trailing text is not looked at |
| JsonParserProperties.SkipWsAt | src/json.cpp:74-76 | the whitespace skip stops exactly at the first non-space after a run of spaces |
| JsonParserProperties.SkipWsIdempotent | src/json.cpp:74-76 | skipping whitespace twice is the same as once |
| JsonParserProperties.DigitsEndAt | src/json.cpp:115 | the digit loop stops exactly at the first non-digit after a run of digits |
| JsonParserProperties.NumberCursors | src/json.cpp:109-126 | an accepted number has an integer part of digits with no digit after a leading '0', and an optional '.' followed by at least one digit; the value is that of text[start..end] |
| JsonParserProperties.NumberSound | src/json.cpp:109-127 | every accepted number is a lexeme: an optional '-', then '0' or a digit run not starting with '0', then optionally '.' and one or more digits; it holds that lexeme's value |
| JsonParserProperties.NumberComplete | src/json.cpp:109-127 | every such lexeme followed by neither a digit nor '.' is accepted in full with its value |
| JsonParserProperties.IntegerEndAt | src/json.cpp:111-118 | the integer part ends where the lexeme's integer part ends |
| JsonParserProperties.FractionEndAt | src/json.cpp:120-124 | the fraction part ends where the lexeme's fraction part ends |
| JsonParserProperties.LeadingZero | src/json.cpp:112-113 | after a leading '0' (not followed by '.') the number ends: "012" reads as 0 |
| JsonParserProperties.MinusWithoutDigit | src/json.cpp:116-117 | a '-' not followed by a digit is "Invalid JSON number" |
| JsonParserProperties.DotWithoutDigit | src/json.cpp:122 | a '.' not followed by a digit is "Invalid JSON number" |
| JsonParserProperties.PlainRun | src/json.cpp:149-151 | a run with no quote, backslash or NUL is copied into the string unchanged |
| JsonParserProperties.PlainStringRoundTrip | src/json.cpp:131-155 | `"s"` with s plain reads back as the string s, with the cursor after the closing quote |
| JsonParserProperties.UnterminatedString | src/json.cpp:153 | a string with no closing quote is "Unterminated string" |
| JsonParserProperties.InvalidEscape | src/json.cpp:147 | a backslash followed by any other character is "Invalid escape character" |
| JsonParserProperties.BackslashAtEnd | src/json.cpp:136-147 | a backslash at the end of the text is "Invalid escape character" |
| JsonParserProperties.EscapeDecoded | src/json.cpp:135-146 | a valid escape appends its decoded character and reading continues after it |
| JsonParserProperties.EmptyArray | src/json.cpp:158-164 | "[", any blanks, "]" is the empty array, with the cursor after ']' |
| JsonParserProperties.ElementsInOrder | src/json.cpp:165-167 | the element loop keeps the elements already read, in order, and the next element is the value read at the cursor |
| JsonParserProperties.ElementsAfterKeeps | src/json.cpp:165-178 | the elements already read stay a prefix of the final array |
| JsonParserProperties.UnexpectedAfterElement | src/json.cpp:174-175 | an element followed by anything other than ',' or ']' is "Expected ',' or ']'" |
| JsonParserProperties.TrailingComma | src/json.cpp:166 | a ']' where an element is expected (a trailing comma) is "Invalid JSON value" |
| JsonParserProperties.KeyMustBeQuoted | src/json.cpp:191 | a member not starting with '"' is "Expected string key" |
| JsonParserProperties.MissingColon | src/json.cpp:194 | a key not followed by ':' is "Expected ':'" |
| JsonParserProperties.MemberAssigns | src/json.cpp:196-197 | after a member the key maps to the value just read and every other key keeps its earlier value, so a repeated key keeps its last value |
| JsonParserProperties.ValueWellFormed | src/json.cpp:78-88 | every parsed value has its objects' keys sorted and unique, at every depth |
| JsonParserProperties.ArrayWellFormed | src/json.cpp:157-179 | every parsed array is well formed |
| JsonParserProperties.ElementsWellFormed | src/json.cpp:165-177 | the element loop keeps every element well formed |
| JsonParserProperties.ObjectWellFormed | src/json.cpp:181-209 | every parsed object is well formed |
| JsonParserProperties.MemberWellFormed | src/json.cpp:196-197 | storing a member keeps the map sorted and its values well formed |
| JsonParserProperties.MembersWellFormed | src/json.cpp:189-207 | the member loop yields a well-formed object |
| JsonParserProperties.DocumentWellFormed | src/json.cpp:211-214 | every document JSON::parse accepts is well formed |
| JsonParserProperties.TrailingTextIgnored | src/json.cpp:211-214 | "null", "true" or "false" followed by any text parses to that value |
| JsonRoundTrip.ValueRoundTrip | src/json.cpp:78-88 | the rendering of null, a boolean or an array of them, after any blanks, parses back to the same value and ends right after the rendering |
| JsonRoundTrip.ArrayRoundTrip | src/json.cpp:157-179 | the rendering of such an array parses back to it |
| JsonRoundTrip.ElementsRoundTrip | src/json.cpp:165-178 | the element loop over the rendered elements from element k on yields the whole array |
| JsonRoundTrip.RenderThenParse | src/json.cpp:30-48 | parsing to_string's text of null, a boolean or an array of them, followed by any text, gives the value back |
| Evaluation.SplitArgs | src/evaluator.cpp:14-31 | parse_arguments always yields at least one argument (the empty text gives one empty argument) |
| Evaluation.MatchFrom | src/evaluator.cpp:326-331 | the position found is in range; the only failure is "Mismatched parentheses" |
| Evaluation.Stoul | src/evaluator.cpp:342 | a converted index is below 2^64 |
| Evaluation.IdentEnd | src/evaluator.cpp:276 | the end of the run of [A-Za-z0-9_] characters: all of them before it, none at it |
| Evaluation.BracketEnd | src/evaluator.cpp:294 | the first ']' at or after i, or the end of the path |
| Evaluation.PowerOp | src/evaluator.cpp:65-66 | `**` succeeds exactly on two numbers, giving pow of them; otherwise "** requires numeric operands" |
| Evaluation.Contribution | src/evaluator.cpp:145-154 | a value that contributes nothing fails with "<name> requires numeric values" |
| Evaluation.Outcomes | src/evaluator.cpp:137-140 | one outcome per argument |
| EvaluationProperties.OutcomeAt | src/evaluator.cpp:137-140 | the outcome at position i is the evaluation of argument i: the futures are in argument order |
| Evaluation.GetValue | src/evaluator.cpp:334-354 | a success is the key's entry in an object or an element of an array; on any other value it fails with "Current value is not an object or array" |
| Evaluation.ResolvePath | src/evaluator.cpp:271-321 | a path that is one leading key segment is a single get_value on the root |
| Evaluation.Eval | src/evaluator.cpp:34-129 | defines evaluate_expression: trim, a '(' after the first character makes a call, else the scans for `**`, `&&`, the or-operator, `%` and `+-*/` in that order on the untrimmed text, else the trimmed text as a path |
| Evaluation.ApplyFunction | src/evaluator.cpp:132-269 | defines evaluate_function: min, max, sum and avg fold all argument outcomes; size, count, abs and round need exactly one argument; any other name is "Unknown function: name" |
| Evaluation.NumbersPrefixError | src/evaluator.cpp:143-155 | once an argument has failed, later arguments do not change the aggregate's error |
| Evaluator.Fold | src/evaluator.cpp:143-245 | the collection loop over the futures computes the aggregate of the outcomes: the first failure, or min, max, sum or avg of the numbers |
| Evaluator.Absorb | src/evaluator.cpp:145-154 | absorbing one future's value succeeds exactly when the value contributes numbers; the count and running min, max or sum then cover them |
| Evaluator.Finish | src/evaluator.cpp:244-245 | the result after the loop is the aggregate of all numbers: min, max and avg of none fail with "<name> requires at least one numeric value" |
| Evaluator.Evaluator.constructor | src/evaluator.h:29 | the evaluator keeps the root value it was given |
| Evaluator.Evaluator.Evaluate | src/evaluator.cpp:10-12 | evaluate gives the expression's value or error |
| Evaluator.Evaluator.ParseArguments | src/evaluator.cpp:14-31 | the depth-tracking loop splits the text exactly at its top-level commas |
| Evaluator.Evaluator.FindMatchingBracket | src/evaluator.cpp:324-332 | the depth loop finds the matching ')' or reports "Mismatched parentheses" |
| Evaluator.Evaluator.EvaluateExpression | src/evaluator.cpp:34-129 | trim, function-call test, operator scans in order, then the path |
| Evaluator.Evaluator.EvaluateCall | src/evaluator.cpp:40-55 | name before '(', arguments up to the matching ')', then the function |
| Evaluator.Evaluator.EvaluateOperators | src/evaluator.cpp:57-128 | the first operator found in the order `**`, `&&`, the or-operator, `%`, `+-*/` splits the expression; with none it is a path |
| Evaluator.Evaluator.EvaluateBinary | src/evaluator.cpp:89-99 | the left side is evaluated before the right, the first failure wins, and then the operator is applied |
| Evaluator.Evaluator.EvaluateArguments | src/evaluator.cpp:137-140 | the futures hold each argument's outcome in argument order |
| Evaluator.Evaluator.EvaluateFunction | src/evaluator.cpp:132-269 | the dispatch on the function name, with each function's checks and messages |
| Evaluator.Evaluator.EvaluateJsonPath | src/evaluator.cpp:271-321 | the leading key is looked up in the root, then the segment loop runs to the end of the path |
| Evaluator.Evaluator.ReadSegment | src/evaluator.cpp:280-317 | a segment is '.' key, '[' index ']', or "Unexpected syntax or character in path" |
| Evaluator.Evaluator.ReadKey | src/evaluator.cpp:281-290 | a '.' segment requires an object and then looks the key up |
| Evaluator.Evaluator.ReadIndex | src/evaluator.cpp:291-314 | an index segment needs a closing ']', or it fails with "Expected ']' for array index access." |
| Evaluator.Evaluator.ReadArrayIndex | src/evaluator.cpp:302-313 | a non-empty all-digit index into an array within bounds, with each failure's message |
| EvaluationProperties.TopCommaFromIsFirst | src/evaluator.cpp:18-26 | the comma the scan stops at is at depth 0 and no earlier comma is |
| EvaluationProperties.FirstTopCommaIsLeast | src/evaluator.cpp:18-26 | the first split point is the least comma at parenthesis depth 0; there is none exactly when no comma is at depth 0 |
| EvaluationProperties.SplitJoin | src/evaluator.cpp:14-31 | joining the arguments with "," gives back the argument text |
| EvaluationProperties.SplitPieces | src/evaluator.cpp:14-31 | no argument contains a comma at depth 0 |
| EvaluationProperties.MatchingBracketCloses | src/evaluator.cpp:324-332 | the match found is a ')' at which the nesting first returns to zero, with the nesting never negative before it; a failure means the nesting never closes |
| EvaluationProperties.CallIgnoresTail | src/evaluator.cpp:44-53 | text after a call's matching ')' does not change its value |
| EvaluationProperties.StoulDigits | src/evaluator.cpp:342 | std::stoul of digits is their decimal value, or out of range from 2^64 on |
| EvaluationProperties.StoulIgnoresTail | src/evaluator.cpp:342 | std::stoul ignores what follows the digits |
| EvaluationProperties.ArrayElement | src/evaluator.cpp:340-350 | get_value on an array with a digit key: the element, "Array index out of bounds: k", or "Array index out of range: k" from 2^64 on |
| EvaluationProperties.ObjectMember | src/evaluator.cpp:335-339 | get_value on an object succeeds exactly for its keys, otherwise "Key not found: k" |
| EvaluationProperties.IdentifierPath | src/evaluator.cpp:276-278 | a path that is a single identifier is get_value on the root |
| EvaluationProperties.LeadingSegment | src/evaluator.cpp:276-280 | the leading identifier is looked up first and its failure is the path's failure |
| EvaluationProperties.DottedPath | src/evaluator.cpp:281-290 | `a.b` looks a up, then requires an object ("Invalid key access on non-object type: b") and looks b up |
| EvaluationProperties.IndexedPath | src/evaluator.cpp:291-311 | `a[n]` looks a up, then gives element n, out of bounds, not an array, or the escaping out_of_range from 2^64 on |
| EvaluationProperties.DigitIndex | src/evaluator.cpp:302-311 | an all-digit index gives the element or the matching failure |
| EvaluationProperties.UnclosedIndex | src/evaluator.cpp:294-297 | an index with no closing ']' fails with "Expected ']' for array index access." |
| EvaluationProperties.AndTable | src/evaluator.cpp:76 | `&&` is the truth table on non-zero numbers; a zero left side never looks at the right one; a non-number fails with "Value is not a number" |
| EvaluationProperties.OrTable | src/evaluator.cpp:86 | the or-operator is the truth table on non-zero numbers; a non-zero left side never looks at the right one; a non-number fails |
| EvaluationProperties.ArithTable | src/evaluator.cpp:111-124 | `+ - * /` on numbers; '/' by zero is "Division by zero"; non-numbers fail |
| EvaluationProperties.TruncateTowardZero | src/evaluator.cpp:98 | static_cast<int> rounds toward zero, less than 1 away |
| EvaluationProperties.TruncRemDivision | src/evaluator.cpp:98 | C++ `%` is the remainder of truncating division, with the dividend's sign and below the divisor in size |
| EvaluationProperties.ModTakesDividendSign | src/evaluator.cpp:98 | -7 % 2 is -1 and 7.5 % -2 is 1 |
| EvaluationProperties.RoundHalfAwayFromZero | src/evaluator.cpp:265 | std::round gives an integer at most 1/2 away, is odd-symmetric, and sends halves away from zero |
| EvaluationProperties.MinOfIsLeast | src/evaluator.cpp:148-151 | min is one of the numbers and no number is below it |
| EvaluationProperties.MaxOfIsGreatest | src/evaluator.cpp:173-176 | max is one of the numbers and no number is above it |
| EvaluationProperties.SumOfBounds | src/evaluator.cpp:210-213 | a sum of n numbers between lo and hi is between n*lo and n*hi |
| EvaluationProperties.AvgBetween | src/evaluator.cpp:244-245 | avg lies between min and max |
| EvaluationProperties.NumbersAllAccepted | src/evaluator.cpp:143-155 | when every argument succeeds and contributes, the aggregate's numbers are collected |
| EvaluationProperties.NumbersFirstError | src/evaluator.cpp:143-155 | the first argument in order that fails or does not contribute decides the error, whatever the later ones do |
| EvaluationProperties.NumbersOfNumbers | src/evaluator.cpp:150-151 | number arguments contribute themselves, in order |
| EvaluationProperties.IdentifierEval | src/evaluator.cpp:34-128 | an identifier expression has no call and no operator and is looked up in the root |
| EvaluationProperties.DigitsAreKeys | src/evaluator.cpp:334-339 | "1" on an empty object is "Key not found: 1": digits are keys, not literals |
| EvaluationProperties.PathOperand | src/evaluator.cpp:34-128 | a text with no '(' and no operator character, such as `a.b[2] `, is its trimmed text resolved as a path |
| EvaluationProperties.TextualPrecedence | src/evaluator.cpp:102-109 | with an operator-free left part (any path) and nothing an earlier scan looks for after it, the expression splits at its first arithmetic character, the left side evaluated before the whole rest |
| EvaluationProperties.ArithmeticOnNumbers | src/evaluator.cpp:101-124 | such an expression whose two sides evaluate to numbers is their sum, difference, product or quotient, or "Division by zero" |
| EvaluationProperties.NumberOperands | src/evaluator.cpp:115-123 | the arithmetic operator on two numbers, with '/' by zero failing |
| EvaluationProperties.TimesBeforePlus | src/evaluator.cpp:101-124 | `x*y+z` with x and y any paths is x*(y+z): the '*' splits first and y+z is its right operand |
| EvaluationProperties.TimesBeforePlusNumbers | src/evaluator.cpp:101-124 | with numbers a, b, c under x, y and z, `x*y+z` is a*(b+c) |
| EvaluationProperties.PathArithmetic | src/evaluator.cpp:101-124 | `a.b[2] * a.b[3] + a.b[4]` is `a.b[2] ` times the sum of ` a.b[3] ` and ` a.b[4]` |
| EvaluationProperties.PathArithmeticOperands | src/evaluator.cpp:34-128 | each of those three operand texts is its path without the blanks |
| EvaluationProperties.DivisionByZero | src/evaluator.cpp:121-122 | `x/y` with x a path to a number and y evaluating to zero is "Division by zero" |
| EvaluationProperties.EmptyArgument | src/evaluator.cpp:40-53 | `min()` and the other aggregates get one empty argument, evaluated as the key "" |
| EvaluationProperties.FunctionDispatch | src/evaluator.cpp:183-268 | an unknown name is "Unknown function: name", a one-argument function given another count is "name requires exactly one argument", and otherwise it is applied to its argument's value |
| EvaluationProperties.SizeAndCount | src/evaluator.cpp:183-255 | size accepts exactly strings, arrays and objects; count exactly arrays and strings, and where both accept they agree |

## Left out

- Floating point. Numbers are mathematical reals, so rounding of `double`
  arithmetic, infinities and NaN are not modelled. `std::stod` is the exact
  decimal value of the lexeme. For a lexeme outside the range of `double`,
  such as an integer part of 400 digits (src/json.cpp:126), `std::stod`
  throws `std::out_of_range`, which the driver does not catch; the model
  returns the exact value instead. `std::pow` is a parameter (`pow`), and so is
  `ostream << double` (`fmt`). `std::abs` and `std::round` are their
  mathematical definitions.
- The `±infinity` starting values of `min` and `max`. The model counts the
  numbers seen instead. The two agree except on infinite inputs, which reals
  do not have.
- The `int count` of `avg` overflowing after 2^31 numbers.
- `std::async`. Arguments are evaluated one after another. The futures are
  collected in argument order, so the first failure in that order is the
  error.
- The C++ locale. `isspace`, `isdigit` and `isalnum` are the ASCII classes of
  the C locale. Characters are Dafny `char`, not bytes.
- Undefined behaviour in `%` (an operand outside `int`, a zero divisor,
  `INT_MIN % -1`) is `Abort`. An index of 2^64 or more in a `[n]` path
  segment is `Abort` too: it throws a `std::out_of_range` that escapes as
  neither JSONError nor EvalError.
- Evaluation.IndexInto and Evaluator.Evaluator.ReadArrayIndex: the
  assignment `current = arr[index]` at src/evaluator.cpp:311 copies an
  element of `current`'s own vector into `current`. For a number, boolean or
  null element the `std::variant` assignment destroys that vector before it
  reads the element, which is undefined behaviour. The model gives the
  element, as value semantics intend, and not `Abort`.
- src/main.cpp (the command-line driver, file reading and printing) and
  src/test.cpp are not part of this model. The C++ exception classes are
  the `Error` datatype.
- JsonParser.ParseArrayAt and JsonParser.ParseObjectAt: at the end of the
  text they raise at once the error the C++ falls through to. Written out
  so that the recursion has a measure; the result is the same.
- Evaluator.Evaluator.ParseArguments: the loop changes the depth through one
  function of the character for '(' and ')'. The effect matches the C++
  branches.
- JsonRoundTrip.RenderThenParse: proved only for null, booleans and arrays of
  them. Numbers depend on the `fmt` parameter. Strings are rendered without
  quotes, so they do not read back. For objects the proof is out of the
  verifier's reach within this project's limits.
