/** The parts of the C++ string library the system relies on, over
    `string` = `seq<char>`: the C-locale character classes of <cctype>,
    std::string::find, find_first_of and operator<, the trimming done by
    erase/find_first_not_of/find_last_not_of, and the decimal value of a
    digit string. */
module Text {
  import opened Errors

  // ---------------------------------------------------------------- <cctype>

  /** std::isspace in the "C" locale: space, \t, \n, \v, \f, \r. */
  predicate IsSpace(c: char) {
    c == ' ' || c == '\t' || c == '\n' || c == '\U{000B}' || c == '\U{000C}' || c == '\r'
  }

  /** std::isdigit. */
  predicate IsDigit(c: char) {
    '0' <= c <= '9'
  }

  /** std::isalnum in the "C" locale. */
  predicate IsAlnum(c: char) {
    IsDigit(c) || 'a' <= c <= 'z' || 'A' <= c <= 'Z'
  }

  /** A character of a path segment: std::isalnum or '_'. */
  predicate IsIdentChar(c: char) {
    IsAlnum(c) || c == '_'
  }

  /** The characters " \t\n\r" that the evaluator trims. */
  predicate IsBlank(c: char) {
    c == ' ' || c == '\t' || c == '\n' || c == '\r'
  }

  predicate AllDigits(s: string) {
    forall i :: 0 <= i < |s| ==> IsDigit(s[i])
  }

  /** The number of leading decimal digits of s. */
  function DigitPrefixLength(s: string): (n: nat)
    ensures n <= |s| && AllDigits(s[..n])
    ensures n < |s| ==> !IsDigit(s[n])
  {
    if |s| == 0 || !IsDigit(s[0]) then 0 else 1 + DigitPrefixLength(s[1..])
  }

  /** std::string::substr(i, n): at most n characters from i on. */
  function Substr(s: string, i: nat, n: nat): (t: string)
    requires i <= |s|
    ensures |t| == if i + n <= |s| then n else |s| - i
  {
    if i + n <= |s| then s[i..i + n] else s[i..]
  }

  // ------------------------------------------------------ find, find_first_of

  /** pat occurs in s starting at index i. */
  predicate OccursAt(s: string, pat: string, i: nat) {
    i + |pat| <= |s| && s[i..i + |pat|] == pat
  }

  /** std::string::find(pat, i): the leftmost occurrence at or after i. */
  function FindFrom(s: string, pat: string, i: nat): (r: Option<nat>)
    requires i <= |s|
    ensures r.Some? ==> i <= r.value && OccursAt(s, pat, r.value)
    ensures r.Some? ==> forall j :: i <= j < r.value ==> !OccursAt(s, pat, j)
    ensures r.None? ==> forall j :: i <= j <= |s| ==> !OccursAt(s, pat, j)
    decreases |s| - i
  {
    if OccursAt(s, pat, i) then Some(i)
    else if i == |s| then None
    else FindFrom(s, pat, i + 1)
  }

  /** std::string::find(pat). */
  function Find(s: string, pat: string): Option<nat> {
    FindFrom(s, pat, 0)
  }

  /** std::string::find_first_of(cs, i): the leftmost character of s at or
      after i that belongs to cs. */
  function FirstOfFrom(s: string, cs: set<char>, i: nat): (r: Option<nat>)
    requires i <= |s|
    ensures r.Some? ==> i <= r.value < |s| && s[r.value] in cs
    ensures r.Some? ==> forall j :: i <= j < r.value ==> s[j] !in cs
    ensures r.None? ==> forall j :: i <= j < |s| ==> s[j] !in cs
    decreases |s| - i
  {
    if i == |s| then None
    else if s[i] in cs then Some(i)
    else FirstOfFrom(s, cs, i + 1)
  }

  function FirstOf(s: string, cs: set<char>): Option<nat> {
    FirstOfFrom(s, cs, 0)
  }

  // ------------------------------------------------------------------ trimming

  /** find_first_not_of(" \t\n\r"), with |s| for npos. */
  function TrimStart(s: string): (a: nat)
    ensures a <= |s|
    ensures forall i :: 0 <= i < a ==> IsBlank(s[i])
    ensures a < |s| ==> !IsBlank(s[a])
  {
    if |s| == 0 || !IsBlank(s[0]) then 0 else 1 + TrimStart(s[1..])
  }

  /** find_last_not_of(" \t\n\r") + 1, with 0 for npos. */
  function TrimEnd(s: string): (b: nat)
    ensures b <= |s|
    ensures forall i :: b <= i < |s| ==> IsBlank(s[i])
    ensures b > 0 ==> !IsBlank(s[b - 1])
  {
    if |s| == 0 || !IsBlank(s[|s| - 1]) then |s| else TrimEnd(s[..|s| - 1])
  }

  /** s with leading and trailing " \t\n\r" erased; a string of blanks
      becomes empty. */
  function Trim(s: string): (t: string)
    ensures |t| <= |s|
    ensures t == [] || (!IsBlank(t[0]) && !IsBlank(t[|t| - 1]))
    ensures t != [] ==> TrimStart(s) < TrimEnd(s) && t == s[TrimStart(s)..TrimEnd(s)]
    ensures t == [] ==> forall i :: 0 <= i < |s| ==> IsBlank(s[i])
  {
    var a, b := TrimStart(s), TrimEnd(s);
    if a < b then s[a..b] else []
  }

  /** Trimming leaves a string alone exactly when it neither starts nor
      ends with a blank. */
  lemma TrimIdentity(s: string)
    ensures Trim(s) == s <==> (s == [] || (!IsBlank(s[0]) && !IsBlank(s[|s| - 1])))
  {
    if s != [] && !IsBlank(s[0]) && !IsBlank(s[|s| - 1]) {
      assert TrimStart(s) == 0;
      assert TrimEnd(s) == |s|;
    }
  }

  // ---------------------------------------------------------------------- join

  /** The parts with sep between consecutive ones. */
  function Join(parts: seq<string>, sep: string): string {
    if |parts| == 0 then ""
    else if |parts| == 1 then parts[0]
    else Join(parts[..|parts| - 1], sep) + sep + parts[|parts| - 1]
  }

  lemma {:induction false} JoinCons(p: string, ps: seq<string>, sep: string)
    requires |ps| > 0
    ensures Join([p] + ps, sep) == p + sep + Join(ps, sep)
  {
    if |ps| == 1 {
      assert ([p] + ps)[..1] == [p];
    } else {
      var init := ps[..|ps| - 1];
      assert ([p] + ps)[..|ps|] == [p] + init;
      JoinCons(p, init, sep);
    }
  }

  /** A joined list starts with the first character of its first part. */
  lemma {:induction false} JoinFirst(parts: seq<string>, sep: string)
    requires |parts| > 0 && |parts[0]| > 0
    ensures |Join(parts, sep)| > 0 && Join(parts, sep)[0] == parts[0][0]
  {
    if |parts| > 1 {
      var init := parts[..|parts| - 1];
      assert init[0] == parts[0];
      JoinFirst(init, sep);
    }
  }

  // ----------------------------------------------------------- string order

  /** std::string operator<: lexicographic by character code, a proper
      prefix before the longer string. */
  predicate StrLess(a: string, b: string) {
    if |a| == 0 then |b| > 0
    else if |b| == 0 then false
    else if a[0] != b[0] then a[0] < b[0]
    else StrLess(a[1..], b[1..])
  }

  lemma {:induction false} StrLessIrreflexive(a: string)
    ensures !StrLess(a, a)
  {
    if |a| > 0 {
      StrLessIrreflexive(a[1..]);
    }
  }

  lemma {:induction false} StrLessTransitive(a: string, b: string, c: string)
    requires StrLess(a, b) && StrLess(b, c)
    ensures StrLess(a, c)
  {
    if |a| > 0 && a[0] == b[0] && b[0] == c[0] {
      StrLessTransitive(a[1..], b[1..], c[1..]);
    }
  }

  lemma {:induction false} StrLessTotal(a: string, b: string)
    requires a != b
    ensures StrLess(a, b) || StrLess(b, a)
  {
    if |a| > 0 && |b| > 0 && a[0] == b[0] {
      assert a == [a[0]] + a[1..] && b == [b[0]] + b[1..];
      StrLessTotal(a[1..], b[1..]);
    }
  }

  // ------------------------------------------------------------ decimal digits

  function DigitValue(c: char): nat {
    if IsDigit(c) then (c as int - '0' as int) else 0
  }

  /** The value of a string of decimal digits, most significant first. */
  function DigitsValue(ds: string): nat {
    if |ds| == 0 then 0 else 10 * DigitsValue(ds[..|ds| - 1]) + DigitValue(ds[|ds| - 1])
  }

  function Pow10(n: nat): (p: nat)
    ensures p >= 1
  {
    if n == 0 then 1 else 10 * Pow10(n - 1)
  }
}
