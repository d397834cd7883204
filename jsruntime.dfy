/**
 * The parts of the JavaScript runtime the core relies on: JSON values and their
 * truthiness, `Number(...)`, white space as `trim()` and the regex class `\s` see it,
 * `includes`, `indexOf`, `lastIndexOf`, `substring` and an ASCII `toUpperCase`.
 * The parsing routines themselves (JSON.parse, the string-to-number conversion,
 * parseFloat) are foreign library code and are passed in as a `Library` of functions.
 */
module JsRuntime {
  import opened Wrappers

  /** A value as JSON.parse produces it. */
  datatype Json =
    | JNull
    | JBool(b: bool)
    | JNum(n: real)
    | JStr(s: string)
    | JArr(items: seq<Json>)
    | JObj(fields: map<string, Json>)

  /** JavaScript truthiness: null, false, 0 and "" are falsy; arrays and objects are truthy. */
  predicate Truthy(v: Json) {
    match v
    case JNull => false
    case JBool(b) => b
    case JNum(n) => n != 0.0
    case JStr(s) => s != ""
    case JArr(_) => true
    case JObj(_) => true
  }

  /**
   * The library routines whose internals are not modelled. Each is a total
   * function; None stands for a thrown SyntaxError (jsonParse) or for NaN.
   */
  datatype Library = Library(
    jsonParse: string -> Option<Json>,
    stringToNumber: string -> Option<real>,
    parseFloat: string -> Option<real>)

  /** `v.key` for a parsed value: only objects have the property; anything else gives undefined. */
  function Field(v: Json, key: string): (r: Option<Json>)
    ensures r.Some? <==> v.JObj? && key in v.fields
    ensures r.Some? ==> r.value == v.fields[key]
  {
    if v.JObj? && key in v.fields then Some(v.fields[key]) else None
  }

  /**
   * `Number(v)`, None for NaN. undefined is NaN, null is 0, booleans are 0 and 1,
   * strings go through the library conversion, objects are NaN, and an array is
   * converted through its comma-joined text: "" for an empty one (so the
   * conversion of ""), its element's text for one element, and a text with a
   * comma (never numeric) for more.
   */
  function ToNumber(v: Option<Json>, lib: Library): Option<real>
  {
    match v
    case None => None
    case Some(JNull) => Some(0.0)
    case Some(JBool(b)) => Some(if b then 1.0 else 0.0)
    case Some(JNum(n)) => Some(n)
    case Some(JStr(s)) => lib.stringToNumber(s)
    case Some(JArr(xs)) => ArrayToNumber(xs, lib)
    case Some(JObj(_)) => None
  }

  function ArrayToNumber(xs: seq<Json>, lib: Library): Option<real>
    decreases xs, 1
  {
    if |xs| == 0 then lib.stringToNumber("")
    else if |xs| == 1 then ElementTextToNumber(xs[0], lib)
    else None
  }

  /** The number of the text an array element is joined as. */
  function ElementTextToNumber(e: Json, lib: Library): Option<real>
    decreases e, 0
  {
    match e
    case JNull => lib.stringToNumber("")
    case JBool(_) => None
    case JNum(n) => Some(n)
    case JStr(s) => lib.stringToNumber(s)
    case JArr(ys) => ArrayToNumber(ys, lib)
    case JObj(_) => None
  }

  /**
   * A one-element array converts like its element, except for null (joined as "",
   * whereas `Number(null)` is 0) and booleans (joined as "true" or "false", never numeric).
   */
  lemma SingletonArrayNumber(e: Json, lib: Library)
    ensures !e.JNull? && !e.JBool? ==> ToNumber(Some(JArr([e])), lib) == ToNumber(Some(e), lib)
    ensures e.JNull? ==> ToNumber(Some(JArr([e])), lib) == lib.stringToNumber("")
    ensures e.JBool? ==> ToNumber(Some(JArr([e])), lib).None?
  {
    var xs := [e];
    assert |xs| == 1 && xs[0] == e;
    assert ToNumber(Some(JArr(xs)), lib) == ArrayToNumber(xs, lib) == ElementTextToNumber(e, lib);
  }

  /** `Number(x) || fallback`: NaN and 0 are falsy, so both give the fallback. */
  function OrDefault(n: Option<real>, fallback: real): (r: real)
    ensures r == fallback <==> n.None? || n.value == 0.0 || n.value == fallback
    ensures r != fallback ==> n == Some(r) && r != 0.0
  {
    if n.Some? && n.value != 0.0 then n.value else fallback
  }

  /** ECMAScript WhiteSpace and LineTerminator code points: what `trim()` strips and `\s` matches. */
  predicate IsWhitespace(c: char) {
    var n := c as int;
    n == 0x09 || n == 0x0A || n == 0x0B || n == 0x0C || n == 0x0D || n == 0x20
    || n == 0xA0 || n == 0x1680 || (0x2000 <= n <= 0x200A) || n == 0x2028 || n == 0x2029
    || n == 0x202F || n == 0x205F || n == 0x3000 || n == 0xFEFF
  }

  predicate AllWhitespace(s: string) {
    forall i :: 0 <= i < |s| ==> IsWhitespace(s[i])
  }

  /** Drops the leading white space. */
  function TrimStart(s: string): (r: string)
    ensures r == [] <==> AllWhitespace(s)
    ensures r == [] || !IsWhitespace(r[0])
    ensures |r| <= |s| && r == s[|s| - |r|..]
    ensures AllWhitespace(s[..|s| - |r|])
  {
    if s != [] && IsWhitespace(s[0]) then
      var r := TrimStart(s[1..]);
      assert s[1..][..|s[1..]| - |r|] == s[1..|s| - |r|];
      r
    else s
  }

  /** Drops the trailing white space. */
  function TrimEnd(s: string): (r: string)
    ensures r == [] <==> AllWhitespace(s)
    ensures r == [] || !IsWhitespace(r[|r| - 1])
    ensures |r| <= |s| && r == s[..|r|]
    ensures AllWhitespace(s[|r|..])
  {
    if s != [] && IsWhitespace(s[|s| - 1]) then
      var r := TrimEnd(s[..|s| - 1]);
      assert s[..|s| - 1][|r|..] + [s[|s| - 1]] == s[|r|..];
      r
    else s
  }

  /** `s.trim()`: empty exactly when `s` is all white space, and never starts or ends with it. */
  function Trim(s: string): (r: string)
    ensures r == [] <==> AllWhitespace(s)
    ensures r != [] ==> !IsWhitespace(r[0]) && !IsWhitespace(r[|r| - 1])
    ensures |r| <= |s|
  {
    TrimEnd(TrimStart(s))
  }

  /** `s.includes(sub)`. */
  predicate Includes(s: string, sub: string)
    decreases |s|
  {
    sub <= s || (s != [] && Includes(s[1..], sub))
  }

  /** A text found in a later part of `s` is found in `s`. */
  lemma {:induction false} IncludesSuffix(s: string, k: nat, sub: string)
    requires k <= |s| && Includes(s[k..], sub)
    ensures Includes(s, sub)
    decreases k
  {
    if k > 0 {
      assert s[1..][k - 1..] == s[k..];
      IncludesSuffix(s[1..], k - 1, sub);
    }
  }

  /** Whatever includes `a + b` includes `b`. */
  lemma {:induction false} IncludesRight(s: string, a: string, b: string)
    requires Includes(s, a + b)
    ensures Includes(s, b)
    decreases |s|
  {
    if a + b <= s {
      assert b <= s[|a|..];
      IncludesSuffix(s, |a|, b);
    } else {
      IncludesRight(s[1..], a, b);
      IncludesSuffix(s, 1, b);
    }
  }

  /** `pat` occurs in `s` starting at index `k`. */
  predicate OccursAt(s: string, pat: string, k: nat) {
    k + |pat| <= |s| && s[k..k + |pat|] == pat
  }

  /** `s.indexOf(pat, from)`: the first occurrence at or after `from`, or -1. */
  function IndexOfFrom(s: string, pat: string, from: nat): (k: int)
    ensures k == -1 || (from <= k && OccursAt(s, pat, k))
    ensures forall m :: from <= m && (k == -1 || m < k) ==> !OccursAt(s, pat, m)
    decreases |s| - from
  {
    if from + |pat| > |s| then -1
    else if OccursAt(s, pat, from) then from
    else IndexOfFrom(s, pat, from + 1)
  }

  /** `s.indexOf(c)` for one character. */
  function IndexOf(s: string, c: char): (k: int)
    ensures -1 <= k < |s|
    ensures k == -1 <==> c !in s
    ensures k >= 0 ==> s[k] == c && c !in s[..k]
  {
    if s == [] then -1
    else if s[0] == c then 0
    else
      var k := IndexOf(s[1..], c);
      assert s[1..][..if k < 0 then 0 else k] == s[1..if k < 0 then 1 else k + 1];
      if k == -1 then -1 else k + 1
  }

  /** `s.lastIndexOf(c)` for one character. */
  function LastIndexOf(s: string, c: char): (k: int)
    ensures -1 <= k < |s|
    ensures k == -1 <==> c !in s
    ensures k >= 0 ==> s[k] == c && c !in s[k + 1..]
  {
    if s == [] then -1
    else if s[|s| - 1] == c then |s| - 1
    else
      var init := s[..|s| - 1];
      var k := LastIndexOf(init, c);
      assert s == init + [s[|s| - 1]];
      if k == -1 then -1
      else
        assert s[k + 1..] == init[k + 1..] + [s[|s| - 1]];
        k
  }

  /**
   * `s.substring(a, b)`: both bounds are clamped to the length, and they are
   * swapped when `a` is the larger.
   */
  function Substring(s: string, a: nat, b: nat): (r: string)
    ensures a <= b <= |s| ==> r == s[a..b]
    ensures b < a <= |s| ==> r == s[b..a]
  {
    var lo := if a <= b then a else b;
    var hi := if a <= b then b else a;
    var lo' := if lo <= |s| then lo else |s|;
    var hi' := if hi <= |s| then hi else |s|;
    s[lo'..hi']
  }

  /** The ASCII case mapping of `toUpperCase`. */
  function UpperChar(c: char): char {
    if 'a' <= c <= 'z' then (c as int - 32) as char else c
  }

  /**
   * `s.toUpperCase()` restricted to ASCII letters: each lower-case ASCII letter
   * becomes the upper-case letter at the same place in the alphabet, and every
   * other character is kept.
   */
  function ToUpperCase(s: string): (r: string)
    ensures |r| == |s|
    ensures forall i :: 0 <= i < |r| ==> !('a' <= r[i] <= 'z')
    ensures forall i :: 0 <= i < |r| ==> (r[i] == s[i] || 'a' <= s[i] <= 'z')
    ensures forall i :: 0 <= i < |s| && 'a' <= s[i] <= 'z' ==>
      'A' <= r[i] <= 'Z' && r[i] as int - 'A' as int == s[i] as int - 'a' as int
  {
    seq(|s|, i requires 0 <= i < |s| => UpperChar(s[i]))
  }

  /** Upper-casing twice is upper-casing once. */
  lemma UpperCaseIdempotent(s: string)
    ensures ToUpperCase(ToUpperCase(s)) == ToUpperCase(s)
  {
  }
}
