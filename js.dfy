/** The few pieces of JavaScript semantics the chat client and the relay
    server depend on: dynamically typed values and their truthiness, the
    conversion `String(v)`, `String.prototype.trim` and
    `String.prototype.toLowerCase`. Strings are sequences of characters. */
module Js {

  /** A JavaScript value as far as the chat code can observe it.
      `Other` stands for every number, boolean, object and array: the code
      only ever asks such a value whether it is truthy and what its string
      conversion is, so it carries exactly those two facts. */
  datatype JsVal =
    | Undefined
    | Null
    | Str(s: string)
    | Other(truthy: bool, text: string)

  /** `if (v)` and `!v`: `undefined`, `null` and the empty string are
      falsy; a non-empty string is truthy. */
  predicate Truthy(v: JsVal)
    ensures v.Undefined? || v.Null? ==> !Truthy(v)
    ensures v.Str? ==> (Truthy(v) <==> |v.s| > 0)
  {
    match v
    case Undefined => false
    case Null => false
    case Str(s) => s != ""
    case Other(t, _) => t
  }

  /** `String(v)`, as used by a template literal `${v}` and by
      `document.createTextNode(v)`. */
  function ToText(v: JsVal): (r: string)
    ensures v.Str? ==> r == v.s
    ensures v.Undefined? ==> r == "undefined"
    ensures v.Null? ==> r == "null"
  {
    match v
    case Undefined => "undefined"
    case Null => "null"
    case Str(s) => s
    case Other(_, t) => t
  }

  /** Assigning to the DOM attribute `textContent`, whose type is a
      nullable string: `null` and `undefined` both give the empty text. */
  function NullableText(v: JsVal): (r: string)
    ensures v.Undefined? || v.Null? ==> r == ""
    ensures !(v.Undefined? || v.Null?) ==> r == ToText(v)
  {
    if v.Undefined? || v.Null? then "" else ToText(v)
  }

  /** The characters `trim()` removes: the ECMAScript WhiteSpace
      (TAB, VT, FF, SP, NBSP, ZWNBSP and every space separator) and
      LineTerminator (LF, CR, LS, PS) code points. */
  predicate IsJsWhitespace(c: char)
    ensures IsJsWhitespace(c) ==> c as int <= 0xFEFF
    ensures ('0' <= c <= '9' || 'A' <= c <= 'Z' || 'a' <= c <= 'z') ==> !IsJsWhitespace(c)
    ensures '\U{AC00}' <= c <= '\U{D7A3}' ==> !IsJsWhitespace(c)
  {
    c == '\t' || c == '\n' || c == '\U{000B}' || c == '\U{000C}' || c == '\r' ||
    c == ' ' || c == '\U{00A0}' || c == '\U{1680}' ||
    ('\U{2000}' <= c <= '\U{200A}') ||
    c == '\U{2028}' || c == '\U{2029}' || c == '\U{202F}' || c == '\U{205F}' ||
    c == '\U{3000}' || c == '\U{FEFF}'
  }

  predicate AllWhitespace(s: string) {
    forall i :: 0 <= i < |s| ==> IsJsWhitespace(s[i])
  }

  /** A string that `trim()` leaves as it is. */
  predicate IsTrimmed(s: string) {
    s == [] || (!IsJsWhitespace(s[0]) && !IsJsWhitespace(s[|s| - 1]))
  }

  /** Drops the leading whitespace: the result is the suffix of `s` that
      starts at its first non-whitespace character. */
  function TrimStart(s: string): (r: string)
    ensures |r| <= |s| && r == s[|s| - |r|..]
    ensures AllWhitespace(s[..|s| - |r|])
    ensures r != [] ==> !IsJsWhitespace(r[0])
  {
    if s != [] && IsJsWhitespace(s[0]) then TrimStart(s[1..]) else s
  }

  /** Drops the trailing whitespace: the result is the prefix of `s` that
      ends at its last non-whitespace character. */
  function TrimEnd(s: string): (r: string)
    ensures |r| <= |s| && r == s[..|r|]
    ensures AllWhitespace(s[|r|..])
    ensures r != [] ==> !IsJsWhitespace(r[|r| - 1])
  {
    if s != [] && IsJsWhitespace(s[|s| - 1]) then TrimEnd(s[..|s| - 1]) else s
  }

  /** `s.trim()`. */
  function Trim(s: string): (r: string)
    ensures IsTrimmed(r)
  {
    TrimEnd(TrimStart(s))
  }

  /** What `trim()` promises: the result starts and ends with a
      non-whitespace character, it is no longer than `s`, and it is empty
      exactly when `s` is all whitespace. */
  lemma {:induction false} TrimSpec(s: string)
    ensures IsTrimmed(Trim(s))
    ensures |Trim(s)| <= |s|
    ensures Trim(s) == [] <==> AllWhitespace(s)
  {
    var a := TrimStart(s);
    var i := |s| - |a|;
    if Trim(s) == [] {
      assert a[0..] == a;
      assert s[..|s|] == s;
    } else {
      assert Trim(s)[0] == a[0] == s[i];
      assert !IsJsWhitespace(s[i]);
    }
  }

  /** `trim()` leaves a string that has nothing to trim unchanged. */
  lemma {:induction false} TrimOfTrimmed(s: string)
    requires IsTrimmed(s)
    ensures Trim(s) == s
  {
    if s != [] {
      assert TrimStart(s) == s;
      assert !IsJsWhitespace(s[|s| - 1]);
    }
  }

  /** Trimming twice is trimming once. */
  lemma TrimIdempotent(s: string)
    ensures Trim(Trim(s)) == Trim(s)
  {
    TrimSpec(s);
    TrimOfTrimmed(Trim(s));
  }

  /** `toLowerCase()` on one character. Only the Latin capitals A-Z are
      mapped; every other character is left as it is (Hangul, digits,
      punctuation). */
  function LowerChar(c: char): char {
    if 'A' <= c <= 'Z' then (c as int + 32) as char else c
  }

  /** `s.toLowerCase()`, character by character. */
  function ToLower(s: string): (r: string)
    ensures |r| == |s|
    ensures forall i :: 0 <= i < |s| ==> r[i] == LowerChar(s[i])
  {
    if s == [] then [] else [LowerChar(s[0])] + ToLower(s[1..])
  }

  /** A string without Latin capitals is its own lower-case form; in
      particular every Hangul string is. */
  lemma ToLowerFixed(s: string)
    requires forall i :: 0 <= i < |s| ==> !('A' <= s[i] <= 'Z')
    ensures ToLower(s) == s
  {
  }
}
