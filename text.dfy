/**
 * Character classes of the parser's regular expressions, literal
 * occurrences, maximal runs of a character class, decimal digits, and the
 * `str.split("\n")` / `"\n".join(...)` pair.
 */
module Text {

  /** `\d`, restricted to the decimal digits of Latin-1 (which are the ASCII ones). */
  predicate IsDigit(c: char) {
    '0' <= c <= '9'
  }

  predicate IsAsciiLetter(c: char) {
    'a' <= c <= 'z' || 'A' <= c <= 'Z'
  }

  /** The class `[a-zA-Z ]` of an account name. */
  predicate IsNameChar(c: char) {
    IsAsciiLetter(c) || c == ' '
  }

  /**
   * `\w` on a `str`: alphanumeric characters and the underscore. Within
   * Latin-1 this is exact; characters above U+00FF count as non-word here.
   */
  predicate IsWordChar(c: char) {
    || IsAsciiLetter(c) || IsDigit(c) || c == '_'
    || c == 'ª' || c == '²' || c == '³' || c == 'µ'
    || c == '¹' || c == 'º' || c == '¼' || c == '½' || c == '¾'
    || ('À' <= c <= 'ÿ' && c != '×' && c != '÷')
  }

  /** The class `[\w ]` of an account id. */
  predicate IsIdChar(c: char) {
    IsWordChar(c) || c == ' '
  }

  /** `\s` on a `str`: the characters for which `str.isspace()` holds. */
  predicate IsSpace(c: char) {
    || c == ' ' || ('\t' <= c <= '\r') || ('\U{1C}' <= c <= '\U{1F}')
    || c == '\U{85}' || c == '\U{A0}' || c == '\U{1680}'
    || ('\U{2000}' <= c <= '\U{200A}') || c == '\U{2028}' || c == '\U{2029}'
    || c == '\U{202F}' || c == '\U{205F}' || c == '\U{3000}'
  }

  predicate IsNotNewline(c: char) {
    c != '\n'
  }

  /** The character classes of the patterns' greedy runs. */
  datatype CharClass =
    | Digit          // `\d`
    | Word           // `\w`
    | WordOrSpace    // `[\w ]`
    | DigitOrSpace   // `[\d ]`
    | NotNewline     // `.` without DOTALL

  predicate InClass(c: char, cls: CharClass) {
    match cls
    case Digit => IsDigit(c)
    case Word => IsWordChar(c)
    case WordOrSpace => IsIdChar(c)
    case DigitOrSpace => IsDigit(c) || c == ' '
    case NotNewline => IsNotNewline(c)
  }

  /** The literal `lit` occurs in `s` starting at offset `i`. */
  predicate At(s: string, i: nat, lit: string) {
    i + |lit| <= |s| && s[i..i + |lit|] == lit
  }

  /**
   * The end of the longest run of characters of class `cls` that starts at
   * offset `i`: what a greedy `[...]+`/`[...]*` consumes.
   */
  function RunEnd(s: string, i: nat, cls: CharClass): (e: nat)
    requires i <= |s|
    ensures i <= e <= |s|
    ensures forall k :: i <= k < e ==> InClass(s[k], cls)
    ensures e < |s| ==> !InClass(s[e], cls)
    decreases |s| - i
  {
    if i < |s| && InClass(s[i], cls) then RunEnd(s, i + 1, cls) else i
  }

  /** A run that is followed by a character outside its class is the longest run. */
  lemma RunEndIs(s: string, i: nat, cls: CharClass, e: nat)
    requires i <= e < |s|
    requires forall k :: i <= k < e ==> InClass(s[k], cls)
    requires !InClass(s[e], cls)
    ensures RunEnd(s, i, cls) == e
  {
  }

  function DigitValue(c: char): (v: nat)
    requires IsDigit(c)
    ensures v < 10
  {
    c as int - '0' as int
  }

  function DigitChar(v: nat): (c: char)
    requires v < 10
    ensures IsDigit(c) && DigitValue(c) == v
  {
    ('0' as int + v) as char
  }

  predicate AllDigits(d: string) {
    forall k :: 0 <= k < |d| ==> IsDigit(d[k])
  }

  /** The value of a string of decimal digits, most significant first; `""` is 0. */
  function DigitsValue(d: string): nat
    requires AllDigits(d)
  {
    if d == [] then 0 else DigitsValue(d[..|d| - 1]) * 10 + DigitValue(d[|d| - 1])
  }

  /** The decimal rendering of `n` without leading zeros. */
  function DigitString(n: nat): (d: string)
    ensures AllDigits(d) && |d| >= 1
    ensures DigitsValue(d) == n
  {
    if n < 10 then [DigitChar(n)]
    else
      var d := DigitString(n / 10) + [DigitChar(n % 10)];
      assert d[..|d| - 1] == DigitString(n / 10);
      d
  }

  /** The offset of the first `'\n'` at or after `i`, or `|s|` when there is none. */
  function LineEnd(s: string, i: nat): (e: nat)
    requires i <= |s|
    ensures i <= e <= |s| && (e < |s| ==> s[e] == '\n')
    ensures forall k :: i <= k < e ==> s[k] != '\n'
  {
    RunEnd(s, i, NotNewline)
  }

  /** `s.split("\n")`: the pieces between line breaks, always at least one. */
  function Split(s: string): (parts: seq<string>)
    ensures |parts| >= 1
    ensures forall k :: 0 <= k < |parts| ==> '\n' !in parts[k]
    decreases |s|
  {
    var e := LineEnd(s, 0);
    assert forall c :: c in s[..e] ==> c != '\n';
    if e == |s| then [s] else [s[..e]] + Split(s[e + 1..])
  }

  /** `"\n".join(parts)`. */
  function Join(parts: seq<string>): string
  {
    if |parts| == 0 then ""
    else if |parts| == 1 then parts[0]
    else parts[0] + "\n" + Join(parts[1..])
  }

  /** Joining the pieces back with line breaks gives the original text. */
  lemma {:induction false} JoinSplit(s: string)
    ensures Join(Split(s)) == s
    decreases |s|
  {
    var e := LineEnd(s, 0);
    if e < |s| {
      JoinSplit(s[e + 1..]);
      assert s == s[..e] + "\n" + s[e + 1..];
    }
  }

  /** Splitting line-break-free pieces joined with line breaks gives the pieces back. */
  lemma {:induction false} SplitJoin(parts: seq<string>)
    requires |parts| >= 1
    requires forall k :: 0 <= k < |parts| ==> '\n' !in parts[k]
    ensures Split(Join(parts)) == parts
  {
    var s := Join(parts);
    var p0 := parts[0];
    if |parts| == 1 {
      RunEndIsEnd(s, 0);
    } else {
      var rest := Join(parts[1..]);
      assert s == p0 + "\n" + rest;
      assert forall k :: 0 <= k < |p0| ==> s[k] == p0[k];
      LineEndIs(s, 0, |p0|);
      assert s[..|p0|] == p0;
      assert s[|p0| + 1..] == rest;
      SplitJoin(parts[1..]);
    }
  }

  /** A line break preceded only by other characters ends the line. */
  lemma LineEndIs(s: string, i: nat, e: nat)
    requires i <= e < |s| && s[e] == '\n'
    requires forall k :: i <= k < e ==> s[k] != '\n'
    ensures LineEnd(s, i) == e
  {
    RunEndIs(s, i, NotNewline, e);
  }

  /** A text without line breaks is one line. */
  lemma RunEndIsEnd(s: string, i: nat)
    requires i <= |s|
    requires forall k :: i <= k < |s| ==> s[k] != '\n'
    ensures LineEnd(s, i) == |s|
  {
  }

  /** Splitting at line breaks yields one more piece than there are line breaks. */
  lemma {:induction false} SplitCount(s: string)
    ensures |Split(s)| == NewlineCount(s) + 1
    decreases |s|
  {
    var e := LineEnd(s, 0);
    NewlineCountNone(s[..e]);
    if e < |s| {
      assert s == s[..e] + [s[e]] + s[e + 1..];
      NewlineCountConcat(s[..e] + [s[e]], s[e + 1..]);
      NewlineCountConcat(s[..e], [s[e]]);
      SplitCount(s[e + 1..]);
    } else {
      assert s[..e] == s;
    }
  }

  function NewlineCount(s: string): nat
  {
    if s == [] then 0 else (if s[0] == '\n' then 1 else 0) + NewlineCount(s[1..])
  }

  lemma {:induction false} NewlineCountConcat(a: string, b: string)
    ensures NewlineCount(a + b) == NewlineCount(a) + NewlineCount(b)
  {
    if a != [] {
      assert (a + b)[1..] == a[1..] + b;
      NewlineCountConcat(a[1..], b);
    } else {
      assert a + b == b;
    }
  }

  lemma {:induction false} NewlineCountNone(a: string)
    requires forall k :: 0 <= k < |a| ==> a[k] != '\n'
    ensures NewlineCount(a) == 0
  {
    if a != [] {
      NewlineCountNone(a[1..]);
    }
  }
}
