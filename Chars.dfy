/** Character classes used by the regular expressions and string methods of the
    validators. Strings are sequences of characters (code points); a JavaScript
    string is a sequence of UTF-16 code units. The two agree on every character
    these classes mention (none of them lies outside the Basic Multilingual
    Plane); where the source takes `.length`, `Utf16Length` counts code units. */
module Chars {

  /** `[A-Z]` */
  predicate IsAsciiUpper(c: char) { 'A' <= c <= 'Z' }

  /** `[a-z]` */
  predicate IsAsciiLower(c: char) { 'a' <= c <= 'z' }

  /** `[0-9]`, and `\d` (which in a non-Unicode JavaScript regex is exactly `[0-9]`) */
  predicate IsAsciiDigit(c: char) { '0' <= c <= '9' }

  /** `[a-zA-Z]` */
  predicate IsAsciiLetter(c: char) { IsAsciiUpper(c) || IsAsciiLower(c) }

  /** `[a-zA-Z0-9]` */
  predicate IsAsciiAlnum(c: char) { IsAsciiLetter(c) || IsAsciiDigit(c) }

  /** The ECMAScript WhiteSpace and LineTerminator code points. This one set is what
      the regex escape `\s` matches and what `String.prototype.trim` removes. */
  predicate IsJsWhitespace(c: char)
  {
    c == '\t' || c == '\n' || c == '\U{000B}' || c == '\U{000C}' || c == '\r' || c == ' ' ||
    c == '\U{00A0}' || c == '\U{1680}' || ('\U{2000}' <= c <= '\U{200A}') ||
    c == '\U{2028}' || c == '\U{2029}' || c == '\U{202F}' || c == '\U{205F}' ||
    c == '\U{3000}' || c == '\U{FEFF}'
  }

  /** Every character of `s` satisfies the class `p` (the body of an anchored `^[...]*$`). */
  predicate All(s: string, p: char -> bool)
  {
    forall i :: 0 <= i < |s| ==> p(s[i])
  }

  /** Number of occurrences of `c` in `s`. */
  function Count(s: string, c: char): (n: nat)
    ensures n <= |s|
    ensures n == 0 <==> c !in s
  {
    if s == [] then 0 else (if s[0] == c then 1 else 0) + Count(s[1..], c)
  }

  lemma {:induction false} CountConcat(a: string, b: string, c: char)
    ensures Count(a + b, c) == Count(a, c) + Count(b, c)
  {
    if a != [] {
      assert (a + b)[1..] == a[1..] + b;
      CountConcat(a[1..], b, c);
    } else {
      assert a + b == b;
    }
  }

  /** `s.length` in JavaScript: the number of UTF-16 code units, one for a
      character of the Basic Multilingual Plane and two (a surrogate pair) for
      any other. */
  function Utf16Length(s: string): (n: nat)
    ensures |s| <= n <= 2 * |s|
    ensures n == |s| <==> forall i :: 0 <= i < |s| ==> s[i] as int < 0x1_0000
  {
    if s == [] then 0
    else
      assert forall i :: 1 <= i < |s| ==> s[i] == s[1..][i - 1];
      (if s[0] as int < 0x1_0000 then 1 else 2) + Utf16Length(s[1..])
  }

  lemma {:induction false} Utf16LengthConcat(a: string, b: string)
    ensures Utf16Length(a + b) == Utf16Length(a) + Utf16Length(b)
  {
    if a != [] {
      assert (a + b)[1..] == a[1..] + b;
      Utf16LengthConcat(a[1..], b);
    } else {
      assert a + b == b;
    }
  }
}
