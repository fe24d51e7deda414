/** The client-side form rules: the five password requirements shown while the
    user types, and the per-field "Required" check. */
module FieldRules {
  import opened Chars

  /** The keys of `passwordRequirements`. */
  datatype Requirement = Length | Uppercase | Lowercase | Number | Special

  const MinLength := 12

  /** The members of the class `[!@#$%^&*(),.?":{}|<>]`; inside brackets none of
      them is special and there is no range. */
  const SpecialChars: string := "!@#$%^&*(),.?\":{}|<>"

  predicate IsSpecialChar(c: char) { c in SpecialChars }

  /** `/[...]/.test(p)` for a one-class pattern: the search succeeds at some position. */
  function ContainsClass(p: string, cls: char -> bool): (b: bool)
    ensures b <==> exists i :: 0 <= i < |p| && cls(p[i])
  {
    if p == [] then false
    else if cls(p[0]) then true
    else
      assert forall i :: 1 <= i < |p| ==> p[i] == p[1..][i - 1];
      ContainsClass(p[1..], cls)
  }

  /** `passwordRequirements[req](p)` */
  function Meets(req: Requirement, p: string): bool
  {
    match req
    case Length => Utf16Length(p) >= MinLength
    case Uppercase => ContainsClass(p, IsAsciiUpper)
    case Lowercase => ContainsClass(p, IsAsciiLower)
    case Number => ContainsClass(p, IsAsciiDigit)
    case Special => ContainsClass(p, IsSpecialChar)
  }

  /** What each requirement means, stated without the search. */
  lemma RequirementMeaning(p: string)
    ensures Meets(Length, p) <==> Utf16Length(p) >= 12
    ensures (forall i :: 0 <= i < |p| ==> p[i] as int < 0x1_0000) ==> (Meets(Length, p) <==> |p| >= 12)
    ensures Meets(Uppercase, p) <==> exists i :: 0 <= i < |p| && 'A' <= p[i] <= 'Z'
    ensures Meets(Lowercase, p) <==> exists i :: 0 <= i < |p| && 'a' <= p[i] <= 'z'
    ensures Meets(Number, p) <==> exists i :: 0 <= i < |p| && '0' <= p[i] <= '9'
    ensures Meets(Special, p) <==> exists i :: 0 <= i < |p| && p[i] in "!@#$%^&*(),.?\":{}|<>"
  {
  }

  /** A requirement once met stays met however the password is extended, at
      either end. */
  lemma {:induction false} MeetsStable(req: Requirement, p: string, q: string)
    requires Meets(req, p)
    ensures Meets(req, p + q)
    ensures Meets(req, q + p)
  {
    if req == Length {
      Utf16LengthConcat(p, q);
      Utf16LengthConcat(q, p);
    } else {
      var cls := match req
        case Uppercase => IsAsciiUpper
        case Lowercase => IsAsciiLower
        case Number => IsAsciiDigit
        case Special => IsSpecialChar;
      var i :| 0 <= i < |p| && cls(p[i]);
      assert (p + q)[i] == p[i];
      assert (q + p)[|q| + i] == p[i];
    }
  }

  // ---------------------------------------------------------------------------
  // validateField

  /** The seven field names that `validateField` checks. */
  const RequiredFields: set<string> :=
    {"firstName", "lastName", "username", "email", "password", "confirmPassword", "birthday"}

  /** The value consists of whitespace only (or nothing). */
  predicate IsBlank(s: string) { forall i :: 0 <= i < |s| ==> IsJsWhitespace(s[i]) }

  /** Length of the run of whitespace that `s` starts with. */
  function LeadingBlanks(s: string): (n: nat)
    ensures n <= |s|
    ensures forall k :: 0 <= k < n ==> IsJsWhitespace(s[k])
    ensures n < |s| ==> !IsJsWhitespace(s[n])
  {
    if s != [] && IsJsWhitespace(s[0]) then
      assert forall k :: 1 <= k < |s| ==> s[k] == s[1..][k - 1];
      1 + LeadingBlanks(s[1..])
    else 0
  }

  /** Length of the run of whitespace that `s` ends with. */
  function TrailingBlanks(s: string): (n: nat)
    ensures n <= |s|
    ensures forall k :: |s| - n <= k < |s| ==> IsJsWhitespace(s[k])
    ensures n < |s| ==> !IsJsWhitespace(s[|s| - 1 - n])
  {
    if s != [] && IsJsWhitespace(s[|s| - 1]) then
      1 + TrailingBlanks(s[..|s| - 1])
    else 0
  }

  /** `value.trim()`: the value without its leading and trailing whitespace. */
  function Trim(s: string): (t: string)
    ensures LeadingBlanks(s) == |s| ==> t == []
    ensures LeadingBlanks(s) < |s| ==>
      LeadingBlanks(s) < |s| - TrailingBlanks(s) && t == s[LeadingBlanks(s)..|s| - TrailingBlanks(s)]
  {
    var lead := LeadingBlanks(s);
    if lead == |s| then [] else s[lead..|s| - TrailingBlanks(s)]
  }

  /** `trim` cuts a blank prefix (of length `i`) and a blank suffix off the
      value and keeps the middle, which neither starts nor ends with whitespace. */
  lemma TrimShape(s: string)
    ensures var t, i := Trim(s), LeadingBlanks(s);
      i + |t| <= |s| && t == s[i..i + |t|] &&
      (forall k :: 0 <= k < i ==> IsJsWhitespace(s[k])) &&
      (forall k :: i + |t| <= k < |s| ==> IsJsWhitespace(s[k])) &&
      (t == [] || (!IsJsWhitespace(t[0]) && !IsJsWhitespace(t[|t| - 1])))
  {
    var lead, trail := LeadingBlanks(s), TrailingBlanks(s);
    if lead < |s| {
      TrimEnds(s);
    } else {
      assert Trim(s) == [] == s[lead..lead];
    }
  }

  lemma TrimEnds(s: string)
    requires LeadingBlanks(s) < |s|
    ensures Trim(s) != [] && !IsJsWhitespace(Trim(s)[0]) && !IsJsWhitespace(Trim(s)[|Trim(s)| - 1])
  {
    var lead, trail, t := LeadingBlanks(s), TrailingBlanks(s), Trim(s);
    assert |t| == |s| - trail - lead;
    assert t[0] == s[lead] && !IsJsWhitespace(s[lead]);
    assert t[|t| - 1] == s[|s| - 1 - trail] && !IsJsWhitespace(s[|s| - 1 - trail]);
  }

  /** Trimming leaves nothing exactly when the value is blank. */
  lemma TrimEmptyIffBlank(s: string)
    ensures Trim(s) == [] <==> IsBlank(s)
  {
  }

  /** `validateField(name, value, formData)`: `'Required'` for a blank value of
      one of the seven named fields, `''` otherwise. `formData` is accepted and
      not consulted. */
  function ValidateField(name: string, value: string, formData: map<string, string>): (err: string)
    ensures err == "Required" <==> name in RequiredFields && IsBlank(value)
    ensures err != "Required" ==> err == ""
  {
    TrimEmptyIffBlank(value);
    if name in RequiredFields && Trim(value) == [] then "Required" else ""
  }

  /** Only the name and the value decide; the form data never does. */
  lemma ValidateFieldIgnoresFormData(name: string, value: string, f1: map<string, string>, f2: map<string, string>)
    ensures ValidateField(name, value, f1) == ValidateField(name, value, f2)
    ensures name !in RequiredFields ==> ValidateField(name, value, f1) == ""
  {
  }
}
