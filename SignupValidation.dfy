/** The server-side signup validator: an ordered chain of guards over the seven
    fields of a signup request. The first guard that fails decides the error
    message sent back with status 400; a request that passes every guard is
    handed on to the next handler. */
module SignupValidation {
  import opened Chars

  /** The request body. A field missing from the body is `undefined` in the source
      and is represented here by the empty string: both are falsy, so the first
      guard treats them alike, and no later guard looks at a field that is either. */
  datatype SignupRequest = SignupRequest(
    username: string,
    email: string,
    password: string,
    confirmPassword: string,
    firstName: string,
    lastName: string,
    birthday: string)

  /** A calendar date. `today` is the UTC date of the moment of validation: the
      clock read by `new Date()` is a parameter of the model. */
  datatype Date = Date(year: int, month: int, day: int)

  /** The guards, in the order the validator runs them. */
  datatype SignupError =
    | MissingField
    | BadUsername
    | BadEmail
    | ShortPassword
    | PasswordMismatch
    | BadName
    | BadBirthdayFormat
    | FutureBirthday

  datatype Outcome = Proceed | Reject(error: SignupError)

  /** The `error` text of the 400 response for each guard. */
  function Message(e: SignupError): string
  {
    match e
    case MissingField => "All fields are required"
    case BadUsername => "Username must be 3-20 alphanumeric characters"
    case BadEmail => "Invalid email format"
    case ShortPassword => "Password must be at least 6 characters long"
    case PasswordMismatch => "Passwords do not match"
    case BadName => "Names can only contain letters, spaces, and hyphens (2-30 characters)"
    case BadBirthdayFormat => "Invalid birthday format (YYYY-MM-DD)"
    case FutureBirthday => "Birthday must be in the past"
  }

  /** Each guard has its own message, so the caller can tell which one failed. */
  lemma MessagesDistinct(e1: SignupError, e2: SignupError)
    ensures Message(e1) == Message(e2) <==> e1 == e2
  {
    // The eight messages have eight different lengths.
    if e1 != e2 {
      MessageLength(e1);
      MessageLength(e2);
      assert |Message(e1)| != |Message(e2)|;
    }
  }

  function MessageLengthOf(e: SignupError): nat
  {
    match e
    case MissingField => 23
    case BadUsername => 45
    case BadEmail => 20
    case ShortPassword => 43
    case PasswordMismatch => 22
    case BadName => 69
    case BadBirthdayFormat => 36
    case FutureBirthday => 28
  }

  lemma MessageLength(e: SignupError)
    ensures |Message(e)| == MessageLengthOf(e)
  {
  }

  // ---------------------------------------------------------------------------
  // The patterns, one predicate per regular expression.

  const MinPasswordLength := 6

  /** `/^[a-zA-Z0-9]{3,20}$/` */
  predicate IsValidUsername(s: string)
  {
    3 <= |s| <= 20 && All(s, IsAsciiAlnum)
  }

  /** `[^\s@]`: the class of characters allowed in each part of an email address. */
  predicate IsEmailChar(c: char)
  {
    !IsJsWhitespace(c) && c != '@'
  }

  /** What `/^[^\s@]+@[^\s@]+\.[^\s@]+$/` matches, read off the regex: the string
      splits at an `@` (index `at`) and at a later `.` (index `dot`) into three
      non-empty runs of `[^\s@]`. */
  ghost predicate EmailPattern(s: string)
  {
    exists at: nat, dot: nat ::
      0 < at && at + 1 < dot && dot + 1 < |s| && s[at] == '@' && s[dot] == '.' &&
      (forall k :: 0 <= k < |s| && k != at ==> IsEmailChar(s[k]))
  }

  /** Index of the first occurrence of `c` in `s`, or `|s|` when there is none. */
  function IndexOf(s: string, c: char): (i: nat)
    ensures i <= |s|
    ensures i < |s| ==> s[i] == c
    ensures forall k :: 0 <= k < i ==> s[k] != c
  {
    if s == [] then 0 else if s[0] == c then 0 else 1 + IndexOf(s[1..], c)
  }

  /** The email test as a scan: split at the first `@`; the part before it is
      non-empty; the part after it contains no `@`, and a `.` strictly inside it;
      no character is whitespace. */
  predicate IsValidEmail(s: string)
  {
    var at := IndexOf(s, '@');
    0 < at < |s| &&
    var domain := s[at + 1..];
    '@' !in domain && All(s, c => !IsJsWhitespace(c)) &&
    |domain| >= 3 && '.' in domain[1..|domain| - 1]
  }

  /** `/^[a-zA-Z\s-]{2,30}$/` */
  predicate IsNameChar(c: char) { IsAsciiLetter(c) || IsJsWhitespace(c) || c == '-' }

  predicate IsValidName(s: string)
  {
    2 <= |s| <= 30 && All(s, IsNameChar)
  }

  /** `/^\d{4}-\d{2}-\d{2}$/` */
  predicate IsBirthdayFormat(s: string)
  {
    |s| == 10 && s[4] == '-' && s[7] == '-' &&
    forall i :: 0 <= i < 10 && i != 4 && i != 7 ==> IsAsciiDigit(s[i])
  }

  function DigitValue(c: char): (v: nat)
    requires IsAsciiDigit(c)
    ensures v < 10
  {
    c as int - '0' as int
  }

  /** Decimal value of a run of digits. */
  function DecimalValue(s: string): nat
    requires All(s, IsAsciiDigit)
  {
    if s == [] then 0 else 10 * DecimalValue(s[..|s| - 1]) + DigitValue(s[|s| - 1])
  }

  /** The value of a two-digit run. */
  lemma TwoDigitValue(t: string)
    requires |t| == 2 && All(t, IsAsciiDigit)
    ensures DecimalValue(t) == 10 * DigitValue(t[0]) + DigitValue(t[1])
  {
    assert t[..1][..0] == [];
    assert DecimalValue(t[..1]) == DigitValue(t[0]);
  }

  /** The value of a four-digit run. */
  lemma FourDigitValue(t: string)
    requires |t| == 4 && All(t, IsAsciiDigit)
    ensures DecimalValue(t) ==
      1000 * DigitValue(t[0]) + 100 * DigitValue(t[1]) + 10 * DigitValue(t[2]) + DigitValue(t[3])
  {
    assert t[..3][..2] == t[..2];
    assert t[..2][..1] == t[..1];
    assert t[..1][..0] == [];
    assert DecimalValue(t[..1]) == DigitValue(t[0]);
    assert DecimalValue(t[..2]) == 10 * DigitValue(t[0]) + DigitValue(t[1]);
  }

  datatype Option<T> = None | Some(value: T)

  // ---------------------------------------------------------------------------
  // The proleptic Gregorian calendar that `Date` counts in.

  predicate IsLeapYear(y: int)
  {
    y % 4 == 0 && (y % 100 != 0 || y % 400 == 0)
  }

  function DaysInMonth(y: int, m: int): (n: int)
    requires 1 <= m <= 12
    ensures 28 <= n <= 31
  {
    if m == 2 then (if IsLeapYear(y) then 29 else 28)
    else if m == 4 || m == 6 || m == 9 || m == 11 then 30
    else 31
  }

  /** A day that exists in the calendar. */
  predicate IsCalendarDate(d: Date)
  {
    1 <= d.month <= 12 && 1 <= d.day <= DaysInMonth(d.year, d.month)
  }

  /** The day after a calendar date. */
  function NextDay(d: Date): (e: Date)
    requires IsCalendarDate(d)
    ensures IsCalendarDate(e)
  {
    if d.day < DaysInMonth(d.year, d.month) then d.(day := d.day + 1)
    else if d.month < 12 then Date(d.year, d.month + 1, 1)
    else Date(d.year + 1, 1, 1)
  }

  /** The date `n` days after a calendar date, counted one day at a time. */
  function AddDays(d: Date, n: nat): (e: Date)
    requires IsCalendarDate(d)
    ensures IsCalendarDate(e)
  {
    if n == 0 then d else NextDay(AddDays(d, n - 1))
  }

  /** The date V8 builds from a month in 1..12 and a day in 1..31: a day past
      the end of the month counts on into the next one (`2021-02-31` is 3 March).
      December has 31 days, so the year never changes. */
  function RollOver(d: Date): (e: Date)
    requires 1 <= d.month <= 12 && 1 <= d.day <= 31
    ensures IsCalendarDate(e) && e.year == d.year
    ensures IsCalendarDate(d) ==> e == d
  {
    var len := DaysInMonth(d.year, d.month);
    if d.day <= len then d else Date(d.year, d.month + 1, d.day - len)
  }

  /** The rolled-over date is the first of the written month plus `day - 1` days. */
  lemma RollOverCountsOn(d: Date)
    requires 1 <= d.month <= 12 && 1 <= d.day <= 31
    ensures RollOver(d) == AddDays(Date(d.year, d.month, 1), d.day - 1)
  {
    CountOn(d.year, d.month, d.day - 1);
  }

  lemma {:induction false} CountOn(y: int, m: int, k: nat)
    requires 1 <= m <= 12 && k <= 30
    ensures AddDays(Date(y, m, 1), k) == RollOver(Date(y, m, k + 1))
  {
    if k > 0 {
      CountOn(y, m, k - 1);
    }
  }

  /** `new Date(birthday)` for a string of the birthday format, as V8 reads it
      when it is a valid date-only ISO string (a month in 1..12 and a day in
      1..31): midnight UTC of that date, where a day past the end of its month
      rolls over into the next month. Every other string of the format is
      taken as an Invalid Date, here `None`; V8 instead hands such a string to
      its legacy parser, which for some years (`0001-01-32`) finds a date. */
  function ParseBirthday(s: string): (d: Option<Date>)
    requires IsBirthdayFormat(s)
    ensures var m, day := 10 * DigitValue(s[5]) + DigitValue(s[6]), 10 * DigitValue(s[8]) + DigitValue(s[9]);
      d.Some? <==> 1 <= m <= 12 && 1 <= day <= 31
    ensures var y := 1000 * DigitValue(s[0]) + 100 * DigitValue(s[1]) + 10 * DigitValue(s[2]) + DigitValue(s[3]);
      var m, day := 10 * DigitValue(s[5]) + DigitValue(s[6]), 10 * DigitValue(s[8]) + DigitValue(s[9]);
      d.Some? ==> d.value == RollOver(Date(y, m, day))
    ensures d.Some? ==> IsCalendarDate(d.value) && 0 <= d.value.year <= 9999
  {
    assert All(s[0..4], IsAsciiDigit) && All(s[5..7], IsAsciiDigit) && All(s[8..10], IsAsciiDigit);
    var y, m, d := DecimalValue(s[0..4]), DecimalValue(s[5..7]), DecimalValue(s[8..10]);
    FourDigitValue(s[0..4]);
    TwoDigitValue(s[5..7]);
    TwoDigitValue(s[8..10]);
    if 1 <= m <= 12 && 1 <= d <= 31 then Some(RollOver(Date(y, m, d))) else None
  }

  /** Strict chronological order of calendar dates. */
  predicate After(a: Date, b: Date)
  {
    a.year > b.year ||
    (a.year == b.year && (a.month > b.month || (a.month == b.month && a.day > b.day)))
  }

  /** `birthdayDate > new Date()`: midnight UTC of the birthday lies after the
      present moment exactly when the birthday is a later date than today. An
      Invalid Date compares false with everything, so it is never in the future
      (which includes the strings `ParseBirthday` takes as Invalid Dates). */
  predicate IsFutureBirthday(s: string, today: Date)
    requires IsBirthdayFormat(s)
  {
    var d := ParseBirthday(s);
    d.Some? && After(d.value, today)
  }

  // ---------------------------------------------------------------------------
  // The validator.

  predicate AllPresent(r: SignupRequest)
  {
    r.username != [] && r.email != [] && r.password != [] && r.confirmPassword != [] &&
    r.firstName != [] && r.lastName != [] && r.birthday != []
  }

  /** `validateSignup`: the guards in source order, the first failing one deciding. */
  function ValidateSignup(r: SignupRequest, today: Date): (o: Outcome)
    ensures o == FirstViolation(Violations(r, today))
  {
    EmailScanMatchesPattern(r.email);
    if !AllPresent(r) then Reject(MissingField)
    else if !IsValidUsername(r.username) then Reject(BadUsername)
    else if !IsValidEmail(r.email) then Reject(BadEmail)
    else if Utf16Length(r.password) < MinPasswordLength then Reject(ShortPassword)
    else if r.password != r.confirmPassword then Reject(PasswordMismatch)
    else if !IsValidName(r.firstName) || !IsValidName(r.lastName) then Reject(BadName)
    else if !IsBirthdayFormat(r.birthday) then Reject(BadBirthdayFormat)
    else if IsFutureBirthday(r.birthday, today) then Reject(FutureBirthday)
    else Proceed
  }

  /** Reference definition: every rule the request breaks, each judged on its own,
      listed in rule order. */
  ghost function Violations(r: SignupRequest, today: Date): seq<SignupError>
  {
    (if !AllPresent(r) then [MissingField] else []) +
    (if !IsValidUsername(r.username) then [BadUsername] else []) +
    (if !EmailPattern(r.email) then [BadEmail] else []) +
    (if Utf16Length(r.password) < MinPasswordLength then [ShortPassword] else []) +
    (if r.password != r.confirmPassword then [PasswordMismatch] else []) +
    (if !IsValidName(r.firstName) || !IsValidName(r.lastName) then [BadName] else []) +
    (if !IsBirthdayFormat(r.birthday) then [BadBirthdayFormat] else []) +
    (if IsBirthdayFormat(r.birthday) && IsFutureBirthday(r.birthday, today) then [FutureBirthday] else [])
  }

  function FirstViolation(v: seq<SignupError>): Outcome
  {
    if v == [] then Proceed else Reject(v[0])
  }

  /** The scan accepts exactly the strings the email regex matches. */
  lemma EmailScanMatchesPattern(s: string)
    ensures IsValidEmail(s) <==> EmailPattern(s)
  {
    if IsValidEmail(s) { ScanImpliesPattern(s); }
    if EmailPattern(s) { PatternImpliesScan(s); }
  }

  lemma ScanImpliesPattern(s: string)
    requires IsValidEmail(s)
    ensures EmailPattern(s)
  {
    var at := IndexOf(s, '@');
    var domain := s[at + 1..];
    var j :| 0 <= j < |domain| - 2 && domain[1..|domain| - 1][j] == '.';
    var dot := at + 2 + j;
    assert s[dot] == '.' by { assert s[dot] == domain[j + 1]; }
    forall k | 0 <= k < |s| && k != at
      ensures IsEmailChar(s[k])
    {
      if k > at { assert s[k] == domain[k - at - 1]; }
    }
  }

  lemma PatternImpliesScan(s: string)
    requires EmailPattern(s)
    ensures IsValidEmail(s)
  {
    var at: nat, dot: nat :|
      0 < at && at + 1 < dot && dot + 1 < |s| && s[at] == '@' && s[dot] == '.' &&
      (forall k :: 0 <= k < |s| && k != at ==> IsEmailChar(s[k]));
    assert IndexOf(s, '@') == at;
    var domain := s[at + 1..];
    forall k | 0 <= k < |domain| ensures domain[k] != '@' {
      assert domain[k] == s[at + 1 + k];
    }
    assert domain[1..|domain| - 1][dot - at - 2] == '.';
  }

  // ---------------------------------------------------------------------------
  // Properties of the validator.

  /** An empty (or missing) field is reported before anything else is looked at. */
  lemma MissingFieldReportedFirst(r: SignupRequest, today: Date)
    requires r.username == [] || r.email == [] || r.password == [] || r.confirmPassword == [] ||
             r.firstName == [] || r.lastName == [] || r.birthday == []
    ensures ValidateSignup(r, today) == Reject(MissingField)
    ensures Message(ValidateSignup(r, today).error) == "All fields are required"
  {
  }

  /** A request is handed on exactly when it satisfies every rule. */
  lemma ProceedsIffAllRulesHold(r: SignupRequest, today: Date)
    ensures ValidateSignup(r, today) == Proceed <==>
      AllPresent(r) &&
      IsValidUsername(r.username) &&
      EmailPattern(r.email) &&
      Utf16Length(r.password) >= MinPasswordLength && r.password == r.confirmPassword &&
      IsValidName(r.firstName) && IsValidName(r.lastName) &&
      IsBirthdayFormat(r.birthday) && !IsFutureBirthday(r.birthday, today)
  {
    var v := Violations(r, today);
    if v == [] {
      assert AllPresent(r);
    }
  }

  /** Whatever guard fails first decides; each rejection names a rule the request
      breaks, and every guard before it passed. */
  lemma RejectionBreaksItsRule(r: SignupRequest, today: Date)
    ensures ValidateSignup(r, today) == Reject(MissingField) ==>
      !AllPresent(r)
    ensures ValidateSignup(r, today) == Reject(BadUsername) ==>
      AllPresent(r) && !IsValidUsername(r.username)
    ensures ValidateSignup(r, today) == Reject(BadEmail) ==>
      AllPresent(r) && IsValidUsername(r.username) && !EmailPattern(r.email)
    ensures ValidateSignup(r, today) == Reject(ShortPassword) ==>
      AllPresent(r) && IsValidUsername(r.username) && EmailPattern(r.email) &&
      Utf16Length(r.password) < MinPasswordLength
    ensures ValidateSignup(r, today) == Reject(PasswordMismatch) ==>
      AllPresent(r) && IsValidUsername(r.username) && EmailPattern(r.email) &&
      Utf16Length(r.password) >= MinPasswordLength && r.password != r.confirmPassword
    ensures ValidateSignup(r, today) == Reject(BadName) ==>
      AllPresent(r) && IsValidUsername(r.username) && EmailPattern(r.email) &&
      Utf16Length(r.password) >= MinPasswordLength && r.password == r.confirmPassword &&
      (!IsValidName(r.firstName) || !IsValidName(r.lastName))
    ensures ValidateSignup(r, today) == Reject(BadBirthdayFormat) ==>
      AllPresent(r) && IsValidUsername(r.username) && EmailPattern(r.email) &&
      Utf16Length(r.password) >= MinPasswordLength && r.password == r.confirmPassword &&
      IsValidName(r.firstName) && IsValidName(r.lastName) && !IsBirthdayFormat(r.birthday)
    ensures ValidateSignup(r, today) == Reject(FutureBirthday) ==>
      Violations(r, today) == [FutureBirthday]
  {
    EmailScanMatchesPattern(r.email);
  }

  /** A username gets past its guard only with 3 to 20 ASCII letters or digits. */
  lemma AcceptedUsername(r: SignupRequest, today: Date)
    requires ValidateSignup(r, today) != Reject(MissingField)
    requires ValidateSignup(r, today) != Reject(BadUsername)
    ensures 3 <= |r.username| <= 20
    ensures forall i :: 0 <= i < |r.username| ==> IsAsciiAlnum(r.username[i])
  {
  }

  /** A password shorter than six UTF-16 code units is rejected as such whatever
      the confirmation says, once the earlier guards pass. */
  lemma ShortPasswordRejected(r: SignupRequest, today: Date)
    requires AllPresent(r) && IsValidUsername(r.username) && EmailPattern(r.email)
    requires Utf16Length(r.password) < MinPasswordLength
    ensures ValidateSignup(r, today) == Reject(ShortPassword)
  {
    EmailScanMatchesPattern(r.email);
  }

  /** `.length` counts code units: three characters outside the Basic
      Multilingual Plane make a password of length six, not too short; a password
      of such characters is long enough from three of them on. */
  lemma AstralCharactersCountTwice(p: string)
    requires forall i :: 0 <= i < |p| ==> p[i] as int >= 0x1_0000
    ensures Utf16Length(p) == 2 * |p|
    ensures |p| >= 3 ==> Utf16Length(p) >= MinPasswordLength
    ensures Utf16Length("\U{1F600}\U{1F600}\U{1F600}") == MinPasswordLength
  {
    AllAstral(p);
    var smileys := "\U{1F600}\U{1F600}\U{1F600}";
    AllAstral(smileys);
  }

  lemma {:induction false} AllAstral(p: string)
    requires forall i :: 0 <= i < |p| ==> p[i] as int >= 0x1_0000
    ensures Utf16Length(p) == 2 * |p|
  {
    if p != [] {
      assert forall i :: 1 <= i < |p| ==> p[1..][i - 1] == p[i];
      AllAstral(p[1..]);
    }
  }

  /** The shape of an accepted email address. */
  lemma AcceptedEmailShape(s: string)
    requires EmailPattern(s)
    ensures forall i :: 0 <= i < |s| ==> !IsJsWhitespace(s[i])
    ensures Count(s, '@') == 1
    ensures var at := IndexOf(s, '@');
      0 < at < |s| &&
      var domain := s[at + 1..];
      exists j :: 0 < j < |domain| - 1 && domain[j] == '.'
  {
    EmailScanMatchesPattern(s);
    var at := IndexOf(s, '@');
    var domain := s[at + 1..];
    assert s == s[..at] + [s[at]] + domain;
    CountConcat(s[..at] + [s[at]], domain, '@');
    CountConcat(s[..at], [s[at]], '@');
    var inner := domain[1..|domain| - 1];
    var j :| 0 <= j < |inner| && inner[j] == '.';
    assert domain[j + 1] == '.';
  }

  /** A birthday gets through only in the `DDDD-DD-DD` shape and not after today. */
  lemma AcceptedBirthday(r: SignupRequest, today: Date)
    requires ValidateSignup(r, today) == Proceed
    ensures |r.birthday| == 10 && r.birthday[4] == '-' && r.birthday[7] == '-'
    ensures forall i :: 0 <= i < 10 && i != 4 && i != 7 ==> IsAsciiDigit(r.birthday[i])
    ensures ParseBirthday(r.birthday).Some? ==> !After(ParseBirthday(r.birthday).value, today)
  {
  }

  /** A well-formed request whose birthday is a later date than today is refused
      with the future-birthday message, and only for that reason. */
  lemma LaterBirthdayRejected(r: SignupRequest, today: Date)
    requires AllPresent(r) && IsValidUsername(r.username) && EmailPattern(r.email)
    requires Utf16Length(r.password) >= MinPasswordLength && r.password == r.confirmPassword
    requires IsValidName(r.firstName) && IsValidName(r.lastName)
    requires IsBirthdayFormat(r.birthday)
    requires ParseBirthday(r.birthday).Some? && After(ParseBirthday(r.birthday).value, today)
    ensures ValidateSignup(r, today) == Reject(FutureBirthday)
  {
    EmailScanMatchesPattern(r.email);
  }

  /** A string of the right shape that is no date, such as `9999-99-99`, is an
      Invalid Date, which is never later than anything: it gets through the
      future-birthday guard whatever today is. */
  lemma UnparsableBirthdayNotFuture(s: string, today: Date)
    requires IsBirthdayFormat(s)
    ensures ParseBirthday(s) == None ==> !IsFutureBirthday(s, today)
    ensures IsBirthdayFormat("9999-99-99") && ParseBirthday("9999-99-99") == None
  {
    var n := "9999-99-99";
    assert n[4] == '-' && n[7] == '-' && n[5] == '9' && n[6] == '9';
    assert forall i :: 0 <= i < 10 && i != 4 && i != 7 ==> n[i] == '9';
  }

  /** A day written past the end of its month is compared as the date it rolls
      over to: `2021-02-31` is 3 March 2021, so on 2 March 2021 it is refused as
      a birthday in the future. */
  lemma RolledOverBirthdayIsFuture()
    ensures IsBirthdayFormat("2021-02-31")
    ensures ParseBirthday("2021-02-31") == Some(Date(2021, 3, 3))
    ensures IsFutureBirthday("2021-02-31", Date(2021, 3, 2))
  {
    var s := "2021-02-31";
    assert s[0] == '2' && s[1] == '0' && s[2] == '2' && s[3] == '1' && s[4] == '-';
    assert s[5] == '0' && s[6] == '2' && s[7] == '-' && s[8] == '3' && s[9] == '1';
    assert IsBirthdayFormat(s);
    assert ParseBirthday(s) == Some(RollOver(Date(2021, 2, 31)));
    assert DaysInMonth(2021, 2) == 28;
  }
}
