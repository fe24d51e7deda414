# User authentication project: validators, auth store and route guards

This project models the decision logic of a username/password authentication
application:

- the server's signup validator (`validateSignup`), an ordered chain of guards
  over the seven fields of a signup request that either rejects the request with
  the message of the first failing guard or hands it on;
- the client's form rules: the five password requirements (`length`, `uppercase`,
  `lowercase`, `number`, `special`) and the per-field `validateField` check;
- the client's authentication store, a four-field object (`isAuthenticated`,
  `user`, `token`, `currentStep`) changed by `setStep`, `login`, `logout` and
  `updateUser`, each of which overwrites only the fields it names;
- the two route wrappers, `RouteGuard` (step and flow-state checks) and
  `ProtectedRoute` (signed-in checks), reduced to their decision: show the page,
  or redirect to a path.

Files: `Chars.dfy` (character classes shared by the regular expressions),
`SignupValidation.dfy`, `FieldRules.dfy`, `AuthStore.dfy`, `Navigation.dfy`
(the decision type and prop defaults), `RouteGuard.dfy`, `ProtectedRoute.dfy`.

Modelling choices:

- Regular expressions are written as predicates over character sequences. The
  email pattern is given twice: `EmailPattern` reads the regex off directly (a
  split into three non-empty runs of `[^\s@]` at an `@` and a later `.`), and
  `IsValidEmail` is a scan; they are proved to agree.
- `\s` and `trim` both use the ECMAScript WhiteSpace and LineTerminator code
  points; `Chars.IsJsWhitespace` lists them.
- A field missing from the request body is the empty string in the model; both
  are falsy, and no later guard looks at either.
- The clock is a parameter: `today` is the UTC calendar date at validation time.
  A `YYYY-MM-DD` string is read as midnight UTC of that date, so it is "after now"
  exactly when it is a later date than `today`. The string is read as V8 (the
  engine of Node.js) reads a valid date-only ISO string: a month in 1..12 and a
  day in 1..31, where a day past the end of its month, such as `2021-02-31`,
  rolls over into the next month (3 March 2021). Any other string of the format
  is taken as an Invalid Date, which compares false and is accepted; V8's
  fallback to its legacy date parser for such strings is not modelled (see
  "Left out").
- `.length` counts UTF-16 code units: `Chars.Utf16Length` counts two for a
  character outside the Basic Multilingual Plane, and both password-length rules
  use it. The regex counts `{3,20}` and `{2,30}` also count code units, but every
  character their classes admit is a single unit, so there they equal the
  sequence length.
- In `RouteGuard`, a left-out `requiredStep` is `undefined` and the store's empty
  step is `null`; strict equality never holds between them. The empty string is
  falsy where the source tests truthiness. Flow-state names are looked up as
  properties of a plain object, so the names it inherits from `Object.prototype`
  (`toString`, `constructor`, ...) read as truthy.
- The six flow-state selectors the guard reads from the store
  (`frontend/src/components/RouteGuard.jsx:15-20`) are not defined in
  `frontend/src/store/authStore.js`; the model takes their values as inputs.

The server requires only 6 password code units; the 12-unit and character-class
rules are the client's (`FieldRules`). Birthdays are `YYYY-MM-DD`, and no lower
bound on the year is checked.

## Model

| member | source | states |
|---|---|---|
| SignupValidation.ValidateSignup | backend/src/middleware/validation.js:1-57 | The outcome is the first rule, in source order, that the request breaks (each rule judged on its own), or proceeding when it breaks none. |
| SignupValidation.ProceedsIffAllRulesHold | backend/src/middleware/validation.js:13-56 | The request is handed on iff every field is present, the username, email, password, confirmation, names and birthday format are valid and the birthday is not after today. |
| SignupValidation.MissingFieldReportedFirst | backend/src/middleware/validation.js:13-15 | If any of the seven fields is empty, the result is "All fields are required", whatever the other fields hold. |
| SignupValidation.RejectionBreaksItsRule | backend/src/middleware/validation.js:13-54 | Each of the eight rejections breaks its own rule and every earlier guard passed; a mismatch is reported only when the password has at least 6 code units. |
| SignupValidation.IsValidUsername | backend/src/middleware/validation.js:18 | The username regex test; what it admits is stated by AcceptedUsername and ProceedsIffAllRulesHold. |
| SignupValidation.EmailPattern | backend/src/middleware/validation.js:23-24 | The email regex read directly: an `@` and a later `.` split the string into three non-empty runs of `[^\s@]`; it is the reference for EmailScanMatchesPattern. |
| SignupValidation.IsValidEmail | backend/src/middleware/validation.js:23-24 | The email test as a scan; EmailScanMatchesPattern proves it equals EmailPattern. |
| SignupValidation.IsValidName | backend/src/middleware/validation.js:39-40 | The name regex test (2 to 30 ASCII letters, whitespace or `-`); ProceedsIffAllRulesHold and RejectionBreaksItsRule state its role. |
| SignupValidation.IsBirthdayFormat | backend/src/middleware/validation.js:45-46 | The birthday regex test; its shape is stated by AcceptedBirthday. |
| SignupValidation.IsFutureBirthday | backend/src/middleware/validation.js:51-52 | `birthdayDate > new Date()` for valid ISO date strings: the parsed date is after today, and a string taken as an Invalid Date is never in the future; UnparsableBirthdayNotFuture, RolledOverBirthdayIsFuture and LaterBirthdayRejected state its meaning. |
| SignupValidation.MessagesDistinct | backend/src/middleware/validation.js:13-54 | Two guards give the same error message iff they are the same guard. |
| SignupValidation.AcceptedUsername | backend/src/middleware/validation.js:18-20 | A username past its guard has 3 to 20 characters, all ASCII letters or digits. |
| SignupValidation.EmailScanMatchesPattern | backend/src/middleware/validation.js:23-26 | The scan accepts a string iff it splits at an `@` and a later `.` into three non-empty runs of characters that are neither whitespace nor `@`. |
| SignupValidation.AcceptedEmailShape | backend/src/middleware/validation.js:23-26 | An accepted email has no whitespace, exactly one `@` with something before it, and a `.` after the `@` that is neither the first nor the last character of that part. |
| SignupValidation.ShortPasswordRejected | backend/src/middleware/validation.js:29-36 | A password under 6 UTF-16 code units is rejected as too short, whatever the confirmation, once the earlier guards pass. |
| Chars.Utf16Length | backend/src/middleware/validation.js:29 | `.length` is at least the number of characters and at most twice it, and equals it exactly when no character lies outside the Basic Multilingual Plane. |
| SignupValidation.AstralCharactersCountTwice | backend/src/middleware/validation.js:29 | A password of characters outside the Basic Multilingual Plane has twice as many code units as characters, so three of them (`😀😀😀`) pass the length guard. |
| SignupValidation.ParseBirthday | backend/src/middleware/validation.js:51 | The string is read as a date exactly when its month digits give 1..12 and its day digits 1..31 (the strings V8's ISO reader accepts), and is otherwise taken as an Invalid Date; the date is the one the year, month and day digits name, rolled over past the month's end, and is a real calendar date. |
| SignupValidation.RollOver | backend/src/middleware/validation.js:51 | The rolled-over date is a real calendar date in the same year, and a real date is left as it is. |
| SignupValidation.RollOverCountsOn | backend/src/middleware/validation.js:51 | The rolled-over date is the first of the written month plus `day - 1` days, counted one calendar day at a time. |
| SignupValidation.AcceptedBirthday | backend/src/middleware/validation.js:45-54 | An accepted birthday is exactly four digits, `-`, two digits, `-`, two digits, and a parsed one is not after today. |
| SignupValidation.LaterBirthdayRejected | backend/src/middleware/validation.js:51-54 | A request passing every other guard whose birthday is a later date than today gets "Birthday must be in the past". |
| SignupValidation.UnparsableBirthdayNotFuture | backend/src/middleware/validation.js:51-54 | A string of the format that is an Invalid Date (such as `9999-99-99`) passes the future-birthday guard whatever today is. |
| SignupValidation.RolledOverBirthdayIsFuture | backend/src/middleware/validation.js:51-54 | `2021-02-31` is read as 3 March 2021 and so is refused as a future birthday on 2 March 2021. |
| FieldRules.ContainsClass | frontend/src/utils/validation.js:3-6 | An unanchored one-class regex test succeeds iff some character of the string is in the class. |
| FieldRules.Meets | frontend/src/utils/validation.js:1-7 | The five `passwordRequirements`; their meaning is stated by RequirementMeaning and MeetsStable. |
| FieldRules.RequirementMeaning | frontend/src/utils/validation.js:1-7 | `length` holds iff there are at least 12 UTF-16 code units (12 characters when all lie in the Basic Multilingual Plane); `uppercase`, `lowercase`, `number` iff some character is in A-Z, a-z, 0-9; `special` iff some character is one of the twenty listed symbols. |
| FieldRules.MeetsStable | frontend/src/utils/validation.js:2-6 | A requirement that holds for a password still holds after characters are added at either end. |
| FieldRules.LeadingBlanks | frontend/src/utils/validation.js:19 | Counts the whitespace run at the start of the value: every counted character is whitespace and the next one, if any, is not. |
| FieldRules.TrailingBlanks | frontend/src/utils/validation.js:19 | Counts the whitespace run at the end of the value: every counted character is whitespace and the one before them, if any, is not. |
| FieldRules.Trim | frontend/src/utils/validation.js:19 | `value.trim()`; what it keeps is stated by TrimShape and TrimEmptyIffBlank. |
| FieldRules.TrimShape | frontend/src/utils/validation.js:19 | `trim` keeps the middle of the value between a blank prefix and a blank suffix, and the kept part neither starts nor ends with whitespace. |
| FieldRules.TrimEmptyIffBlank | frontend/src/utils/validation.js:19 | The trimmed value is empty iff the value is all whitespace. |
| FieldRules.ValidateField | frontend/src/utils/validation.js:9-24 | The result is `'Required'` iff the name is one of the seven fields and the value is all whitespace; otherwise it is `''`. |
| FieldRules.ValidateFieldIgnoresFormData | frontend/src/utils/validation.js:9-24 | The form data never changes the result, and any other field name gives `''`. |
| AuthStore.Store.constructor | frontend/src/store/authStore.js:3-7 | A new store is not authenticated and has no user, token or step. |
| AuthStore.Store.SetStep | frontend/src/store/authStore.js:8 | Sets the step and leaves the other three fields as they were. |
| AuthStore.Store.Login | frontend/src/store/authStore.js:9-16 | Sets authenticated, the given user and token, and the step `authenticated`. |
| AuthStore.Store.Logout | frontend/src/store/authStore.js:17-24 | Puts the store back in its initial state. |
| AuthStore.Store.UpdateUser | frontend/src/store/authStore.js:25-29 | Sets the user and leaves the other three fields as they were. |
| AuthStore.LogoutRestoresInitial | frontend/src/store/authStore.js:17-24 | Logout yields the initial state from any state, twice is the same as once, and logout after login gives the initial state. |
| AuthStore.LoginForgetsPreviousState | frontend/src/store/authStore.js:9-16 | The state after login does not depend on the state before it. |
| AuthStore.PartialUpdatesAreIndependent | frontend/src/store/authStore.js:8-29 | `setStep` and `updateUser` each change only their own field; of two calls the later wins; the two commute. |
| RouteGuard.FlagValue | frontend/src/components/RouteGuard.jsx:27-38 | Looking up a name gives no flag for a name that is neither a flow state nor inherited, and truthy for an inherited property name. |
| RouteGuard.FlowStateNamesReadTheirFlags | frontend/src/components/RouteGuard.jsx:27-34 | Each of the six names reads its own flag. |
| RouteGuard.SomeFlag | frontend/src/components/RouteGuard.jsx:40 | `some` over the listed names holds iff some listed name's flag is set. |
| RouteGuard.Guard | frontend/src/components/RouteGuard.jsx:53-60 | The page is shown iff the step and flow-state conditions, stated on the raw inputs, hold; otherwise the result is a redirect to `redirectTo` or `/login`. |
| RouteGuard.NoRequirementGrants | frontend/src/components/RouteGuard.jsx:54-56 | With neither a required step nor a required flow state, access is granted whatever the lists, step and flags. |
| RouteGuard.IsStepAllowed | frontend/src/components/RouteGuard.jsx:44-48 | The step check; its meaning is stated by StepAllowedMeaning and NullStepNeverAllowed. |
| RouteGuard.CheckFlowState | frontend/src/components/RouteGuard.jsx:24-41 | The flow-state check; its meaning is stated by RequiredFlowStateDecides and AllowedFlowStatesMeaning. |
| RouteGuard.StepAllowedMeaning | frontend/src/components/RouteGuard.jsx:44-47 | The step check is true with no required step and no allowed steps; otherwise it holds iff the current step is listed or equals the required step. |
| RouteGuard.NullStepNeverAllowed | frontend/src/components/RouteGuard.jsx:47 | A store with no step fails every step check that has something to check, even with no required step. |
| RouteGuard.RequiredFlowStateDecides | frontend/src/components/RouteGuard.jsx:36-38 | A required flow state decides by its own flag, ignores the allowed list, and an unknown, non-inherited name denies. |
| RouteGuard.AllowedFlowStatesMeaning | frontend/src/components/RouteGuard.jsx:24-40 | Without a required flow state, the flow check passes with an empty list and otherwise iff some listed flag is set. |
| RouteGuard.InheritedNamePassesFlowCheck | frontend/src/components/RouteGuard.jsx:36-38 | Requiring any inherited property name as the flow state passes whatever the flags, and shows the page to any store when no step is asked for. |
| RouteGuard.DenialRedirects | frontend/src/components/RouteGuard.jsx:59-60 | A denied visitor is redirected to `redirectTo`, or to `/login` when it is left out (the default at line 8). |
| ProtectedRoute.Protect | frontend/src/components/ProtectedRoute.jsx:5-16 | Children are shown iff `requiredAuth` (default true) equals `isAuthenticated`; a required sign-in that is missing redirects to `redirectTo` (default `/login`); a signed-in user on a signed-out page goes to `/welcome`. |
| ProtectedRoute.DefaultsRequireSignIn | frontend/src/components/ProtectedRoute.jsx:5-10 | With no props only a signed-in user sees the page; anyone else goes to `/login`. |
| ProtectedRoute.SignedInUserSentToWelcome | frontend/src/components/ProtectedRoute.jsx:12-14 | A signed-in user on a signed-out page goes to `/welcome` whatever `redirectTo` says. |
| ProtectedRoute.StoreActionsDecideAccess | frontend/src/components/ProtectedRoute.jsx:5-16 | After the store's login a protected page is shown and a signed-out page redirects to `/welcome`; after logout a protected page redirects to `redirectTo`. |

## Left out

- Account lockout, attempt counting, 2-of-3 security-question scoring, the auto-unlock timer and the login ledger: the code has none of them. The endpoints in backend/src/server.js return fixed responses (the security-question reset always reports success), so there is no behaviour to model.
- backend/src/server.js and frontend/src/services/api.js: HTTP routing and `fetch` wrappers, network I/O with fixed responses.
- The page components (Signup, Login, password reset, security questions, email confirmation, welcome, App): rendering, hooks and navigation. Their inline password checks repeat frontend/src/utils/validation.js, which is modelled.
- AWS Amplify sign-up and sign-in, the HMAC computation, bcrypt and the database queries of the test-user script: calls into code outside the repository.
- The download routes (file I/O); `validateToken`, which they import, is not defined by the validation middleware.
- Toast timers and the welcome page's locale-dependent date formatting.
- The response object: `validateSignup` is modelled as its outcome (proceed, or reject with one of eight errors whose messages `Message` gives); the 400 status and JSON body are not modelled.
- SignupValidation.ValidateSignup: request fields that are not strings (numbers, objects) are not modelled; the model's fields are strings, with a missing field as the empty string.
- SignupValidation.ParseBirthday: only V8's ISO reading of date-only strings is modelled; engines that reject a day past the end of its month would make such a birthday an Invalid Date, which passes. A string with a month outside 1..12 or a day outside 1..31 is taken as an Invalid Date, but V8 passes it on to its legacy date parser, which reads some of them (year digits `0001` to `0012`) as month, day and two-digit year in local time: `0001-01-32` is 1 January 2032 and `0006-15-30` is 15 June 2030. The legacy parser is not modelled, because its rules are not part of this repository.
- SignupValidation.IsFutureBirthday: because of the gap above, a birthday such as `0001-01-32`, which the source may refuse as lying in the future, is never in the future in the model, so `SignupValidation.ValidateSignup` accepts it.
- FieldRules.ValidateField: a `value` that is not a string (on which `trim` would throw) is not modelled.
- RouteGuard.Guard: the flow-state selectors are taken as boolean inputs; since the store does not define them, the source would throw when it calls them. A `requiredStep` of `null`, and `null` among the `allowedSteps`, are not expressible either; with the store's `null` step the source would pass both `includes(null)` and `null === null`. No caller in the repository passes them.
- AuthStore.Store.SetStep: only a string or `null` is modelled as a step. The source accepts any value; after `setStep()` the step is `undefined`, which is strictly equal to a left-out `requiredStep`. Such a store would then pass the step check, so a guard with allowed steps, a required flow state and no required step would move on to the flow check instead of redirecting. The model does not capture that case.
- Chars.Utf16Length: a lone surrogate, which a JSON request body can carry (`"\ud800"`) and `.length` counts as one unit, is not a `char`, so strings holding one are not modelled.
- Rendering itself (`children`, `<Navigate replace>`) and the `zustand` subscription mechanics: only the decision and the store's fields are modelled.
