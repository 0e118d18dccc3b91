# Change-password form: strength estimator, validator and submit handler

A Dafny model of the logic in `script.js`, the browser script behind a
change-password form. The script has three parts, and each is a module here:

- `Strength` is the live strength estimate of the new password (`calcStrength`)
  and the indicator it drives (`updateStrength`). One point is awarded for each
  of five criteria: JavaScript length at least 8, length at least 12, both an
  ASCII lower-case and upper-case letter, an ASCII digit, and a character
  outside `A-Za-z0-9`. The percentage is twenty per point. The label is the
  placeholder `—` for an empty field, and otherwise `Strong` from 80, `Okay`
  from 50, and `Weak` below that. The bar colour uses the same thresholds.
- `Validation` is the client-side check (`validate`). It runs five independent
  rules and reports every violated one, in a fixed order: current password
  missing, new password missing, too short, confirmation mismatch, same as
  current. Only the current password is trimmed. The new password and its
  confirmation are compared as typed, and an empty confirmation is tolerated.
- `Submit` is the submit handler. The outcome of the one POST request is a
  parameter: a success response, an error response with a body, or a network
  failure. The handler's visible effects are the result: the errors listed,
  the request made (if any), the result line and its colour, the writes to the
  submit button, and the form reset.
- `JsText` holds the JavaScript string operations the three parts use:
  `length` (counted in UTF-16 code units), `trim` (the ECMAScript white-space
  and line-terminator set), and the four regular-expression tests.

Strings are Dafny `string`s of Unicode scalar values. JavaScript lengths are
UTF-16 lengths, so a character above U+FFFF counts twice (`JsText.Length`).
Every estimator and validator result is determined by its input. The functions
are pure, and the two methods, `Strength.Scan` and `Strength.EstimateStrength`,
have ensures clauses that fix every output.

Two behaviours of the code are easy to misread. The confirmation-mismatch rule
fires only when both the new password and the confirmation are non-empty
(`script.js:56`). So an empty new password with a non-empty confirmation gets
only "Enter a new password." (`Validation.MismatchNeedsNewPassword`). Also,
validation trims the current password, but the request sends it as typed
(`Submit.PayloadIsUntrimmed`).

## Model

| member | source | states |
|---|---|---|
| JsText.Length | script.js:18-19 | `pw.length` is between the number of characters and twice that, and equals the number of characters exactly when none lies above U+FFFF |
| JsText.LengthSnoc | script.js:18-19 | appending a character adds its UTF-16 code units to the length |
| JsText.TrimStart | script.js:49 | removes exactly the leading run of white space and line terminators: what remains is a suffix that is empty or starts with a kept character |
| JsText.TrimEnd | script.js:49 | removes exactly the trailing run of white space and line terminators: what remains is a prefix that is empty or ends with a kept character |
| JsText.Trim | script.js:49 | `trim()` leaves a middle slice that neither starts nor ends with white space, everything cut off either end is white space, and the result is empty exactly when the whole string is white space |
| JsText.TrimIdempotent | script.js:49 | trimming twice is the same as trimming once |
| JsText.TrimUnpadded | script.js:49 | a string without white space at either end trims to itself |
| JsText.TrimPadded | script.js:49 | one space on each side of such a string is removed by trimming |
| JsText.Matches | script.js:20-22 | the left-to-right `RegExp.test` scan for a character class succeeds iff some character of the string is in the class |
| JsText.MatchesSnoc | script.js:20-22 | a regular-expression character-class test on a string extended by one character holds iff it held before or the new character is in the class |
| Strength.CriteriaOf | script.js:18-22 | the five criteria, on JavaScript length and the four class tests: the empty password meets none, twelve code units imply eight, and mixed case needs at least two characters |
| Strength.RoundHalfUp | script.js:24 | `Math.round` of a quotient is the nearest integer, with halves rounded up |
| Strength.Percent | script.js:24 | the rounded, capped percentage lies between 0 and 100 |
| Strength.PercentIsTwentyPerPoint | script.js:24 | for raw scores 0 to 5, rounding `score / 5 * 100` and capping at 100 gives exactly twenty per point |
| Strength.LabelFor | script.js:25-28 | the label is never the placeholder: `Strong` iff the percentage is at least 80, `Okay` iff it is 50 to 79, `Weak` iff it is below 50 |
| Strength.TierFor | script.js:39 | the bar colour is `--good` iff the score is at least 80, `--okay` iff it is 50 to 79, and `--bad` iff it is below 50 |
| Strength.CalcStrength | script.js:14-30 | an empty password scores 0 with the placeholder label; any other password scores twenty per criterion met, never the placeholder; the score is a multiple of 20 between 0 and 100 |
| Strength.Scan | script.js:18-22 | one pass over the password yields its JavaScript length and the results of the four class tests |
| Strength.EstimateStrength | script.js:14-30 | the estimator computed from that one pass agrees with the criterion-by-criterion definition |
| Strength.LabelThresholds | script.js:25-28 | for a non-empty password: `Strong` iff score at least 80, `Okay` iff 50 to 79, `Weak` iff below 50 |
| Strength.LabelByCriteriaCount | script.js:18-28 | for a non-empty password: `Strong` iff four or five criteria, `Okay` iff exactly three, `Weak` iff two or fewer |
| Strength.LabelBoundaries | script.js:26-27 | both thresholds are inclusive: 80 is `Strong` and 79 `Okay`, 50 is `Okay` and 49 `Weak` |
| Strength.TierAgreesWithLabel | script.js:25-39 | for a non-empty password the bar colour tier matches the label tier one for one; an empty password has the `--bad` colour |
| Strength.ScoreMonotone | script.js:18-24 | a password meeting every criterion another meets scores at least as high |
| Strength.TwelveLongScoresAtLeastForty | script.js:18-19 | a JavaScript length of 12 or more alone gives at least 40 |
| Strength.OnlyLettersOfOneCase | script.js:18-22 | 8 to 11 ASCII letters of a single case meet only the length-8 criterion |
| Strength.OneCaseIsNotMixed | script.js:20 | "abcdefgh" and "ABCDEFGH" each score 20, `Weak`: mixed case needs both cases |
| Strength.ShortPlainIsWeak | script.js:17-28 | a non-empty password meeting no criterion ("abc") scores 0 and is `Weak`, not the placeholder |
| Strength.AstralCharactersCountTwice | script.js:18-22 | four emoji are eight code units long, so they meet the length-8 and symbol criteria: 40, `Weak` |
| Strength.UpdateStrength | script.js:32-42 | the bar fill is the score; its colour tier agrees with the label one for one; the text is "Strength: " followed by the label; an empty field shows an empty `--bad` bar with "Strength: —" |
| Validation.Message | script.js:53-58 | each rule's text ends in a full stop, and the minimum-length text names the same minimum, 8, that the rule enforces |
| Validation.MessagesDistinct | script.js:53-58 | no two rules share a text, so the listed messages identify the violated rules |
| Validation.Collect | script.js:52-58 | the five `errs.push` statements: the flagged rules in report order, each present iff its flag is set |
| Validation.Validate | script.js:47-64 | the report is in rule order, and each rule appears iff it is violated: current only white space; new empty; new non-empty but shorter than 8; new and confirmation both non-empty and different; new non-empty and equal to the trimmed current |
| Validation.AcceptsIff | script.js:53-63 | the form is accepted iff the current password has a non-white-space character, the new one is at least 8 long, the confirmation is empty or equal to it, and it differs from the trimmed current password |
| Validation.NoRepeatedViolation | script.js:53-58 | a report holds at most five messages and never the same one twice |
| Validation.ReportFromMembers | script.js:52-58 | a report in rule order is determined by which rules it contains |
| Validation.EmptyNewIsOnlyMissing | script.js:54-58 | an empty new password is reported as missing and never as too short, mismatched or equal to the current one |
| Validation.ShortNewRejected | script.js:54-55 | a new password shorter than 8, empty or not, is always rejected |
| Validation.EmptyConfirmTolerated | script.js:56 | an empty confirmation never causes a mismatch, and the form is accepted if everything else is right |
| Validation.MismatchNeedsNewPassword | script.js:54-56 | current "x", new "", confirmation "abc" gives only the missing-new-password error |
| Validation.WhitespaceCurrentIsMissing | script.js:49-53 | a white-space-only current password is reported as missing |
| Validation.PaddedCurrentEqualsNew | script.js:49-58 | a current password padded with spaces is still equal to the same new password |
| Validation.PaddedNewDiffers | script.js:49-58 | a new password with a leading space differs from the unpadded current one and is accepted |
| Validation.ScenarioAccepted | script.js:47-64 | current "oldPass1", new and confirmation "NewPass123!" is accepted |
| Validation.ScenarioTooShort | script.js:53-58 | current "x", new and confirmation "short" gives exactly the one minimum-length violation |
| Submit.MessageOf | script.js:98 | `data?.message` is present exactly for an object with a `message` key, and is that key's value |
| Submit.Truthy | script.js:98 | exactly `null`, `false`, `0` and the empty string are falsy; every array and object is truthy |
| Submit.NatText | script.js:98 | the decimal digits `String(n)` produces: a non-empty string of ASCII digits with no leading zero |
| Submit.NatTextRoundTrip | script.js:98 | the decimal numeral of a natural number reads back as that number |
| Submit.ToText | script.js:98 | converting a value to the result text throws exactly when it is an object with its own `toString` key, or an array holding one; a string converts to itself |
| Submit.ConversionThrows | script.js:98 | a message whose conversion to text throws is always truthy, so `data?.message || ...` always hands it to the conversion |
| Submit.ErrorData | script.js:96 | an unparseable body is replaced by an object whose `message` is the parse-failure text; a parsed body is used as it is |
| Submit.RejectionText | script.js:98 | an absent or falsy `message` gives the generic line; a truthy one is converted to text; the conversion fails exactly for a message that throws |
| Submit.TryBlock | script.js:77-99 | the `try` block throws exactly on a network failure or on a rejection message whose conversion throws; otherwise it resets the form and clears the colour exactly on success, shows the success line on success, and shows the rejection text on an error response |
| Submit.Caught | script.js:100-103 | the `catch` block leaves a normal completion as it is and turns a thrown one into the network-error line in `--bad`, without a reset |
| Submit.Respond | script.js:71-106 | once validation has passed: one request carrying the fields as typed, the button disabled then enabled, a colour written to the result line, and a form reset and strength indicator recomputed for the empty field exactly on success |
| Submit.OnSubmit | script.js:66-107 | the violations listed are the validator's; a request is made iff validation passes; without one the result line is only cleared, and the button, the form and the strength indicator are untouched; the button ends enabled on every path |
| Submit.NoRequestWhenInvalid | script.js:68-69 | when validation fails no request is made, the button is untouched, and nothing depends on the outcome |
| Submit.ButtonReenabledOnEveryPath | script.js:71-106 | when a request is made the button is disabled, then enabled exactly once, on every outcome |
| Submit.OutcomeMessages | script.js:90-103 | after a request: success shows the success line; an unparseable error body shows the parse-failure line; a network failure shows the network-error line; a truthy server `message` is shown as text; a `message` whose conversion throws shows the network-error line; a parsed body without a truthy `message` shows the generic line; only success resets the colour to the default |
| Submit.GenericOnlyWithoutServerMessage | script.js:96-98 | the generic failure line appears only for an error body that parses and has no truthy `message` (or whose message is that very text) |
| Submit.ServerMessageShownVerbatim | script.js:95-98 | a non-empty string `message` in an error body is shown as sent, in the `--bad` colour |
| Submit.FalsyMessageFallsBack | script.js:98 | an empty, null, false or zero `message`, or no message property at all, gives the generic line; a truthy number is converted to text |
| Submit.ObjectMessages | script.js:96-103 | an object `message` with its own `toString` key ends like a network failure, with the network-error line in `--bad`; without that key it shows "[object Object]" |
| Submit.SuccessResetsIndicator | script.js:90-94 | on success the form is reset and the indicator is recomputed for the empty field |
| Submit.PayloadIsUntrimmed | script.js:49-75 | a current password with a leading space passes validation as its trimmed form would, and is sent with the space |

## Left out

- DOM lookups and event wiring (`script.js:4-12`, `44`, `66-67`): host environment. The handler reads the three field values as parameters.
- The inline style and gradient strings and the pseudo-element query (`script.js:35-40`): presentation. Only the colour tier is modelled.
- The HTML rendering of errors through `innerHTML` (`script.js:60`): presentation. The model lists the violated rules and their messages.
- The `fetch` call, its headers, `JSON.stringify` of the payload and `credentials` (`script.js:80-88`): network. The request is the `Payload` value, and its outcome is the `Outcome` parameter.
- JSON parsing of an error body: an error body is either `Unparseable` or an already parsed `Json` value.
- Submit.ToText: a JSON number is an integer of magnitude at most 2^53, which JavaScript prints digit for digit. Fractional numbers and larger magnitudes are not represented. JavaScript prints those by their shortest round-trip digits, so 2^64 shows as "18446744073709552000". `-0` is represented by `0`, which prints and tests the same.
- `console.error` (`script.js:103`): logging.
- `form.reset()` is a flag. The model assumes the fields' default values are empty, so the strength indicator is recomputed for the empty string.
- An exception thrown by `form.reset()` or `updateStrength()` inside the success branch would also reach the `catch` block. Neither throws on a well-formed page, so only a network failure takes that path.
- Async suspension and overlapping submits: one submit is one call of `Submit.OnSubmit`. The disabled button that prevents a second submit during a request is recorded but not enforced.
- `Math.round` and `Math.min` on doubles: computed on exact rationals. For the six possible raw scores the result is the same.
- Lone UTF-16 surrogates cannot appear in a Dafny `string`, so input containing them is not represented.
