# Contact pipeline of the portfolio site

This project models the one part of the portfolio site with behaviour to state: how a
contact message is submitted. That part has two pieces.

- **The contact form component** (`components/contact.tsx`). It keeps three text fields
  (`formState`), a field-error map (`errors`), an `isSubmitting` flag and a `submitStatus`
  of `idle`, `success` or `error`.
  - `validateForm` applies the per-field rules.
  - `handleChange` edits one field and clears that field's error.
  - `handleSubmit` validates the form, waits on a timer, then empties the form and shows
    the success panel.
  - The "Send Another Message" and "Try Again" buttons return the status to `idle`.
- **The mail handler** (`app/api/contact/route.ts`).
  - At module load it reads six environment variables and logs when one is missing. It
    then creates one transporter, which is `secure` when `Number(SMTP_PORT) === 465`.
  - `POST` answers 400 when `name`, `email` or `message` is missing or empty.
  - Otherwise it hands the transporter one envelope. The envelope has a subject, a
    reply-to address, a plain-text body and an HTML body in which line feeds become
    `<br/>`.
  - It answers `{success: true}`. Any thrown error becomes a 500 that carries the error's
    message.

Files:

- `wrappers.dfy`: `Option`.
- `js_text.dfy`: the JavaScript string operations the rules use.
  - `trim`, with the ECMAScript white-space and line-terminator set.
  - `.length` in UTF-16 code units.
  - Counting and searching for a character.
- `js_number.dfy`: `Number(string)`, following the ECMAScript StringToNumber grammar. It
  covers decimal, hexadecimal, octal and binary literals, signs, `Infinity`, exponents,
  the empty string and NaN.
- `contact_form.dfy`: the component.
  - The email pattern and its structural characterisation.
  - The validator and its rules.
  - The state and handlers as pure functions on a `Snapshot`.
  - Traces of user events.
  - The class `Contact`, whose methods update the four state fields and are proved
    against those functions.
- `contact_route.dfy`: the handler.
  - The request check and the envelope construction.
  - `PostResponse` and `MailsSent`, which specify `POST`.
  - The classes `Transporter` (which records what it was handed) and `Route` (module
    load and `POST`).
- `contact_scenarios.dfy`: worked examples on concrete inputs, and how the component's
  rules compare with the handler's check.

Facts about the code that the model follows and proves:

- The component never sends anything to `/api/contact`. `handleSubmit` waits on a
  1500 ms timer that always resolves, then reports success. The `catch` branch cannot
  run, so the "Something Went Wrong" panel is unreachable. `ErrorStatusUnreachable`
  proves this over every sequence of user events.
- There is no separate "submitting" status. `isSubmitting` is a flag of its own, and it
  is false again whenever the handler returns.
- The 10-character minimum applies to the untrimmed message, so a short message with
  trailing spaces passes (`PaddedShortMessagePasses`).
- The email pattern allows exactly one `@` (`EmailPatternShape`).
- The message `"short"` is 5 code units long (`MissingNameShortMessage`).
- A body that is not JSON is answered with 500, not 400. The parse error is thrown
  inside the `try`.

## Model

| member | source | states |
|---|---|---|
| JsText.IsJsWhitespace | components/contact.tsx:25 | defines the white-space and line-terminator set that `trim` and `\s` use |
| JsText.Blank | components/contact.tsx:25 | every character is white space |
| JsText.TrimStart | components/contact.tsx:25 | defines removal of leading white space; characterised by `TrimStartSpec` |
| JsText.TrimEnd | components/contact.tsx:25 | defines removal of trailing white space; characterised by `TrimEndSpec` |
| JsText.TrimStartSpec | components/contact.tsx:25 | `trimStart` removes a white-space prefix and leaves a suffix of the input that is empty or starts with a non-white-space character |
| JsText.TrimEndSpec | components/contact.tsx:25 | `trimEnd` removes a white-space suffix and leaves a prefix of the input that is empty or ends with a non-white-space character |
| JsText.Trim | components/contact.tsx:25 | the trimmed text is no longer than the input, and neither end is white space |
| JsText.TrimEmptyIffBlank | components/contact.tsx:25 | `s.trim()` is empty exactly when every character of `s` is white space |
| JsText.TrimIsMiddleSlice | components/contact.tsx:31 | the trimmed text is a contiguous slice of the input with only white space on either side of it |
| JsText.TrimUnpadded | components/contact.tsx:26 | a non-empty string with no white space at either end is its own trim |
| JsText.TrimEndIgnoresPadding | components/contact.tsx:31-33 | appended trailing white space does not change `trimEnd` |
| JsText.TrimIgnoresPadding | components/contact.tsx:31-33 | appending trailing white space to a non-blank string leaves its trim unchanged |
| JsText.Utf16Length | components/contact.tsx:33 | `.length` is at least the number of code points and at most twice that |
| JsText.Utf16LengthOfBmp | components/contact.tsx:33 | `.length` equals the number of code points exactly when no character lies outside the Basic Multilingual Plane |
| JsText.Utf16LengthAppend | components/contact.tsx:33 | `.length` of a concatenation is the sum of the lengths |
| JsText.CountOfAppend | app/api/contact/route.ts:56-61 | the count of a character in a concatenation is the sum of the counts |
| JsText.FirstIndexAfter | app/api/contact/route.ts:55 | the first occurrence of `c` in `a + [c] + b` is at `|a|` when `a` has none |
| JsNumber.ToNumber | app/api/contact/route.ts:22 | defines `Number(v)` for a string or `undefined` (which gives NaN) |
| JsNumber.StringToNumber | app/api/contact/route.ts:22 | defines `Number(s)`: trim, then the numeric-literal grammar |
| JsNumber.NumericLiteral | app/api/contact/route.ts:22 | defines the grammar: empty gives 0, `0x`/`0o`/`0b` literals, a sign, otherwise an unsigned decimal |
| JsNumber.UnsignedDecimal | app/api/contact/route.ts:22 | defines `Infinity` and digits with an optional fraction and exponent, read exactly |
| JsNumber.DecimalText | app/api/contact/route.ts:22 | the decimal spelling of a natural number is a non-empty digit string with no leading zero |
| JsNumber.DecimalTextValue | app/api/contact/route.ts:22 | reading the decimal spelling of `n` as base-10 digits gives `n` |
| JsNumber.UnsignedDigits | app/api/contact/route.ts:22 | a plain digit string is read by the decimal grammar as its digit value |
| JsNumber.ReadUnpadded | app/api/contact/route.ts:22 | a value without surrounding white space is read as a numeric literal as it stands |
| JsNumber.DecimalRoundTrip | app/api/contact/route.ts:22 | `Number` applied to the decimal spelling of any natural number `n` gives exactly `n` |
| JsNumber.PaddedSpelling | app/api/contact/route.ts:22-23 | `Number(" 465\n")` is 465: surrounding white space is ignored |
| JsNumber.HexSpelling | app/api/contact/route.ts:22-23 | `Number("0x1D1")` is 465 |
| JsNumber.ExponentSpelling | app/api/contact/route.ts:22-23 | `Number("4.65e2")` is 465 |
| JsNumber.NonNumericSpellings | app/api/contact/route.ts:22-23 | `Number("465abc")` is NaN: trailing garbage spoils the whole value |
| JsNumber.EmptyAndUnset | app/api/contact/route.ts:22-23 | `Number("")` is 0 and `Number(undefined)` is NaN |
| ContactForm.IsAddressChar | components/contact.tsx:28 | defines the character class `[^\s@]`: not white space and not `@` |
| ContactForm.MatchesEmailPattern | components/contact.tsx:28 | defines the anchored pattern's `test`: some split of the whole string into a run, `@`, a run, `.`, a run; characterised by `EmailPatternShape` |
| ContactForm.NameError | components/contact.tsx:25 | defines the name rule: "Name is required" when the trimmed name is empty; characterised by `NameRule` |
| ContactForm.EmailError | components/contact.tsx:26-30 | defines the email rule: "Email is required" when the trimmed email is empty, else "Please enter a valid email address" when the raw email fails the pattern; characterised by `EmailRule` |
| ContactForm.MessageError | components/contact.tsx:31-35 | defines the message rule: "Message is required" when the trimmed message is empty, else "Message must be at least 10 characters" when the raw `.length` is under 10; characterised by `MessageRule` |
| ContactForm.FieldError | components/contact.tsx:24-35 | selects the rule for one field |
| ContactForm.ValidationErrors | components/contact.tsx:24-35 | defines `newErrors`: one entry per field whose rule fails, holding that rule's message; characterised by `ValidationInFieldOrder` and `FormValidIff` |
| ContactForm.WellFormed | components/contact.tsx:14-15 | the invariant between events: no submission in flight and every stored error message non-empty |
| ContactForm.Changed | components/contact.tsx:40-52 | defines `handleChange` on the state: set the field, delete its error when truthy; characterised by `ChangeTouchesOneField` |
| ContactForm.Submitted | components/contact.tsx:54-67 | defines `handleSubmit` on the state: replace the errors, then on a valid form empty the fields, clear the flag and show success; characterised by `InvalidSubmitOnlyReplacesErrors` and `ValidSubmitSucceeds` |
| ContactForm.ReturnedToIdle | components/contact.tsx:148 | defines the panel buttons' `setSubmitStatus("idle")` (also line 166) |
| ContactForm.Step | components/contact.tsx:135-173 | one user event, possible only when its control is rendered for the current status |
| ContactForm.Run | components/contact.tsx:135-173 | a sequence of user events applied in order |
| ContactForm.FormState.With | components/contact.tsx:44 | setting field `f` to `value` changes that field only |
| ContactForm.MatchHasShape | components/contact.tsx:28 | a string matching the email pattern has no white space, exactly one `@` (not first), and a `.` at least two places after the `@` and before the last character |
| ContactForm.ShapeMatches | components/contact.tsx:28 | every string of that shape matches the pattern |
| ContactForm.EmailPatternShape | components/contact.tsx:28 | the pattern matches exactly the strings of that shape (both directions) |
| ContactForm.MatchIsNotBlank | components/contact.tsx:26-28 | a matching email is never blank, so the "invalid" and "required" errors never compete |
| ContactForm.NameRule | components/contact.tsx:25 | "Name is required" is set exactly when the name is empty or all white space, and no name error otherwise |
| ContactForm.EmailRule | components/contact.tsx:26-30 | the email gets "required" exactly when it is blank, "invalid" exactly when it is not blank and fails the pattern on the untrimmed value, and no error exactly when it matches |
| ContactForm.MessageRule | components/contact.tsx:31-35 | the message gets "required" exactly when it is blank, "too short" exactly when it is not blank and its untrimmed length is under 10, and no error exactly when neither holds |
| ContactForm.PaddedShortMessagePasses | components/contact.tsx:31-35 | a non-blank message whose trailing white space brings it to 10 code units passes, though its trimmed text is unchanged |
| ContactForm.ErrorsFollowRules | components/contact.tsx:24-35 | helper: membership and values of the `ValidationErrors` comprehension, used by the lemmas below |
| ContactForm.ErrorMessagesNonEmpty | components/contact.tsx:24-35 | every stored error message is non-empty, so `errors[name]` is truthy exactly when the entry exists |
| ContactForm.NoErrorsIff | components/contact.tsx:36-37 | the map is empty exactly when none of the three rules fails |
| ContactForm.ValidationInFieldOrder | components/contact.tsx:24-35 | the map equals the one built by applying the name, email and message rules in turn to an empty map |
| ContactForm.FormValidIff | components/contact.tsx:23-38 | `validateForm` returns true exactly when the name is not blank, the email matches, and the message is not blank and at least 10 code units long |
| ContactForm.ChangeTouchesOneField | components/contact.tsx:40-52 | an edit sets only its field, removes only that field's error, keeps the flag and the status, and keeps the state well formed |
| ContactForm.InvalidSubmitOnlyReplacesErrors | components/contact.tsx:54-56 | submitting an invalid form replaces the error map and leaves the fields, the flag and the status unchanged |
| ContactForm.ValidSubmitSucceeds | components/contact.tsx:57-66 | submitting a valid form ends with empty fields, no errors, the flag down and the success status |
| ContactForm.SendAnotherRestoresInitial | components/contact.tsx:148 | a valid submission followed by "Send Another Message" returns to the initial state |
| ContactForm.OutsideIdleOnlyResets | components/contact.tsx:135-173 | outside `idle` no event changes the fields, errors or flag, and the status can only return to `idle` |
| ContactForm.StepAvoidsError | components/contact.tsx:58-66 | a single event keeps the state well formed and never enters the error status |
| ContactForm.ErrorStatusUnreachable | components/contact.tsx:58-66 | from any well-formed state that is not in error, no sequence of events reaches the error status |
| ContactForm.Contact.constructor | components/contact.tsx:9-18 | the component starts with empty fields, no errors, the flag down and status `idle` |
| ContactForm.Contact.ValidateForm | components/contact.tsx:23-38 | the error field becomes the validator's map, and the result is true exactly when that map is empty |
| ContactForm.Contact.HandleChange | components/contact.tsx:40-52 | the state becomes `Changed` of the old state: the field set, its error removed, all else unchanged |
| ContactForm.Contact.HandleSubmit | components/contact.tsx:54-67 | the state becomes `Submitted` of the old state: errors replaced and all else kept when invalid; emptied, successful and not submitting when valid |
| ContactForm.Contact.SendAnother | components/contact.tsx:148 | from `success`, only the status changes, to `idle` |
| ContactForm.Contact.TryAgain | components/contact.tsx:166 | from `error`, only the status changes, to `idle` |
| ContactRoute.Falsy | app/api/contact/route.ts:42 | defines `!v` for a string-or-undefined value: absent or empty |
| ContactRoute.MissingConfig | app/api/contact/route.ts:8-17 | defines the load-time test: some of the six variables is absent or empty |
| ContactRoute.SecurePort | app/api/contact/route.ts:23 | defines `Number(SMTP_PORT) === 465` on the converted port |
| ContactRoute.TextBody | app/api/contact/route.ts:55 | defines the plain-text body; inverted by `ParseTextBody` (`TextBodyRoundTrip`) |
| ContactRoute.Paragraph | app/api/contact/route.ts:56-61 | one `<p>…</p>` line of the HTML template |
| ContactRoute.HtmlBody | app/api/contact/route.ts:56-61 | defines the HTML body: name and email paragraphs, the template's line breaks, and the message with `<br/>`s; characterised by `HtmlLineFeeds`, `HtmlNameUnescaped`, `HtmlEmailUnescaped` |
| ContactRoute.MailFor | app/api/contact/route.ts:50-61 | defines the `sendMail` options for a checked request; characterised by `EnvelopeCarriesPayload` and `EnvelopeTextReadable` |
| ContactRoute.PostResponse | app/api/contact/route.ts:36-72 | defines the response of `POST` for a request and the relay's answer; characterised by `MissingFieldsRejected`, `SuccessIffDelivered`, `ServerErrorsAreThrown` |
| ContactRoute.MailsSent | app/api/contact/route.ts:36-72 | defines the envelopes `POST` hands to `sendMail`: one when the check passes, none otherwise |
| ContactRoute.ParseTextBody | app/api/contact/route.ts:55 | reads the three fields back from a plain-text body (the inverse used by `TextBodyRoundTrip`) |
| ContactRoute.BreaksToNewlines | app/api/contact/route.ts:58-61 | turns `<br/>` back into line feeds (the inverse used by `BreaksRoundTrip`) |
| ContactRoute.SubjectName | app/api/contact/route.ts:53 | removes the subject's fixed prefix (the inverse used by `EnvelopeCarriesPayload`) |
| ContactRoute.ErrorResponse | app/api/contact/route.ts:65-70 | a thrown error gives status 500 with the error's message when that is non-empty, and "Internal Server Error" when it is absent or empty |
| ContactRoute.NewlinesToBreaks | app/api/contact/route.ts:58-61 | the converted message has no line feed, equals the input when the input has none, and grows by 4 per line feed |
| ContactRoute.NewlinesToBreaksAppend | app/api/contact/route.ts:58-61 | the global replace acts piecewise on a concatenation |
| ContactRoute.LineFeedBecomesBreak | app/api/contact/route.ts:58-61 | a two-line message becomes its two lines joined by one `<br/>` |
| ContactRoute.BreaksRoundTrip | app/api/contact/route.ts:58-61 | for a message without `<`, turning each `<br/>` back into a line feed recovers the message |
| ContactRoute.HtmlLineFeeds | app/api/contact/route.ts:56-61 | the HTML body has the template's two line feeds plus those in the name and email, and none from the message |
| ContactRoute.HtmlNameUnescaped | app/api/contact/route.ts:56 | the HTML body starts with `<p><strong>Name:</strong> ` followed by the name exactly as submitted, unescaped |
| ContactRoute.HtmlEmailUnescaped | app/api/contact/route.ts:57 | after the name paragraph and the line break, the HTML body continues with the email paragraph holding the email exactly as submitted, unescaped |
| ContactRoute.TextBodyRoundTrip | app/api/contact/route.ts:55 | when name and email have no line feed, all three fields can be read back from the plain-text body |
| ContactRoute.EnvelopeCarriesPayload | app/api/contact/route.ts:51-54 | for every checked payload, line feeds included, the envelope is from `EMAIL_FROM` to `EMAIL_TO`, replies go to the submitted email, and the name is recoverable from the subject |
| ContactRoute.EnvelopeTextReadable | app/api/contact/route.ts:55 | when the name and email have no line feed, all three fields can be read back from the envelope's plain-text body (via `TextBodyRoundTrip`) |
| ContactRoute.MissingFieldsRejected | app/api/contact/route.ts:42-47 | the answer is the 400 "Missing required fields" exactly when a field is missing or empty, and exactly then nothing is sent |
| ContactRoute.OnlyEmptinessChecked | app/api/contact/route.ts:41-42 | any three non-empty strings, blank or malformed, are mailed as they are |
| ContactRoute.SuccessIffDelivered | app/api/contact/route.ts:64 | the answer is `{success: true}` (status 200) exactly when a mail was handed over and delivered |
| ContactRoute.ServerErrorsAreThrown | app/api/contact/route.ts:36-71 | status 500 comes exactly from an unreadable body or a failed delivery, and every status is 200, 400 or 500 |
| ContactRoute.Transporter.constructor | app/api/contact/route.ts:20-28 | the transporter takes host, user and password from the environment, has port `Number(SMTP_PORT)`, is secure exactly when that port is 465, and has sent nothing |
| ContactRoute.Transporter.SendMail | app/api/contact/route.ts:50-62 | the mail is recorded as handed over, and a failure of the relay is thrown |
| ContactRoute.Route.Load | app/api/contact/route.ts:5-28 | a missing variable is only logged, and the transporter is created whatever the environment |
| ContactRoute.Route.Post | app/api/contact/route.ts:36-72 | the response is `PostResponse` of the request and the relay's answer, and the transporter has been handed exactly `MailsSent` |
| ContactRoute.SecureExactlyFor465 | app/api/contact/route.ts:23 | for a decimal port spelling, `secure` holds exactly when the port is 465 |
| ContactRoute.UnsetPortNotSecure | app/api/contact/route.ts:22-23 | an unset port reads as NaN and is not secure |
| ContactScenarios.JoinMatches | components/contact.tsx:28 | three non-empty `[^\s@]` runs joined by `@` and `.` match the pattern |
| ContactScenarios.NoAtNoMatch | components/contact.tsx:28 | a string without `@` never matches |
| ContactScenarios.ValidFormPasses | components/contact.tsx:23-38 | Ada / ada@example.com / "Hello, I would like to connect." has no errors |
| ContactScenarios.MissingNameShortMessage | components/contact.tsx:23-38 | an empty name with message "short" gives exactly the name-required and too-short errors |
| ContactScenarios.InvalidEmailOnly | components/contact.tsx:26-30 | "not-an-email" with a valid name and message gives only the invalid-email error |
| ContactScenarios.DeliveredPost | app/api/contact/route.ts:50-64 | a complete delivered request gets `{success: true}` and one mail with subject "New contact from Ada" |
| ContactScenarios.MissingMessagePost | app/api/contact/route.ts:42-47 | a request without a message gets 400 and sends nothing |
| ContactScenarios.UnreadableBodyPost | app/api/contact/route.ts:65-70 | a JSON parse failure gets 500 with the parser's message and sends nothing |
| ContactScenarios.SilentRelayFailure | app/api/contact/route.ts:68 | a failure with an empty message gets 500 "Internal Server Error" |
| ContactScenarios.ClientRulesImplyServerCheck | app/api/contact/route.ts:42 | every form the component's validator accepts also passes the handler's check, and its fields are mailed unchanged |
| ContactScenarios.ServerCheckIsWeaker | app/api/contact/route.ts:42 | the handler mails a form on which the validator reports an error on every field |

## Left out

- The presentation of the component, such as animation, icons, layout and the reduced-motion query. These only affect rendering. The only rendering facts used are which controls each status shows (`Step`).
- The 1500 ms `setTimeout` and asynchronous scheduling. A submission is one atomic step. Between events `isSubmitting` is always false, so the disabled submit button never matters.
- ContactForm.Contact.HandleChange: reads `errors` from the current state, not from the render in which the handler was created. In the atomic model these are the same.
- The honeypot `website` input. No code reads it.
- `request.json()` itself. A request body is either a thrown parse error or the three properties. A property that is absent, `null`, `false` or `0` is `None`. Truthy non-string JSON values (numbers, objects, arrays, `true`) are not modelled. Neither is the parser's exact error text.
- nodemailer, SMTP, TLS and delivery. What `sendMail` resolves or throws is an input (`SendOutcome`). `Transporter.SendMail` only records the envelope it was handed.
- `console.error` logging. The load-time check is kept as the flag `Route.loggedMissingConfig`.
- JsNumber.StringToNumber: results are exact rationals. Rounding to the nearest double is not modelled. This changes nothing for port spellings that name an integer below 2^53.
- JsText.Utf16Length: Dafny strings hold Unicode scalar values, so lone surrogates in the input cannot be represented.
