# Course-mind landing page forms, modelled in Dafny

The page has two forms: a consultation booking and a demo request. A submit
runs the browser's own validation. For the consultation form it then checks
the contact against the chosen channel (a Telegram username or an email
address). After that it builds a payload and stores it in `localStorage` under that form's key. The stored payload is then
shown in a result panel, with every value HTML-escaped. The payload trims the
contact and comment (consultation) or the name, email and message (demo); the
role, channel, time and status are stored as the controls hold them. This project models
that core as pure functions over strings and over a `map` that stands for the
store, and proves what the code promises about it.

Modules, one file each:

- `Wrappers` (wrappers.dfy): `Option` and `Result`.
- `Text` (text.dfy): JavaScript white space and `String.prototype.trim`.
- `Escape` (escape.dfy): `escapeHtml` as five `replaceAll` calls in sequence. Its partners are a per-character reference escaping and an `Unescape` decoder.
- `Validators` (validators.dfy): `isEmail` and `isTelegramUsername` as character-level predicates. Each has a reference predicate that follows the shape of its regular expression.
- `Labels` (labels.dfy): `channelLabel`, `roleLabel` and `statusLabel`, checked against closed enumerations of the codes.
- `Storage` (storage.dfy): the payload records, the two keys, and `saveJson`/`loadJson` as map update and lookup.
- `Render` (render.dfy): the values the result panels show.
- `Forms` (forms.dfy): the two submit handlers, a store invariant they keep, and a replay of any sequence of submits.

Two properties of the code shape the model:

- Role, channel and status are plain strings. The handlers take whatever string the control holds (js/app.js:107, 127-130, 180); only the label resolvers map unknown codes, to `—` (js/app.js:58-69, 194-201).
- A consultation with a channel other than `telegram` or `email` gets no contact check and is stored (js/app.js:111-123).

## Model

| member | source | states |
|---|---|---|
| Text.Trim | js/app.js:109 | `trim` returns a contiguous piece of its input. Only white space lies before and after that piece, and the piece neither starts nor ends with white space. |
| Text.TrimUnique | js/app.js:109 | Any string made of white space, then a trimmed core, then white space trims to exactly that core. This characterises `trim` completely. |
| Text.TrimIdempotent | js/app.js:131 | Trimming an already trimmed field changes nothing. |
| Text.TrimAllSpace | js/app.js:131 | A field that is all white space is stored as the empty string. |
| Text.TrimAround | js/app.js:109 | When only white space lies outside a piece that starts and ends with non-space characters, `trim` returns exactly that piece. |
| Text.TrimKeepsTrimmed | js/app.js:178-181 | A value without white space at its ends is stored exactly as entered. |
| Escape.ReplaceAll | js/app.js:10 | A one-character `replaceAll` leaves text without that character unchanged, and removes the character when the replacement does not contain it. |
| Escape.ReplaceAllSources | js/app.js:10 | Every character of the result of `replaceAll` comes from the replacement or is a kept character of the input other than the pattern. |
| Escape.ReplaceAllSingle | js/app.js:10 | On one character, `replaceAll` gives the replacement when it is the pattern and the character itself otherwise. |
| Escape.ReplaceAllAppend | js/app.js:10 | `replaceAll` distributes over concatenation. With `Escape.ReplaceAllSingle` this fixes the result on every input. |
| Escape.EscapeHtml | js/app.js:8-15 | The escaped text contains no raw `<`, `>`, `"` or `'`. |
| Escape.EscapeHtmlIdentity | js/app.js:8-15 | Text with none of `& < > " '` is returned unchanged. |
| Escape.EscapeHtmlIsPerChar | js/app.js:9-14 | The five replacements in sequence, `&` first, give the same result as replacing each character by its entity in one pass. |
| Escape.EscapeHtmlSafe | js/app.js:8-15 | The output has no raw `<`, `>`, `"` or `'`. Every `&` in it begins `&amp;`, `&lt;`, `&gt;`, `&quot;` or `&#039;`. |
| Escape.UnescapeEscapeHtml | js/app.js:9-14 | Decoding the five entities recovers the original text. |
| Escape.EscapeAmpersandLast | js/app.js:9-14 | The five replacements with `&` moved last still leave no raw `<`, `>`, `"` or `'`. |
| Escape.AmpersandLastConflates | js/app.js:9-10 | Replacing `&` first is what makes the escaping decodable: with `&` last, `<` and the text `&lt;` would both become `&amp;lt;`. |
| Escape.EscapeHtmlInjective | js/app.js:8-15 | Different texts never escape to the same markup. |
| Validators.StripAt | js/app.js:54 | A leading `@` is removed once. Any other string is kept as it is. |
| Validators.EmailMatchesPattern | js/app.js:47-50 | An address passes iff it has no white space, exactly one `@`, something before the `@`, and after it a `.` that is neither first nor last. This holds exactly when the string matches `^[^\s@]+@[^\s@]+\.[^\s@]+$` read as local part, `@`, domain, `.`, last part. |
| Validators.EmailImpliesPattern | js/app.js:49 | Every accepted address splits into the three non-empty parts of the pattern. |
| Validators.PatternImpliesEmail | js/app.js:49 | Every string of the pattern's shape is accepted. |
| Validators.TelegramShape | js/app.js:52-56 | A username passes iff it is 5 to 32 characters from `[A-Za-z0-9_]`, either bare or after exactly one leading `@`. |
| Validators.TelegramUsernameTrimmed | js/app.js:52-56 | An accepted username contains no white space at all. |
| Validators.EmailTrimmed | js/app.js:47-50 | An accepted address has no white space at its ends. |
| Validators.TelegramExamplesAccepted | js/app.js:52-56 | `@abcde`, `abcde` and `@joe_99` pass. |
| Validators.TelegramExamplesRejected | js/app.js:52-56 | `ab` (too short), `abcde!` (bad character) and `@@abcde` (a second `@`) fail. |
| Validators.EmailExampleAccepted | js/app.js:47-50 | `name@example.com` passes. |
| Validators.EmailExamplesRejected | js/app.js:47-50 | `bad` and `not-an-email` fail. |
| Validators.DotlessHostRejected | js/app.js:47-50 | `a@b`, a host without a dot, fails. |
| Labels.ChannelLabel | js/app.js:58-60 | The codes `telegram` and `email` map to the names of their channels. Every other string maps to `—`. |
| Labels.RoleLabel | js/app.js:62-69 | `teacher`, `student` and `admin` map to their role names. Every other string maps to `—`. |
| Labels.StatusLabel | js/app.js:194-201 | The status codes use the role vocabulary, with the same `—` fallback. |
| Labels.StatusAgreesWithRole | js/app.js:194-201 | `statusLabel` and `roleLabel` agree on every input. |
| Labels.RoleLabelInjective | js/app.js:62-69 | A role label other than `—` identifies its code. |
| Labels.ChannelLabelInjective | js/app.js:58-60 | A channel label other than `—` identifies its code. |
| Labels.FallbackIffUnknown | js/app.js:58-69 | `—` is shown exactly for codes outside the vocabulary. |
| Storage.Load | js/app.js:30-38 | A payload is returned only when the key holds a saved payload. A missing key, empty text, text that does not parse, or a falsy value gives nothing. |
| Storage.Save | js/app.js:26-28 | The key then loads the saved payload. Every other key keeps its entry. |
| Storage.KeysDistinct | js/app.js:41-44 | The two forms use different keys. |
| Storage.LoadAfterSave | js/app.js:26-38 | Loading after a save returns the payload at that key. Any other key returns what it returned before. |
| Storage.SaveOverwrites | js/app.js:26-28 | A second save to the same key replaces the first. No history is kept. |
| Render.EscapeAll | js/app.js:151-153 | Every value passes through `escapeHtml`. The result is inert markup that decodes to the value. |
| Render.RoleLabelNeedsNoEscaping | js/app.js:149 | Role labels contain no markup characters, so escaping leaves them unchanged. |
| Render.ChannelLabelNeedsNoEscaping | js/app.js:150 | Channel labels contain no markup characters, so escaping leaves them unchanged. |
| Render.StatusLabelNeedsNoEscaping | js/app.js:208 | Status labels contain no markup characters, so escaping leaves them unchanged. |
| Render.RenderConsultResult | js/app.js:146-155 | The consultation panel shows the role and channel labels and the escaped contact, time and comment. All five are inert, and each user value can be recovered exactly. |
| Render.RenderDemoResult | js/app.js:203-211 | The demo panel shows the escaped name, email and message and the status label. All four are inert. |
| Render.ConsultExampleShown | js/app.js:149-150 | A student booking over Telegram shows `Студент` and `Telegram`. |
| Forms.ConsultSubmit | js/app.js:97-143 | The consultation handler refuses in three cases: the browser validation fails, the channel is `telegram` and the trimmed contact is not a username, or the channel is `email` and it is not an address. Each case has its own reason, and a refusal leaves the store untouched. Otherwise it stores the trimmed contact and comment, the raw role, channel and time, and the given time stamp, under the consultation key only. |
| Forms.DemoSubmit | js/app.js:168-191 | Only the browser validation can refuse the demo handler. Otherwise it stores the trimmed name, email and message, the raw status and the time stamp, under the demo key only. |
| Forms.ConsultSubmitKeepsDemoSlot | js/app.js:136 | A consultation submit never changes what the demo key loads. |
| Forms.DemoSubmitKeepsConsultSlot | js/app.js:185 | A demo submit never changes what the consultation key loads. |
| Forms.ConsultSubmitPreservesWellFormed | js/app.js:107-136 | If every stored consultation is valid and trimmed before a submit, this still holds after it. |
| Forms.DemoSubmitPreservesWellFormed | js/app.js:177-185 | If every stored demo request is trimmed before a submit, this still holds after it. |
| Forms.ConsultSubmitSeesTrimmed | js/app.js:109-131 | The handler sees the contact and the comment only after trimming. |
| Forms.ConsultResubmitStable | js/app.js:126-136 | Submitting the stored request again gives the same outcome and the same store. |
| Forms.DemoSkipsEmailCheck | js/app.js:171-185 | The demo form has no structural email check: `a@b`, which the browser's email input accepts and `isEmail` rejects, is stored as entered. |
| Forms.ConsultTelegramExample | js/app.js:111-136 | A Telegram booking with `@joe_99` is stored with that contact and channel. |
| Forms.ConsultStoresUsernameVerbatim | js/app.js:109-136 | A valid Telegram username is stored exactly as entered, leading `@` included. |
| Forms.ReplayPreservesWellFormed | js/app.js:97-191 | Start from a well-formed store, for example an empty one. After any sequence of submits to either form, the store is still well formed: invalid data is never persisted. |

## Left out

- DOM work is not modelled. This covers `qs` and its missing-element exception, the hint texts and colours of `setHint`, the placeholder change listener, `form.reset`, `result.hidden` and the `innerHTML` assignment. These are page side effects with no logic beyond what is modelled.
- `checkValidity` and `reportValidity` are browser-native. Their verdict is the `nativeValid` input bit.
- `localStorage`, `JSON.stringify` and `JSON.parse` are browser library calls. A store entry is either a payload that reads back as written, or `Unreadable`. `Unreadable` stands for empty text, text that fails to parse, or text that parses to a falsy value (`null`, `false`, `0`, `""`). `Load` gives nothing for it.
- Storage.Load: text that parses to a truthy value that is not a payload (`42`, `"x"`, `{"a":1}`) is not modelled. `loadJson` returns such a value (js/app.js:34) and the start-up restore renders it (js/app.js:91-94), showing the text `undefined` for the missing fields. Only code outside this page could write such text.
- Storage.Save: `localStorage.setItem` (js/app.js:27) and `getItem` (js/app.js:31) can throw, for example when the quota is exceeded or storage is disabled, and neither call is inside a `try`. `Save` and `Load` are total and do not model that error path.
- `new Date().toISOString()` reads the clock. The time stamp is an opaque `createdAt` parameter.
- The fixed markup of the two result templates is not modelled. Only the shown values, in order and escaped, are.
- Restoring the last payload at start-up (js/app.js:89-95 and 163-166) and the `DOMContentLoaded` wiring are event plumbing. Reading the slot back is `Storage.Load`. A payload of the wrong form in a slot, which only code outside this page could write, is not rendered.
- JavaScript strings are UTF-16 code units, while Dafny `char` is a Unicode scalar value. The model covers well-formed Unicode text only: a JavaScript string can hold lone surrogates (in pasted text, say), and no Dafny `string` can. On well-formed text the two agree here: the username rule admits only ASCII, and the other rules do not count characters.
