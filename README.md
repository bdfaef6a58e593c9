# Checkout simulator: a Dafny model of the payment form and transaction store

The checkout simulator is a single-page app. A user types a cardholder name, a card number, an
expiry date, a CVV and an amount into a payment form. The form normalises every keystroke: the
card number is regrouped as `#### #### #### ####`, the expiry becomes `MM/YY`, the CVV is reduced
to four digits and the amount to digits and dots. On submit, the form validates all five fields
at once. When nothing is wrong, it saves a transaction record with a masked card number and a
generated `TXN-…` identifier. The record goes into a store that keeps it in memory and mirrors it
into the browser's session storage, so the receipt page can still find it after a reload.

The model is split into these files and modules:

- `wrappers.dfy` (`Wrappers`) holds `Option`.
- `js_string.dfy` (`JsString`) holds the string built-ins the code relies on: the `\D`, `\s` and
  `[^0-9.]` replacements as `Filter`, `trim`, `split` and `join`, `match(/.{1,4}/g)` on digit text as `Chunks`,
  `substring` and `slice` with JavaScript's index clamping, and `toUpperCase` on ASCII.
- `js_number.dfy` (`JsNumber`) holds `parseInt(s, 10)`, the outcome of `parseFloat` on amount
  text, and `toString(36)`.
- `payment_types.dfy` (`PaymentTypes`) holds the three records and the five field names.
- `field_format.dfy` (`FieldFormat`) holds the per-field normalisers of `handleInputChange`.
- `validation.dfy` (`Validation`) holds the five rules of `validateForm` and the error record.
- `payment_store.dfy` (`PaymentStore`) holds `maskCardNumber` and `generateTransactionId`. It also
  holds the store, both as a state machine (`StoreState` and its step functions) and as the class
  `TransactionStore`, whose methods are proved to follow that state machine.
- `payment_form.dfy` (`PaymentForm`) holds the class `FormState`, with the form data and the
  displayed errors as fields. Its methods model `validateForm`, `handleInputChange` and
  `handleSubmit`. `FormState.Valid()` is the invariant the input handler keeps: every field is a
  fixed point of its normaliser.

Three behaviours of the code are easy to miss, and the model keeps them:

- A month that `parseInt` cannot read (NaN) passes the expiry rule, because both range
  comparisons with NaN are false. See `Validation.ExpiryRuleAcceptsUnparsableMonth`. The formatter
  only ever produces digits there, so a typed-in form cannot reach this case
  (`Validation.FormattedExpiryRule`).
- The random segment of a transaction identifier can have fewer than six characters:
  `substring(2, 8)` of a short `Math.random().toString(36)` rendering is shorter.
- Every use of session storage is guarded by `typeof window !== 'undefined'`, but nothing catches
  an exception: a failing `setItem` or a `JSON.parse` of malformed stored text would propagate.

## Model

| member | source | states |
|---|---|---|
| JsString.Filter | src/components/PaymentForm.tsx:20 | the `replace(/[^…]/g, '')` result is never longer than the input and holds only characters that pass the class; `FilterAppend` and `FilterCounts` show it keeps every such character, in order |
| JsString.FilterAppend | src/components/PaymentForm.tsx:20 | filtering works piecewise over a concatenation, so nothing is reordered |
| JsString.FilterIdempotent | src/components/PaymentForm.tsx:118-120 | filtering twice by the same class is filtering once |
| JsString.FilterCounts | src/components/PaymentForm.tsx:120 | filtering keeps every occurrence of a kept character and drops every other |
| JsString.FilterMembership | src/components/PaymentForm.tsx:45 | a character is in the filtered text iff it passes the class and is in the input |
| JsString.FilterEmpty | src/components/PaymentForm.tsx:45-47 | the filtered text is empty iff no character passes the class (`!cardDigits`) |
| JsString.Trim | src/components/PaymentForm.tsx:38-40 | `trim()` is never longer than the text, and a non-empty result starts and ends on a non-whitespace character |
| JsString.TrimIsStretch | src/components/PaymentForm.tsx:38-40 | `trim()` is the stretch from the first non-whitespace character, with only whitespace after it |
| JsString.TrimEmpty | src/components/PaymentForm.tsx:38 | `trim()` is empty iff the name is all whitespace |
| JsString.TrimAtLeastTwo | src/components/PaymentForm.tsx:40 | the trimmed length is at least 2 iff the text holds two non-whitespace characters |
| JsString.TrimIdempotent | src/components/PaymentForm.tsx:98 | trimming a trimmed name changes nothing |
| JsString.TrimKeepsNonWhitespace | src/components/PaymentForm.tsx:38-40 | every non-whitespace character of the text lies inside the stretch `trim()` keeps |
| JsString.Split | src/components/PaymentForm.tsx:53 | `split('/')` gives at least one piece and no piece holds the separator |
| JsString.Join | src/components/PaymentForm.tsx:22 | `join(sep)` starts with the first piece and is at least `n - 1` characters long for `n` pieces; `JsString.JoinSeparatorCount` counts its separators, and `SplitThenJoin`/`JoinThenSplit` pin its value |
| JsString.JoinSeparatorCount | src/components/PaymentForm.tsx:22 | a join holds at least one separator per pair of consecutive pieces, and exactly `n - 1` for `n` pieces when no piece holds the separator |
| JsString.SplitThenJoin | src/components/PaymentForm.tsx:53 | joining the pieces of a split with the separator gives back the text |
| JsString.JoinThenSplit | src/components/PaymentForm.tsx:53 | splitting a join of separator-free pieces gives back the pieces |
| JsString.SplitPieceCount | src/components/PaymentForm.tsx:56 | a split has one more piece than the text has separators |
| JsString.Chunks | src/components/PaymentForm.tsx:21 | on text without line terminators, `match(/.{1,4}/g)` is empty (null) iff the text is; every match has 1 to 4 characters and all but the last exactly 4 |
| JsString.Substring | src/components/PaymentForm.tsx:22 | `substring` never returns more characters than the text has |
| JsString.Slice | src/stores/paymentStore.ts:55 | `slice(start)` is a suffix of the text, never longer than it |
| JsString.SliceFromEnd | src/stores/paymentStore.ts:55 | `slice(-k)` for k > 0 is the last `min(k, n)` characters, and the text is the rest followed by them |
| JsString.ToUpperAscii | src/stores/paymentStore.ts:48-49 | `toUpperCase` keeps the length and maps `a`-`z` to `A`-`Z` position by position |
| JsNumber.DigitPrefix | src/components/PaymentForm.tsx:59 | the digits `parseInt` reads are the longest all-digit prefix |
| JsNumber.ParseInt | src/components/PaymentForm.tsx:59 | `parseInt` gives a number only when some non-whitespace text is present, and a negative one only after a leading `-` |
| JsNumber.ParseIntOfDigits | src/components/PaymentForm.tsx:59 | `parseInt` of a non-empty digit string is its decimal value |
| JsNumber.ParseIntTwoDigits | src/components/PaymentForm.tsx:59 | `parseInt` of two digits is ten times the first plus the second |
| JsNumber.ParseIntNaN | src/components/PaymentForm.tsx:59-60 | text without a digit parses to NaN |
| JsNumber.DecimalValuePositive | src/components/PaymentForm.tsx:76 | a digit string denotes a positive number iff it holds a non-zero digit |
| JsNumber.DecimalPrefix | src/components/PaymentForm.tsx:73 | what `parseFloat` reads is a prefix of the text of the form `digits* ('.' digits*)?` that takes in the whole integer digit run and is the longest such prefix: the next character is not a digit, and it is a dot only when the prefix already holds one |
| JsNumber.ParseFloatIsPositive | src/components/PaymentForm.tsx:73-76 | a positive `parseFloat` result is never NaN |
| JsNumber.ParseFloatPositiveIff | src/components/PaymentForm.tsx:73-76 | on amount text `parseFloat(s) > 0` iff the prefix it reads holds a non-zero digit, and a positive parse is never NaN |
| JsNumber.Base36 | src/stores/paymentStore.ts:48 | `toString(36)` is non-empty, lower-case base-36, with no leading zero |
| JsNumber.Base36RoundTrip | src/stores/paymentStore.ts:48 | reading a base-36 rendering back gives the number |
| JsNumber.UpperCaseKeepsBase36Value | src/stores/paymentStore.ts:48 | upper-casing does not change the number the text denotes |
| JsNumber.UpperCaseBase36 | src/stores/paymentStore.ts:48-49 | upper-casing maps lower-case base-36 digits to upper-case ones |
| PaymentTypes.PaymentFormData.With | src/components/PaymentForm.tsx:123 | `{ ...prev, [field]: v }` sets that field and keeps every other |
| PaymentTypes.ValidationErrors.With | src/components/PaymentForm.tsx:127 | `{ ...prev, [field]: undefined }` clears that slot and keeps every other |
| PaymentTypes.ValidationErrors.Count | src/components/PaymentForm.tsx:81 | the key count is at most 5; 0 iff no slot is set, 5 iff all are |
| FieldFormat.Digits | src/components/PaymentForm.tsx:20 | `replace(/\D/g, '')` leaves only digits |
| FieldFormat.GroupedShape | src/components/PaymentForm.tsx:21-22 | grouped digits have length `n + (n-1)/4`, a space exactly at every fifth position and digits elsewhere |
| FieldFormat.GroupedFilter | src/components/PaymentForm.tsx:21-22 | removing the separators from grouped digits gives the digits back |
| FieldFormat.GroupedPrefix | src/components/PaymentForm.tsx:22 | cutting the grouping at `5k - 1` characters is grouping the first `4k` digits |
| FieldFormat.GroupedCut | src/components/PaymentForm.tsx:22 | cutting grouped digits at 19 characters is grouping the first sixteen digits |
| FieldFormat.FormatCardNumber | src/components/PaymentForm.tsx:19-23 | `formatCardNumber` has at most 19 characters and is the grouping of the first sixteen digits typed |
| FieldFormat.FormatCardNumberShape | src/components/PaymentForm.tsx:19-23 | only digits and spaces, at most 19 characters, its digits the first `min(16, n)` typed, each space after exactly four digits, no trailing space, empty when no digit was typed |
| FieldFormat.GroupedSpacing | src/components/PaymentForm.tsx:21-22 | a space at every fifth position means each space follows four digits after the start or another space |
| FieldFormat.FormatCardNumberIdempotent | src/components/PaymentForm.tsx:19-23 | formatting a formatted card number changes nothing |
| FieldFormat.FormatCardNumberStripped | src/components/PaymentForm.tsx:19-23 | without whitespace, a formatted card number is its first sixteen digits |
| FieldFormat.FormatExpiryDate | src/components/PaymentForm.tsx:25-31 | at most 5 characters; fewer than two digits come back as typed, otherwise the first two digits and then `/` |
| FieldFormat.FormatExpiryDateShape | src/components/PaymentForm.tsx:25-31 | fewer than two digits come back as typed; otherwise `MM/` and up to two more digits; at most 5 characters, `/` only at position 2 |
| FieldFormat.FormatExpiryDateIdempotent | src/components/PaymentForm.tsx:25-31 | formatting a formatted expiry date changes nothing |
| FieldFormat.FormatExpiryDateShortExamples | src/components/PaymentForm.tsx:27-30 | `1` stays `1`; `12` becomes `12/` |
| FieldFormat.FormatExpiryDateFourDigits | src/components/PaymentForm.tsx:28 | `1234` becomes `12/34` |
| FieldFormat.FormatExpiryDateDropsFifthDigit | src/components/PaymentForm.tsx:28 | `12345` becomes `12/34` |
| FieldFormat.ExpiryExample | src/components/PaymentForm.tsx:25-31 | on digit-only input the formatter is `s` below two digits and `s[..2] + "/" + s[2..min(4, n)]` from two on |
| FieldFormat.FilterCvv | src/components/PaymentForm.tsx:118 | the CVV holds at most four characters, all digits |
| FieldFormat.FilterCvvShape | src/components/PaymentForm.tsx:118 | the CVV keeps the first `min(4, n)` digits typed and is idempotent |
| FieldFormat.FilterAmount | src/components/PaymentForm.tsx:120 | the amount holds only digits and dots and is never longer than the input |
| FieldFormat.FilterAmountShape | src/components/PaymentForm.tsx:120 | the amount keeps every digit and dot with its count, drops everything else, and is idempotent |
| FieldFormat.Normalise | src/components/PaymentForm.tsx:110-121 | the name is stored as typed; the card number, expiry and CVV fit their input limits of 19, 5 and 4 characters (PaymentForm.tsx:177, 200, 221), the CVV is digits, the amount digits and dots |
| FieldFormat.NormaliseIdempotent | src/components/PaymentForm.tsx:111-121 | for every field, normalising a normalised value changes nothing |
| FieldFormat.NormalisedAmountText | src/components/PaymentForm.tsx:120 | a normalised form's amount holds only digits and dots |
| Validation.NameRule | src/components/PaymentForm.tsx:37-42 | "required" iff the name is all whitespace; no error iff it holds two non-whitespace characters; any other name gets "Name must be at least 2 characters" |
| Validation.CardNumberRule | src/components/PaymentForm.tsx:44-50 | "required" iff the number is all whitespace; no error iff 13 to 19 non-whitespace characters remain; any other number gets "Invalid card number" |
| Validation.FormattedCardNumberRule | src/components/PaymentForm.tsx:44-50 | a formatted card number passes iff at least 13 digits were typed, and is "required" iff none was |
| Validation.ExpiryRule | src/components/PaymentForm.tsx:52-63 | one of the three expiry messages or none, and "required" iff the text is empty |
| Validation.ExpiryRuleShape | src/components/PaymentForm.tsx:52-63 | "required" iff empty; no error iff 5 characters with the only `/` at position 2 and an accepted month; "Invalid month" iff that layout with a month out of 1-12; so any other non-empty text gets "Invalid expiry date (MM/YY)" |
| Validation.FormattedExpiryRule | src/components/PaymentForm.tsx:52-63 | a formatted expiry passes iff four digits were typed and the first two make a month 1-12; "required" iff no digit was typed |
| Validation.ExpiryRuleAcceptsUnparsableMonth | src/components/PaymentForm.tsx:59-62 | `ab/cd` passes: a NaN month is not rejected |
| Validation.ExpiryRuleOnDigits | src/components/PaymentForm.tsx:59-62 | on `MM/YY` digits the rule is only a month range check; the year is not examined |
| Validation.ExpiryMonthZeroRejected | src/components/PaymentForm.tsx:60-61 | `00/25` gets "Invalid month" |
| Validation.ExpiryMonthThirteenRejected | src/components/PaymentForm.tsx:60-61 | `13/25` gets "Invalid month" |
| Validation.ExpiryDecemberAccepted | src/components/PaymentForm.tsx:60 | `12/29` passes |
| Validation.ExpiryRuleIncompleteExample | src/components/PaymentForm.tsx:56-57 | `12/` is malformed |
| Validation.CvvRule | src/components/PaymentForm.tsx:65-70 | "required" iff empty; no error iff 3 or 4 characters; "CVV must be 3-4 digits" iff non-empty and of another length |
| Validation.FilteredCvvRule | src/components/PaymentForm.tsx:65-70 | a filtered CVV passes iff at least three digits were typed, and is "required" iff none was |
| Validation.AmountRule | src/components/PaymentForm.tsx:72-78 | "required" iff empty; no error iff the prefix `parseFloat` reads holds a non-zero digit; every other amount, NaN or not above 0, gets "Amount must be greater than 0" |
| Validation.AmountRuleFailingExamples | src/components/PaymentForm.tsx:76-77 | `0` (not above 0) and `.` (NaN) both get "Amount must be greater than 0" |
| Validation.AmountLeadingNonZeroPasses | src/components/PaymentForm.tsx:73-76 | amount text starting with a non-zero digit passes, whatever follows |
| Validation.AmountTenPasses | src/components/PaymentForm.tsx:73-76 | `10.00` passes |
| Validation.AmountSecondDotPasses | src/components/PaymentForm.tsx:73-76 | `1.2.3` passes, since `parseFloat` stops at the second dot |
| Validation.Validate | src/components/PaymentForm.tsx:33-81 | the fresh error record has no key iff each of the five rules passes on its own field |
| Validation.ValidateIsPerField | src/components/PaymentForm.tsx:33-80 | every slot of the error record is its own field's rule applied to that field alone |
| Validation.ValidateIsFieldwise | src/components/PaymentForm.tsx:33-80 | changing one field changes no other field's validation result |
| Validation.EmptyFormHasFiveErrors | src/components/PaymentForm.tsx:8-14 | the initial empty form gets all five "required" messages, and the error count is 5 |
| Validation.SampleCardNumberPasses | src/components/PaymentForm.tsx:44-50 | `4111111111111111` passes the card rule |
| Validation.SampleFormIsValid | src/components/PaymentForm.tsx:33-82 | a plausible complete form gets no error |
| PaymentStore.MaskCardNumber | src/stores/paymentStore.ts:53-57 | the mask is `**** **** **** ` followed by at most four non-whitespace characters |
| PaymentStore.MaskKeepsLastFour | src/stores/paymentStore.ts:53-57 | after the mask come exactly the last `min(4, n)` non-whitespace characters of the input |
| PaymentStore.MaskIgnoresEarlierCharacters | src/stores/paymentStore.ts:53-57 | with four non-whitespace characters at the end, nothing typed earlier shows through the mask |
| PaymentStore.MaskOfLastGroup | src/stores/paymentStore.ts:53-57 | `1111` is masked as `**** **** **** 1111` |
| PaymentStore.MaskExample | src/stores/paymentStore.ts:53-57 | `4111 1111 1111 1111` is masked as `**** **** **** 1111` |
| PaymentStore.RandomSegment | src/stores/paymentStore.ts:49 | the random segment has at most six characters |
| PaymentStore.RandomSegmentDigits | src/stores/paymentStore.ts:49 | the random segment holds only upper-case base-36 digits |
| PaymentStore.GenerateTransactionId | src/stores/paymentStore.ts:47-51 | the identifier starts with `TXN-` and has more than five characters |
| PaymentStore.TransactionIdFormat | src/stores/paymentStore.ts:47-51 | the identifier splits at `-` into exactly `TXN`, a non-empty upper-case base-36 part that reads back to the timestamp, and at most six upper-case base-36 digits |
| PaymentStore.TransactionIdDeterminesTimestamp | src/stores/paymentStore.ts:47-51 | equal identifiers come from equal timestamps and equal random segments, so distinct timestamps give distinct identifiers |
| PaymentStore.Boot | src/stores/paymentStore.ts:4 | a page load is coherent, keeps what session storage held, and a read then returns it |
| PaymentStore.SaveStep | src/stores/paymentStore.ts:7-13 | after a save the store is coherent and session storage holds the record |
| PaymentStore.GetStep | src/stores/paymentStore.ts:15-30 | with the memory slot set, a read returns it and changes nothing; otherwise it returns the mirror (nothing iff both are empty) and keeps it in the slot; a read never writes session storage and keeps a coherent store coherent |
| PaymentStore.ClearStep | src/stores/paymentStore.ts:32-37 | after a clear the store is coherent and a read finds nothing |
| PaymentStore.ReloadStep | src/stores/paymentStore.ts:4-30 | a reload keeps session storage, and in a coherent store a read gives the same answer as before it |
| PaymentStore.ReadYourWrite | src/stores/paymentStore.ts:7-30 | a read right after a save returns the saved record and changes nothing |
| PaymentStore.SaveOverwrites | src/stores/paymentStore.ts:7-13 | a later save replaces an earlier one completely |
| PaymentStore.GetIsIdempotent | src/stores/paymentStore.ts:15-30 | a second read gives the same answer and changes nothing; once hydrated, the answer no longer depends on the mirror |
| PaymentStore.ClearThenGet | src/stores/paymentStore.ts:32-37 | after a clear a read finds nothing; clearing twice is clearing once |
| PaymentStore.CoherenceIsInvariant | src/stores/paymentStore.ts:4-37 | save, read, clear and reload keep the memory slot coherent with the mirror, and a read then returns what the mirror holds |
| PaymentStore.SaveSurvivesReload | src/stores/paymentStore.ts:4-13 | a saved transaction is still found after the page reloads |
| PaymentStore.TransactionStore.constructor | src/stores/paymentStore.ts:4 | a page load starts with an empty memory slot and whatever session storage held |
| PaymentStore.TransactionStore.Save | src/stores/paymentStore.ts:7-13 | the new state is the save step of the old |
| PaymentStore.TransactionStore.Get | src/stores/paymentStore.ts:15-30 | the answer and the new state are the read step of the old state |
| PaymentStore.TransactionStore.Clear | src/stores/paymentStore.ts:32-37 | the new state is the clear step of the old |
| PaymentForm.BuildTransaction | src/components/PaymentForm.tsx:97-104 | the saved record holds the typed name trimmed, `maskCardNumber` of the typed card number, the typed expiry, the given amount text and identifier, and status Success; so its name has no surrounding whitespace and its mask shows at most four card characters after `**** **** **** ` |
| PaymentForm.AcceptedNameShape | src/components/PaymentForm.tsx:98 | an accepted name, trimmed, has two or more characters, no whitespace at either end, and is its own trim |
| PaymentForm.AcceptedCardMask | src/components/PaymentForm.tsx:99 | an accepted formatted card number holds 13 to 16 digits, and its mask is 19 characters ending in the last four |
| PaymentForm.AcceptedExpiryShape | src/components/PaymentForm.tsx:100 | an accepted formatted expiry is `MM/YY` with a month 1-12 |
| PaymentForm.AcceptedFields | src/components/PaymentForm.tsx:87 | data that passes validation passes all five rules, and its card number and expiry are fixed points of their formatters |
| PaymentForm.AcceptedRecordShape | src/components/PaymentForm.tsx:97-104 | fields that pass their rules yield a record of the saved-record shape |
| PaymentForm.SubmittedRecordShape | src/components/PaymentForm.tsx:84-104 | the record a successful submit saves has status Success, the typed name trimmed with 2+ characters, the typed expiry, a 19-character mask ending in the last four of 13-16 card digits, an `MM/YY` expiry with a valid month, and a positive amount behind it |
| PaymentForm.FormState.constructor | src/components/PaymentForm.tsx:8-16 | the form starts empty with no error, in the normalised state |
| PaymentForm.FormState.ValidateForm | src/components/PaymentForm.tsx:33-82 | the displayed errors become a fresh validation of the data, the answer is true iff no field has an error, and the form stays normalised |
| PaymentForm.FormState.HandleInputChange | src/components/PaymentForm.tsx:110-129 | the edited field gets its normalised value, other fields are kept, the field's error is cleared and others are kept, and the invariant is preserved |
| PaymentForm.FormState.HandleSubmit | src/components/PaymentForm.tsx:84-108 | the errors become the validation result; with any error the store is unchanged, otherwise exactly the built record is saved, and that record has the saved-record shape; the form stays normalised |

## Left out

- The JSX rendering, the receipt page (`src/components/TransactionReceipt.tsx` is not part of this model), and the navigation to `/receipt`.
- PaymentForm.FormState.HandleSubmit: the 1.5-second pause and the `isSubmitting` flag are not modelled. Submission is atomic. The code re-reads the form data after the pause, and the model uses the data validated just before.
- PaymentForm.FormState.HandleSubmit: `parseFloat(amount).toFixed(2)` is a function parameter. The model has no floating-point numbers, so the two-decimal rendering and its rounding are not modelled.
- PaymentStore.GenerateTransactionId: `Date.now()` and the text of `Math.random().toString(36)` are parameters. Uniqueness across calls is therefore not a property of the model.
- PaymentStore.TransactionIdFormat: the random text is assumed to be `0` or `0.` followed by lower-case base-36 digits, which is what the JavaScript rendering of a number in [0, 1) gives.
- PaymentStore.TransactionStore: the mirror holds the record itself, not its JSON text. The model assumes that JSON encoding round-trips and that session storage is always present and never throws.
- Validation.AmountRule: `parseFloat` is modelled only on text made of digits and dots, the only text the amount field can hold. Signs, exponents, `Infinity` and leading whitespace are not modelled. Underflow of a very long `0.000…1` to 0 is not modelled either.
- JsString.ToUpperAscii: `toUpperCase` is modelled on ASCII letters only. Every text it is applied to is base-36.
- String lengths count code points, while JavaScript's `.length` counts UTF-16 units. The two differ only for characters outside the Basic Multilingual Plane.
- The `maxLength` attributes of the input elements are not modelled. The normalisers already bound every field except the name and the amount.
- The exported `transactionResult` signal accessor is not a separate member: it reads the memory slot, which `TransactionStore.Get` and `State()` expose.
- `JsString.Chunks` is modelled as plain cutting into pieces. It differs from `match(/.{1,n}/g)` only on line terminators, and it is applied to digits only.
- The `Failed` status exists in the data model, but no code path produces it.
