# Form validation, modelled in Dafny

The repository holds two Streamlit forms that collect the same personal details: first and
last name, email, phone, age, birth date, and a start and end date. Each form has its own
validation rules.

- **Batch form** (`form_validation.py`). Fields are checked when the form is submitted. Seven
  checks run in a fixed order: five field validators and a date-range check. A successful
  submit copies the submitted values into the `form_data` record and raises its `submitted`
  flag. After that, the sidebar offers a button that resets the record key by key.
- **Live form** (`form_validation2.py`). Every render re-validates each field and writes a
  `*_valid` flag into the session state. `get_validation_status` turns the flags and values
  into an ordered list of outstanding messages. Submit goes through only when that list is
  empty. Clear deletes every session key.

The two variants are modelled separately and share only lexical building blocks:

| file | modules | what it holds |
|---|---|---|
| `common.dfy` | `Validity`, `Optional`, `Text`, `Calendar` | the `(is_valid, message)` verdict, `None`, character classes, Python's `$`, and day numbers |
| `email.dfy` | `EmailPattern` | the address pattern, which both files write out identically |
| `pyint.dfy` | `PyInt` | `int()` on text, and `str()` as its inverse |
| `phone_pattern.dfy` | `PhonePattern` | the batch form's phone pattern |
| `batch_rules.dfy`, `batch_form.dfy` | `BatchRules`, `BatchForm` | the batch validators, the `form_data` record, submit and clear |
| `live_rules.dfy`, `live_session.dfy` | `LiveRules`, `LiveSession` | the live validators, the session state with its flags, the status list, submit and clear |

Modelling choices:

- **Validators** are pure functions. Each one returns a `Verdict` whose message is empty exactly
  when the value passes.
- **Regular expressions** are predicates over character classes. Where a pattern has optional
  pieces (the email split, the batch phone number), there are two definitions:
  - a ghost predicate saying that some way of reading the pattern spells the input;
  - the deterministic test the validator runs.

  A lemma proves the two equivalent.
- **Python's `$`** also matches just before one final line feed. This is modelled explicitly for
  every anchored pattern, so a 51-character name ending in `\n` passes the live name rule.
- **`\s`** is the set of ASCII characters it matches on text: tab, line feed, vertical tab, form
  feed, carriage return, the separators 0x1C to 0x1F, and space.
- **Dates** are proleptic Gregorian day numbers, with 0001-01-01 as day 1. `date.today()` is a
  parameter named `today`.
- **Batch record.** `form_data` is a `map<Key, Value>` field of class `BatchForm.Form`.
  - Submit runs the checks with the loops `all(...)` and "report each failure" (methods
    `AllValid` and `CollectFailures`). On success it overwrites the record with `update`.
  - Clear walks the keys in the order the record was built, as the source's loop does.
- **Live session.** The session state is class `LiveSession.Session`, with the widget values,
  the eight flags, and `form_submitted` as fields. A missing key reads as `st.session_state.get`
  reads it: `''`, `0`, `None`, or `False`.
  - `Render` writes the flags as the form's sections write them.
  - `GetValidationStatus` appends block by block, as `get_validation_status` does.
  - Both are proved against the specification functions `Current` and `Status`.

Two details of the email rules:

- Both files spell the address classes out as `[a-zA-Z0-9._%+-]` and `[a-zA-Z0-9.-]`. So the
  domain allows no underscore, and no part allows non-ASCII letters.
- The batch validator has no separate required check: an empty address gets the format
  message (`BatchRules.EmptyEmailRejected`).

## Model

| member | source | states |
|---|---|---|
| Validity.Pass | form_validation.py:55 | a passing verdict has the empty message |
| Validity.Fail | form_validation.py:49-54 | a failing verdict carries its non-empty message |
| Validity.Report | form_validation.py:250-252 | a check reports at most one message: nothing when it passes, and otherwise its own message, whether or not that message is empty; a well-formed verdict never reports an empty message |
| Calendar.OrdinalExamples | form_validation.py:85 | 1990-01-01, the default earliest date, is day 726468; also gives the day numbers of the other example dates |
| Text.CountDigitsDropNewline | form_validation.py:68 | the line feed that `$` lets through adds no digit |
| EmailPattern.FirstIndex | form_validation.py:60 | the result is the position of the first `@`, or the length when there is none |
| EmailPattern.LastIndex | form_validation.py:60 | the result is the position of the last `.`, or -1 when there is none |
| EmailPattern.FitsGivesSplit | form_validation.py:60-61 | whatever the deterministic test accepts splits as local `@` domain `.` top-level domain |
| EmailPattern.SplitIsFound | form_validation.py:60-61 | every such split is found by cutting at the first `@` and the last `.` after it |
| EmailPattern.FitsIffSplits | form_validation2.py:17 | the deterministic test accepts exactly the split strings |
| EmailPattern.MatchesIffShape | form_validation.py:60-61 | the anchored test accepts exactly the split strings, optionally followed by one line feed |
| EmailPattern.NoAtRejected | form_validation.py:60-62 | input without `@`, the empty string included, never matches |
| EmailPattern.NoDotAfterAtRejected | form_validation2.py:17-18 | input with no `.` after its first `@` never matches |
| PyInt.DigitChar | form_validation.py:77 | the digit character of `d` reads back as `d` |
| PyInt.ShowNat | form_validation.py:77 | the decimal rendering of a natural number is a non-empty run of digits |
| PyInt.ParseIntDefinedIff | form_validation.py:76-77 | `int()` succeeds exactly on an optional sign followed by at least one digit |
| PyInt.DigitsValueOfShowNat | form_validation.py:77 | the rendered digits of `n` have the value `n` |
| PyInt.ParseShowRoundTrip | form_validation.py:77 | `int(str(n)) == n` for every integer |
| PhonePattern.ParseOf | form_validation.py:68-69 | the pieces the greedy test cuts form a well-formed parse that spells the input |
| PhonePattern.YieldPieces | form_validation.py:68 | each piece of a parse lies at its computed offset in the text the parse spells |
| PhonePattern.GreedyCuts | form_validation.py:68 | given where a parse's pieces lie, the greedy scan cuts at exactly those places |
| PhonePattern.OpenCut | form_validation.py:68 | the scan takes `(` exactly when the parse has one |
| PhonePattern.CloseCut | form_validation.py:68 | the scan takes `)` exactly when the parse has one |
| PhonePattern.Sep1Cut | form_validation.py:68 | the scan takes the first separator exactly when the parse has one |
| PhonePattern.Sep2Cut | form_validation.py:68 | the scan takes the second separator exactly when the parse has one |
| PhonePattern.GreedyFindsParse | form_validation.py:68-69 | the greedy test accepts everything any parse spells |
| PhonePattern.FitsIffSpells | form_validation.py:68-69 | the greedy test accepts exactly the strings some parse spells |
| PhonePattern.MatchesIffShape | form_validation.py:68-69 | the anchored test accepts exactly those strings, optionally followed by one line feed |
| PhonePattern.YieldCounts | form_validation.py:68 | every parse spells exactly ten digits in 10 to 14 characters |
| PhonePattern.SpelledCounts | form_validation.py:68 | every string the pattern spells has ten digits and 10 to 14 characters |
| BatchRules.ValidateName | form_validation.py:47-55 | the verdict is well formed: empty message exactly when it passes |
| BatchRules.NameMatchesIffFits | form_validation.py:51 | `$` adds nothing to the name pattern, because the line feed is in the class |
| BatchRules.NameAccepted | form_validation.py:47-55 | a name passes iff it has at least 2 characters, all letters, whitespace or hyphens, with no upper bound; the empty name gets "<field> is required"; a non-empty name with any character outside the class gets "<field> should only contain letters, spaces, and hyphens"; a one-character name made of a good character gets "<field> should be at least 2 characters long" |
| BatchRules.NameRuleOrder | form_validation.py:51-54 | the character check runs before the length check: a one-character name gets the character message when that character is bad, the length message otherwise |
| BatchRules.NameMessageStart | form_validation.py:49-54 | every failure message starts with the field's name |
| BatchRules.NameAcceptsExamples | form_validation.py:47-55 | plain alphabetic names pass |
| BatchRules.ValidateEmail | form_validation.py:58-63 | the verdict is well formed |
| BatchRules.EmailAccepted | form_validation.py:58-63 | an address passes iff it has the local@domain.tld shape; every other address gets "Please enter a valid email address" |
| BatchRules.EmptyEmailRejected | form_validation.py:61-62 | the empty address fails with "Please enter a valid email address", not a required message |
| BatchRules.EmailAcceptsPlainAddress | form_validation.py:58-63 | `ada@example.com` passes |
| BatchRules.ValidatePhone | form_validation.py:66-71 | the verdict is well formed |
| BatchRules.PhoneAccepted | form_validation.py:66-71 | a number passes iff some reading of the optional `(`, `)` and separators spells it; every other number gets "Please enter a valid phone number" |
| BatchRules.AcceptedPhoneHasTenDigits | form_validation.py:66-71 | every accepted number has exactly ten digits and 10 to 14 characters, or 15 when it ends in a line feed |
| BatchRules.PhoneAcceptsHelpFormat | form_validation.py:163 | a number laid out as the help text's `(123) 456-7890`, here `(555) 123-4567`, passes |
| BatchRules.PhoneAcceptsDots | form_validation.py:68 | dots are separators too |
| BatchRules.PhoneAcceptsUnbalancedParenthesis | form_validation.py:68 | the parentheses need not be balanced |
| BatchRules.PhoneRejectsLetters | form_validation.py:66-71 | `555-CALL-NOW` fails |
| BatchRules.ValidateAge | form_validation.py:74-82 | the verdict is well formed |
| BatchRules.AgeAccepted | form_validation.py:74-82 | an age passes iff it reads as an integer from 0 to 120; text that is not an integer literal gets "Please enter a valid number"; an integer outside 0 to 120 gets "Age must be between 0 and 120" |
| BatchRules.TypedAgeAgrees | form_validation.py:77 | typing an integer's decimal form is judged the same as entering the integer |
| BatchRules.ValidateDate | form_validation.py:85-92 | the verdict is well formed |
| BatchRules.DateAccepted | form_validation.py:85-92 | a date passes iff it lies between 1990-01-01 and today + 1825 days, both ends included; an earlier date gets "Date must be after 1990-01-01" (checked first), and any other date after the window gets "Date cannot be more than 5 years in the future" |
| BatchForm.KeyListed | form_validation.py:100-110 | the record's key list names every key |
| BatchForm.RecordsEqual | form_validation.py:258 | two records that agree on every listed key are equal |
| BatchForm.CommitOverwrites | form_validation.py:236-246 | whatever the record held, `update` with the submitted values rewrites every key, so the record becomes exactly those values with `submitted` raised |
| BatchForm.CommitPrefillRoundTrip | form_validation.py:124-214 | after a successful submit, the widgets are refilled with exactly the submitted values |
| BatchForm.FailuresOfSeven | form_validation.py:222-230 | the reported messages are the seven checks' messages, in check order |
| BatchForm.AllValid | form_validation.py:233 | the loop's answer is true iff every check passes |
| BatchForm.CollectFailures | form_validation.py:250-252 | the loop reports the failing checks' messages, in order |
| BatchForm.Verdicts | form_validation.py:233-252 | the submit decides "all pass", and otherwise reports the failures |
| BatchForm.FailuresEmptyIff | form_validation.py:233-252 | nothing is reported iff every check passes |
| BatchForm.FailuresBounded | form_validation.py:250-252 | at most one message per check |
| BatchForm.FieldMessagesDiffer | form_validation.py:222-229 | no field check reports the range message |
| BatchForm.RangeReportedLast | form_validation.py:229 | the range message is reported, last, iff start ≥ end |
| BatchForm.EmptyTextReports | form_validation.py:222-228 | empty text fields give the two required messages, then the email and phone messages |
| BatchForm.FailuresOfChecks | form_validation.py:222-230 | the field checks' messages come first, then the range check's |
| BatchForm.UntouchedInitialSubmit | form_validation.py:99-110 | submitting a new session's untouched form reports exactly the four text-field messages |
| BatchForm.UntouchedClearedSubmit | form_validation.py:255-264 | submitting the untouched form after a clear also reports the range message, because start == end |
| BatchForm.ResetValues | form_validation.py:258-264 | resetting each key as the clear loop does gives the cleared record |
| BatchForm.Form.constructor | form_validation.py:99-110 | the record starts empty, with end date = today + 1 and `submitted` down |
| BatchForm.Form.Submit | form_validation.py:219-252 | accepts iff all seven checks pass and reports exactly the failures in order; on success the record is the submitted values with `submitted` raised, otherwise it is unchanged |
| BatchForm.Form.Clear | form_validation.py:255-264 | once submitted, every key is reset in turn: dates to today, `submitted` down, every other key (the age included) to `''`; before a submit nothing changes |
| BatchForm.AllPassIff | form_validation.py:222-233 | a submit is accepted iff each of the seven checks passes: both names, the email, the phone, the age, the birth date, and start < end |
| BatchForm.SampleTextPasses | form_validation.py:47-71 | the valid sample's names, address and number pass their validators |
| BatchForm.ValidFormAccepted | form_validation.py:219-234 | a fully valid form is accepted on every day from which its birth date lies within the five-year window |
| BatchForm.ReversedRangeRefused | form_validation.py:229 | a reversed schedule is refused and the range message is reported |
| LiveRules.ValidateName | form_validation2.py:6-11 | the verdict is well formed |
| LiveRules.NameAccepted | form_validation2.py:6-11 | a name passes iff all its characters are letters, apostrophes, whitespace or hyphens and there are 2 to 50 of them, or 51 ending in a line feed; every other non-empty name gets "<field> must contain only letters, spaces, hyphens, or apostrophes (2-50 characters)" |
| LiveRules.NameMatchesIff | form_validation2.py:9 | the anchored pattern accepts exactly 2 to 50 name characters, or 51 ending in a line feed |
| LiveRules.NewlineIsNameChar | form_validation2.py:9 | dropping a final line feed keeps the class condition |
| LiveRules.SingleLineNameAccepted | form_validation2.py:6-11 | single-line input passes iff it has 2 to 50 name characters |
| LiveRules.NameMessageStart | form_validation2.py:7-10 | "" gives exactly "<field> is required"; every failure message starts with the field's name |
| LiveRules.ValidateEmail | form_validation2.py:14-19 | the verdict is well formed |
| LiveRules.EmailAccepted | form_validation2.py:14-19 | passes iff local@domain.tld; "" gives "Email is required"; any other failure gives "Invalid email format" |
| LiveRules.Strip | form_validation2.py:25 | the result is no longer than the input and holds no whitespace, hyphen or parenthesis |
| LiveRules.StripAppend | form_validation2.py:25 | stripping works piecewise |
| LiveRules.StripKeeps | form_validation2.py:25 | text without punctuation is left unchanged |
| LiveRules.StripIdempotent | form_validation2.py:25 | stripping twice is stripping once |
| LiveRules.StripKeepsOthers | form_validation2.py:25 | every non-punctuation character survives |
| LiveRules.StripCountsDigits | form_validation2.py:25 | stripping keeps every digit |
| LiveRules.StripNone | form_validation2.py:25 | punctuation alone strips to nothing |
| LiveRules.ValidatePhone | form_validation2.py:22-28 | the verdict is well formed |
| LiveRules.PhoneAccepted | form_validation2.py:22-28 | passes iff the number is non-empty and exactly ten digits remain after stripping; every other non-empty number gets "Phone must be 10 digits" |
| LiveRules.PhoneDependsOnStripped | form_validation2.py:25-27 | for non-empty input the verdict depends only on the stripped string |
| LiveRules.AcceptedPhoneHasTenDigits | form_validation2.py:22-28 | an accepted number has exactly ten digits, and every other character is punctuation |
| LiveRules.StrippedDigits | form_validation2.py:25-26 | when only digits remain, every character was a digit or punctuation |
| LiveRules.StripGroups | form_validation2.py:25-26 | punctuation around 3, 3 and 4 digits strips to ten digits |
| LiveRules.PhoneAcceptsParenthesised | form_validation2.py:226 | the help text's `(123) 456-7890` passes |
| LiveRules.PhoneAcceptsHyphenated | form_validation2.py:226 | the help text's `123-456-7890` passes |
| LiveRules.PhoneAcceptsLoosePunctuation | form_validation2.py:25-26 | runs of punctuation anywhere are ignored |
| LiveRules.PhoneRejectsLetters | form_validation2.py:26-27 | `555-CALL-NOW` fails with "Phone must be 10 digits" |
| LiveRules.ValidateAge | form_validation2.py:31-36 | the verdict is well formed |
| LiveRules.AgeAccepted | form_validation2.py:31-36 | passes iff 1 ≤ age ≤ 120; the ≤ 0 check fires first |
| LiveRules.ValidateDate | form_validation2.py:39-44 | the verdict is well formed |
| LiveRules.DateAccepted | form_validation2.py:39-44 | passes iff present and not after today; a missing date gets "Date is required" and a date after today "Date cannot be in the future" |
| LiveSession.Run | form_validation2.py:189-256 | every field's validator gives a well-formed verdict |
| LiveSession.WriteRange | form_validation2.py:274-282 | with both dates present, both range flags become start < end; otherwise both are left alone |
| LiveSession.WriteFlags | form_validation2.py:187-282 | each field's flag becomes "value given and validator passes" (age: `> 0`); the range flags follow `WriteRange` |
| LiveSession.AppendBlock | form_validation2.py:52-58 | a set flag appends nothing; otherwise the required message when the value is missing, or the validator's message when it fails |
| LiveSession.CollectSix | form_validation2.py:52-98 | the six blocks append in form order |
| LiveSession.CollectShape | form_validation2.py:52-98 | each block adds at most one message, and never an empty one |
| LiveSession.CollectEmptyIff | form_validation2.py:52-98 | under agreeing flags, the blocks add nothing iff every flag is set |
| LiveSession.CollectAvoids | form_validation2.py:52-98 | a message no block can add is absent |
| LiveSession.FieldsSound | form_validation2.py:52-98 | every block has a well-formed verdict and a non-empty required message |
| LiveSession.FieldsAgree | form_validation2.py:187-263 | flags written by a render agree with every block |
| LiveSession.AssembleShape | form_validation2.py:47-106 | at most seven messages, none empty |
| LiveSession.AssembleEmptyIff | form_validation2.py:47-106 | under agreeing flags, the list is empty iff all six flags are set and the range is not reversed |
| LiveSession.AssembleAgreeing | form_validation2.py:52-104 | under agreeing flags, each slot is the required message or the verdict's report |
| LiveSession.AssembleRangeLast | form_validation2.py:100-104 | the last message is the range message iff the range is reversed |
| LiveSession.NameNeverRange | form_validation2.py:8-10 | no name message is the range message |
| LiveSession.OthersNeverRange | form_validation2.py:14-44 | no other validator message is the range message |
| LiveSession.RunAvoidsRange | form_validation2.py:6-44 | no validator reports the range message |
| LiveSession.EmptyTextRequired | form_validation2.py:7-8 | the empty text fields' own messages equal the aggregator's required messages |
| LiveSession.StatusShape | form_validation2.py:47-106 | at most one message per slot, so at most seven, and none of them is empty |
| LiveSession.RangeReportedLast | form_validation2.py:100-104 | the range message is last iff both dates are present and start ≥ end |
| LiveSession.StatusEmptyIff | form_validation2.py:47-106 | after a render, the status is empty iff all six flags are set and the dates are not reversed |
| LiveSession.StatusFromValidators | form_validation2.py:47-106 | after a render, the status is the validators' reports in form order, with "Age is required" and "Birth date is required" for a non-positive age or a missing date |
| LiveSession.SetFlagHidesField | form_validation2.py:52 | while the first-name flag is set, neither the first name nor its verdict affects the status |
| LiveSession.BlankStatus | form_validation2.py:156-159 | an emptied session is consistent, and its status is the six required messages |
| LiveSession.UntouchedStatus | form_validation2.py:156-159 | after Clear deletes every key, the first re-render (its widgets at form_validation2.py:254-272 showing their defaults) lists five required messages and the range message |
| LiveSession.Session.constructor | form_validation2.py:172-173 | a new session has no values, all flags down, and `form_submitted` false |
| LiveSession.Session.Render | form_validation2.py:187-282 | the values are the widgets'; every field flag agrees with its validator; the range flags follow `WriteRange`; `form_submitted` is unchanged |
| LiveSession.Session.GetValidationStatus | form_validation2.py:47-106 | the appended list is `Status` of the current state |
| LiveSession.Session.StatusTwice | form_validation2.py:47-106 | the status only reads state, so two calls return the same list |
| LiveSession.Session.Submit | form_validation2.py:285-291 | `form_submitted` becomes true iff the status list is empty, otherwise it is unchanged; values and flags are untouched |
| LiveSession.Session.Clear | form_validation2.py:156-159 | every value and flag reads its default, and `form_submitted` is false |
| LiveSession.CurrentAllSet | form_validation2.py:187-282 | under the flags a render writes, all six flags are set and the range holds iff every field holds a value its validator accepts and the dates are not reversed |
| LiveSession.RenderThenSubmit | form_validation2.py:187-291 | after a render and a submit, the session holds the widgets' values and the flags the render wrote, the messages are the status of that state, and the submit goes through iff every field holds a value its validator accepts and the dates are not reversed |

## Left out

- Rendering is not modelled: `st.success` and `st.error`, headers and columns,
  `create_sidebar_markdown`, `update_sidebar_table`'s markdown table and status symbol,
  `st.rerun`, and `set_page_config`. The batch form's per-field feedback while typing only
  displays messages and changes no state.
- `date.today()` is a parameter. `strftime` is not modelled: the early-date message is the
  literal it produces for the default earliest date. `validate_date` is modelled with that
  default only.
- Widget clamping (`number_input` between 0 and 120, and the date widgets' defaults) is an
  assumption about the inputs, not validator behaviour. `BatchForm.Entries.age` is any integer.
- `BatchRules.ToInt` does not model all of Python's `int()`: surrounding whitespace,
  underscores and non-ASCII digits are not accepted. Only an optional sign followed by ASCII
  digits is.
- Non-ASCII whitespace, which Python's `\s` also matches, is not modelled.
- The live form's `validation_messages` key is written once and never read, so it is left out.
- The streamlit_components_tutorial.py showcase is not part of this model.
- `LiveSession.Session.Clear`: the key-by-key deletion is modelled as resetting every field to
  the value a missing key reads as. The loop order is not observable.
- `LiveSession.Session.Render` and `LiveSession.Session.GetValidationStatus` evaluate all six
  validators up front. The source calls a validator only when its value is given. Validators
  are pure, so the flags and messages are the same.
- `LiveSession.SetFlagHidesField` is stated over `Assemble` (flags, values and verdicts given
  separately), not over a session.
- `BatchRules.ValidateName` is modelled with its field name always passed. The `"Name"` default
  of `field_name` is never used by the form.
