# Sign-up validation and registration endpoint — a Dafny model

This project models the core of a small registration server. The server takes a
sign-up form for one of two kinds of registrant: an individual (`pf`) or a
business (`pj`). It checks every field of that kind's form against a fixed rule
and answers with the first failure or with a success.

The model has six modules:

- `Wrappers` (`wrappers.dfy`): the `Option` type shared by the others.
- `Digits` (`digits.dfy`): the character classes the rules rely on. It covers
  the ASCII digits of `\d`, the ECMAScript white space of `\s`, and the digit
  filter `replace(/\D/g, '')`.
- `Calendar` (`calendar.dfy`): the dates that `new Date(year, month - 1, day)`
  builds, including rollover of an out-of-range day or month and the
  1900-based reading of years 0..99. Dates sit on a day line counted from
  1 January of year 0. It also states the comparison with the current moment.
- `SignUpValidation` (`sign_up_validation.dfy`):
  - each field rule, with its exact Portuguese messages;
  - the CPF and CNPJ modulus-11 check digits;
  - the rule table and the ordered field lists `signUpFields`.
- `Registration` (`registration.dfy`): the `POST /registration` handler.
  - `Register` is a method with the handler's loop.
  - `RegistrationOutcome` is the function that specifies it.
- `MaskPatterns` (`mask_patterns.dfy`): the front end's input masks, `removeMask`
  and `applyMask`, for the four shipped patterns.

What is proved, in outline:

- Every rule returns its "required" message exactly for the empty value, and
  its verdict is valid exactly when its message is empty.
- The email pattern is equivalent to a shape stated without splitting: no
  white space, exactly one `@` not in front, and a `.` strictly inside the part
  after the `@`.
- The CPF rule's `(sum * 10) % 11` shortcut is the standard modulus-11 digit.
  The CPF rule accepts exactly the CPF numbers.
- The CNPJ rule's right-aligned weight table is the standard 2..9 cycle counted
  from the right. The CNPJ rule accepts exactly the CNPJ numbers.
- The check digits are determined by the leading digits: changing either one is
  rejected. Every nine-digit CPF base not made of one repeated digit, and every
  twelve-digit CNPJ base not all zero, has exactly one accepted completion. The
  remaining bases have none.
- The blacklist of repeated CPFs, and the all-zero test for CNPJs, are what
  reject the strings the checksum alone would accept.
- A well-formed real date from year 0100 on is refused as "future" exactly when
  it is later than today in the calendar. A year field 0000..0099 is read as
  1900..1999 before the comparison.
- The handler's loop computes `RegistrationOutcome`. The registration succeeds
  exactly when every listed field passes. The first failing field decides the
  answer. Body members outside the kind's list never matter.
- `removeMask(applyMask(v))` gives back the first `maxLength` digits of `v`.
  Masking is idempotent when the digits fit, and for every pattern it is not
  idempotent past `maxLength`.

The current clock enters as a parameter `today`, the calendar day of the moment
the rule runs.

The email rule follows the code. The code's regular expression
`^[^\s@]+@[^\s@]+\.[^\s@]+$` is more precise than a description as "a `.` after
the `@`". That `.` may be neither the first nor the last character after the
`@`. Other dots may also appear before the `@`.

The request body member that names the kind is spelt `singUpType` by the handler,
and the model keeps that spelling.

## Model

| member | source | states |
|---|---|---|
| Digits.DigitsOnly | utils/signUpValidation.js:48 | the digit filter keeps only digits and never lengthens the value |
| Digits.DigitsOnlyAppend | utils/signUpValidation.js:48 | the filter keeps digits in order across any split of the value |
| Digits.DigitsOnlyIdentity | utils/signUpValidation.js:48 | a value passes through the filter unchanged if and only if it is all digits |
| Digits.DigitsOnlyIdempotent | utils/maskPatterns.js:59-62 | removing the mask twice is removing it once |
| Digits.DigitsOnlyIgnoresPunctuation | utils/signUpValidation.js:155 | inserting a non-digit anywhere leaves the cleaned digits unchanged |
| Digits.IsWhitespace | utils/signUpValidation.js:10 | definition, no contract: the `\s` class of ECMAScript regular expressions (tab, line feed, vertical tab, form feed, carriage return, space, no-break space, ogham space mark, the spaces U+2000..U+200A, line and paragraph separators, narrow no-break space, medium mathematical space, ideographic space and the byte order mark) |
| Digits.DigitValues | utils/signUpValidation.js:68 | `split('').map(Number)` (lines 68 and 161) keeps the length, and each number is a single digit 0..9 whose digit character is the one it was read from |
| Digits.DecimalValue | utils/signUpValidation.js:96-97 | definition, no contract: `Number` of a captured group of decimal digits, leading zeros allowed |
| Calendar.ConstructedDate | utils/signUpValidation.js:97 | the built date always has a month 1..12 and keeps the day field, which may still roll over |
| Calendar.DayNumberMonotone | utils/signUpValidation.js:98 | on real dates the day line follows calendar order |
| Calendar.AfterTodayIsCalendarOrder | utils/signUpValidation.js:98 | a real date is after the current moment if and only if it is later than today in the calendar |
| Calendar.ConstructedRealDate | utils/signUpValidation.js:96-97 | from year 100 on, a real date is built as itself |
| Calendar.IsAfterToday | utils/signUpValidation.js:98 | definition, no contract: the built date is after the current moment when its day number exceeds today's; characterised by `AfterTodayIsCalendarOrder` |
| SignUpValidation.EmailPatternIsShape | utils/signUpValidation.js:10 | the email pattern matches if and only if the value has no white space, exactly one `@` not in front, and a `.` strictly inside the part after it |
| SignUpValidation.EmailRule | utils/signUpValidation.js:2-21 | required message exactly for the empty value, "Email inválido" for any other failure, valid if and only if the value has the email shape, and valid if and only if the message is empty |
| SignUpValidation.MatchesEmailPattern | utils/signUpValidation.js:10 | definition, no contract: the value splits as a run, `@`, a run, `.`, a run, each run non-empty and free of white space and `@`; characterised by `EmailPatternIsShape` |
| SignUpValidation.NameRule | utils/signUpValidation.js:22-40 | for `name` and, with the same code, `pjName` (lines 129-146): required message for the empty value, the length message for any other failure, valid if and only if the value has at least 3 characters |
| SignUpValidation.PasswordRule | utils/signUpValidation.js:224-242 | required message for the empty value, the length message for any other failure, valid if and only if the value has at least 8 characters |
| SignUpValidation.PhoneRule | utils/signUpValidation.js:110-128 | for `phone` and, differing only in the missing-value message, `pjPhone` (lines 177-195): the given required message for the empty value, "Telefone inválido" for any other failure, valid if and only if at least ten digits remain |
| SignUpValidation.DateRule | utils/signUpValidation.js:82-109 | for `birthDate` and, differing only in the missing-value message, `startUpDate` (lines 196-223): the given required message for the empty value, "Data inválida" when the format fails, "Data não pode ser futura" as the only other failure, and a valid value is well formed with an empty message |
| SignUpValidation.MatchesDatePattern | utils/signUpValidation.js:89-90 | definition, no contract: exactly two digits, `/`, two digits, `/`, four digits |
| SignUpValidation.DateFields | utils/signUpValidation.js:96 | definition, no contract: the year, month and day read from the three captured groups as decimal numbers |
| SignUpValidation.DateRuleOnRealDates | utils/signUpValidation.js:96-103 | a well-formed real date from year 0100 on is accepted if and only if today does not precede it: today is accepted, tomorrow is not |
| SignUpValidation.CpfCheckDigit | utils/signUpValidation.js:70-74 | the CPF check digit is always a single digit 0..9 |
| SignUpValidation.Modulus11Digit | utils/signUpValidation.js:167-168 | the remainder r of the sum by 11 gives 0 below 2 and 11 - r otherwise, always a single digit 0..9; also the reference digit of the CPF number definition |
| SignUpValidation.CpfWeightedSum | utils/signUpValidation.js:71 | the digits weighted `factor`, `factor - 1`, ... from the left; the sum is never negative while the weights stay positive |
| SignUpValidation.CpfCheckDigitIsModulus11 | utils/signUpValidation.js:70-74 | the `(sum * 10) % 11` digit with 10 read as 0 equals the standard modulus-11 digit (0 below remainder 2, otherwise 11 minus the remainder) |
| SignUpValidation.CpfRule | utils/signUpValidation.js:41-81 | required message exactly for the empty value, "CPF inválido" for any other failure, and an accepted value has 11 digits not in the blacklist |
| SignUpValidation.RepeatedCpfsAreSameDigit | utils/signUpValidation.js:50-63 | the blacklist is exactly the eleven-digit strings of one repeated digit |
| SignUpValidation.RepeatedCpfsPassChecksum | utils/signUpValidation.js:50-78 | every blacklisted string passes both check digits, so only the blacklist rejects it |
| SignUpValidation.CpfRuleAcceptsCpfNumbers | utils/signUpValidation.js:41-81 | the CPF rule accepts a value if and only if it is non-empty and its digits form a CPF number (11 digits, not all equal, both modulus-11 check digits right) |
| SignUpValidation.CpfWithCheckDigits | utils/signUpValidation.js:70-76 | completing nine digits gives eleven digits that start with them |
| SignUpValidation.CpfWithCheckDigitsAccepted | utils/signUpValidation.js:50-80 | the completion of nine digits is accepted if and only if they are not all the same |
| SignUpValidation.CpfCheckDigitsDetermined | utils/signUpValidation.js:76-80 | an accepted CPF is the completion of its first nine digits |
| SignUpValidation.CpfCheckDigitChangeRejected | utils/signUpValidation.js:76-78 | any other 11 digits with the same first nine as an accepted CPF are rejected |
| SignUpValidation.CpfRuleIgnoresPunctuation | utils/signUpValidation.js:48 | punctuation never changes the CPF verdict on a non-empty value |
| SignUpValidation.CpfExampleAccepted | utils/signUpValidation.js:41-81 | any writing of 529.982.247-25 is accepted |
| SignUpValidation.CpfExampleTypoRejected | utils/signUpValidation.js:76-78 | the same CPF with its last digit changed to 6 is rejected |
| SignUpValidation.CnpjCheckDigit | utils/signUpValidation.js:163-169 | the CNPJ check digit is always a single digit 0..9 |
| SignUpValidation.CnpjWeightedSum | utils/signUpValidation.js:164-166 | definition, no contract: the leading digits weighted by the right end of the weight table; characterised by `CnpjWeightedSumIsRightCyclic` |
| SignUpValidation.CnpjRule | utils/signUpValidation.js:147-176 | required message exactly for the empty value, "CNPJ inválido" for any other failure, and an accepted value has 14 digits, not all zero |
| SignUpValidation.CnpjWeightFromRight | utils/signUpValidation.js:154 | the weight table read from the right is the cycle 2, 3, ..., 9 |
| SignUpValidation.CnpjWeightedSumIsRightCyclic | utils/signUpValidation.js:164-166 | aligning the table's right end with the slice gives the standard weighting of 2 + k % 8 for the digit k places from the right |
| SignUpValidation.CnpjRuleAcceptsCnpjNumbers | utils/signUpValidation.js:147-176 | the CNPJ rule accepts a value if and only if it is non-empty and its digits form a CNPJ number (14 digits, not all zero, both check digits right) |
| SignUpValidation.ZeroCnpjPassesChecksum | utils/signUpValidation.js:157-171 | fourteen zeros pass both check digits, so only the zero test rejects them |
| SignUpValidation.RepeatedCnpjFailsChecksum | utils/signUpValidation.js:163-171 | fourteen equal non-zero digits already fail the first check digit |
| SignUpValidation.CnpjWithCheckDigits | utils/signUpValidation.js:163-171 | completing twelve digits gives fourteen digits that start with them |
| SignUpValidation.CnpjWithCheckDigitsAccepted | utils/signUpValidation.js:157-175 | the completion of twelve digits is accepted if and only if they are not all zero |
| SignUpValidation.CnpjCheckDigitsDetermined | utils/signUpValidation.js:171-175 | an accepted CNPJ is the completion of its first twelve digits |
| SignUpValidation.CnpjCheckDigitChangeRejected | utils/signUpValidation.js:171-173 | any other 14 digits with the same first twelve as an accepted CNPJ are rejected |
| SignUpValidation.CnpjRuleIgnoresPunctuation | utils/signUpValidation.js:155 | punctuation never changes the CNPJ verdict on a non-empty value |
| SignUpValidation.CnpjExampleAccepted | utils/signUpValidation.js:147-176 | any writing of 11.444.777/0001-61 is accepted |
| SignUpValidation.CnpjExampleTypoRejected | utils/signUpValidation.js:171-173 | the same CNPJ with its last digit changed to 2 is rejected |
| SignUpValidation.FieldKeysDistinct | utils/signUpValidation.js:1-243 | distinct fields are looked up under distinct keys, so each field reads its own body member |
| SignUpValidation.FieldKey | utils/signUpValidation.js:1-243 | definition, no contract: the key of each of the ten rules, which is also the body member the handler reads |
| SignUpValidation.RequiredMessage | utils/signUpValidation.js:1-243 | definition, no contract: the message each rule gives for a missing value; `Validate` states that it is given exactly for the empty value |
| SignUpValidation.Validate | utils/signUpValidation.js:1-243 | through the rule table, a field's rule gives its required message if and only if the value is empty, and is valid if and only if its message is empty |
| SignUpValidation.SignUpFields | utils/signUpValidation.js:245-257 | definition, no contract: `pf` lists email, password, name, cpf, birthDate, phone; `pj` lists email, password, pjName, cnpj, pjPhone, startUpDate |
| SignUpValidation.SignUpFieldLists | utils/signUpValidation.js:245-257 | exactly the kinds `pf` and `pj`; each lists six distinct fields, email and password first; the two lists share only those two, and between them cover all ten rules |
| Registration.Register | server/app.js:27-47 | the handler's loop returns exactly `RegistrationOutcome`: the kind check first, then the first field that is missing or refused, else success |
| Registration.Lookup | server/app.js:36 | definition, no contract: a body member's text, with an absent member read as the empty string (both falsy) |
| Registration.Passes | server/app.js:36-41 | definition, no contract: the field's member is present and its rule accepts it, the negation of the two guards at lines 36 and 41 |
| Registration.FieldFailure | server/app.js:36-43 | definition, no contract: for the field that stops the scan, the missing-field answer when its member is empty, otherwise the rule's result |
| Registration.IsKnownKind | server/app.js:30 | definition, no contract: the kind is accepted when it is `pf` or `pj` |
| Registration.FirstFailure | server/app.js:35-44 | definition, no contract: the scan of the field list in order, stopping at the first field that is missing or refused by its rule; characterised by `NoFailureIffAllPass`, `FailureIsFirstFailingField` and `FirstFailingFieldDecides` |
| Registration.RegistrationOutcome | server/app.js:27-47 | definition, no contract: the handler's decision as a function of the body and today's date, the specification `Register` is proved against |
| Registration.Outcome.Status | server/app.js:31-46 | definition, no contract: 201 for `Registered`, 400 otherwise |
| Registration.Outcome.Message | server/app.js:31-46 | definition, no contract: the response texts for an invalid kind, a missing field (`O campo <field> é obrigatório`), a rule rejection (the rule's own message) and a registration |
| Registration.NoFailureIffAllPass | server/app.js:35-44 | the scan finds no failure if and only if every listed field is present and accepted |
| Registration.FailureIsFirstFailingField | server/app.js:35-44 | a failure found by the scan is the answer for the first field that does not pass, and every field before it passes |
| Registration.FirstFailingFieldDecides | server/app.js:35-44 | the first field that does not pass decides the answer, and nothing after it is looked at |
| Registration.InvalidTypeIffUnknownKind | server/app.js:28-32 | the invalid-type answer is given if and only if the kind is missing or neither `pf` nor `pj` |
| Registration.RegisteredIffAllFieldsPass | server/app.js:27-47 | registration succeeds if and only if the kind is known and every field of its list is present and accepted |
| Registration.RejectionComesFromRuleCheck | server/app.js:36-43 | a rule's rejection comes from a listed field that is present, and it is never that rule's missing-value message |
| Registration.OutcomeIgnoresUnlistedMembers | server/app.js:28-44 | bodies that agree on the kind and on that kind's fields get the same answer |
| Registration.OutcomeIgnoresOtherKindField | server/app.js:34-40 | changing the body member of a field outside the kind's list, such as `cpf` in a business registration, never changes the answer |
| MaskPatterns.GroupLengths | utils/maskPatterns.js:1-22 | when a pattern matches, its groups cover all the cleaned digits and fit between the format's separators |
| MaskPatterns.MaxLength | utils/maskPatterns.js:5-20 | definition, no contract: the `maxLength` of each pattern, 11, 11, 14 and 8 |
| MaskPatterns.Separators | utils/maskPatterns.js:4-19 | definition, no contract: the literal text of each format around its groups |
| MaskPatterns.Format | utils/maskPatterns.js:47 | definition, no contract: separator, group, separator, ..., separator; characterised by `FormatKeepsDigits` and the formatting lemmas |
| MaskPatterns.RemoveMask | utils/maskPatterns.js:59-62 | `removeMask` is the digit filter, and the empty value gives the empty string |
| MaskPatterns.ApplyMask | utils/maskPatterns.js:35-51 | without a format the value is returned as is, and the empty value gives the empty string |
| MaskPatterns.FormatKeepsDigits | utils/maskPatterns.js:47 | formatting only inserts separators: removing them gives back the digits |
| MaskPatterns.RemoveMaskUndoesApplyMask | utils/maskPatterns.js:35-62 | removing the mask from a masked value gives the first `maxLength` digits of the original |
| MaskPatterns.ApplyMaskIdempotentWhenFits | utils/maskPatterns.js:35-51 | when the digits fit in `maxLength`, masking a masked value changes nothing |
| MaskPatterns.ApplyMaskNotIdempotentWhenTruncating | utils/maskPatterns.js:42-47 | twelve phone digits are cut to eleven bare digits, which a second pass then formats differently |
| MaskPatterns.ApplyMaskNotIdempotentPastMaxLength | utils/maskPatterns.js:42-47 | for every pattern, a value with more digits than `maxLength` is masked differently by a second pass, so masking is not idempotent there |
| MaskPatterns.ApplyMaskTruncates | utils/maskPatterns.js:42-44 | more digits than `maxLength` give the first `maxLength` digits with no separators |
| MaskPatterns.ApplyMaskShortInput | utils/maskPatterns.js:36-50 | too few digits for the pattern, none included, give the bare digits |
| MaskPatterns.ApplyMaskFormats | utils/maskPatterns.js:46-47 | when the pattern matches the cleaned digits, the result is those digits formatted with the pattern's groups and separators |
| MaskPatterns.PhoneFormatting | utils/maskPatterns.js:2-6 | ten digits become `(DD) DDDD-DDDD` and eleven become `(DD) DDDDD-DDDD` |
| MaskPatterns.CpfFormatting | utils/maskPatterns.js:7-11 | eleven digits become `DDD.DDD.DDD-DD` |
| MaskPatterns.CnpjFormatting | utils/maskPatterns.js:12-16 | fourteen digits become `DD.DDD.DDD/DDDD-DD` |
| MaskPatterns.DateFormatting | utils/maskPatterns.js:17-21 | eight digits become `DD/DD/DDDD` |
| MaskPatterns.PhoneExample | utils/maskPatterns.js:2-6 | `11999998888` is shown as `(11) 99999-8888` |

## Left out

- The rest of the HTTP server is not modelled: the CORS headers, static file serving, `helmet`, the `GET /registration` page and the listening port. The handler's answer is modelled as an `Outcome` with a status and a message, not as an HTTP response.
- Request body values are modelled as text. A JSON member that is a number, a boolean, an array or an object is not modelled. An absent member is read as the empty string, which the handler treats the same way (both are falsy).
- String length counts Unicode scalar values. JavaScript counts UTF-16 code units, so a name or password containing characters outside the Basic Multilingual Plane has a different length in the source.
- Regular expressions are not modelled by a general engine. Each pattern the source uses is stated directly: the email pattern, the date pattern, the digit filter, and the four mask patterns as fixed group lengths.
- MaskPatterns.ApplyMask: takes one of the four shipped patterns (or none) instead of an arbitrary regular expression, format string and maximum length, because only the shipped patterns are used.
- SignUpValidation.DateRule: compares calendar days instead of instants. The local time zone and daylight-saving shifts are not modelled; the current moment is a parameter `today` (its calendar day), because the clock is outside the model.
- Calendar.ConstructedDate: years are the proleptic Gregorian calendar from year 0 on. A date field never gives a negative year, so nothing before year 0 is needed.
- The client-side form components that call `applyMask` and the validation rules are not part of this model.
