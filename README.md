# Billed — new-bill controller, modelled in Dafny

This project models the `NewBill` container of the Billed expense-report front end
(`front-end/src/containers/NewBill.js`). The container drives the "new bill" form:

- when the employee picks a receipt, it takes the file name from the input's value, checks
  that the extension is `jpg`, `jpeg` or `png` (ignoring case), clears the input if it is
  not, and in every case uploads the file with `store.bills().create`; a successful upload
  stages the returned URL, the generated key (the bill id) and the file name;
- when the form is submitted, it builds a bill record from the form fields and the staged
  attachment (`amount` and `pct` through `parseInt`, `pct` defaulting to 20, status
  `pending`), asks the store to `update` the bill selected by the staged id, and navigates
  to the Bills page; a successful update navigates there a second time.

Files:

- `wrappers.dfy` — `Option`, standing for `null`/`NaN` where the source has them.
- `js_strings.dfy` (module `JsStrings`) — `split` with a one-character separator, its inverse
  `join`, the last piece of a split, ASCII `toLowerCase`.
- `js_parse_int.dfy` (module `JsParseInt`) — `parseInt` without a radix: leading white
  space, sign, `0x` prefix, longest digit run, `NaN` as `None`; and a decimal formatter it
  reads back.
- `new_bill.dfy` (module `NewBillContainer`) — the extension check, the bill record, the
  `NewBill` class with one method per event handler and per promise continuation, and four
  client scenarios.

The class keeps the three staged fields (`fileUrl`, `fileName`, `billId`) as `Option`
fields that the methods update in place. Ghost fields record the calls made on the store,
the navigations, and the continuations still to run. The file input is an object of its
own whose `value` the change handler clears. Each promise continuation is its own method
(`OnUploadSettled`, `OnUpdateSettled`), called with the outcome. Any interleaving of
handlers and continuations is therefore a sequence of method calls, and overlapping uploads
race as in the source: the last one to succeed wins.

The code differs from a plain reading of the component's intent in two ways. The model
follows the code in both:

- a file with a disallowed extension is still uploaded, because the check does not return
  early; if that upload succeeds, the rejected file is staged and later submitted
  (`DisallowedFileScenario`);
- a name without any `.` is checked as a whole, so a file called `png` passes
  (`AcceptedExamples`).

## Model

| member | source | states |
|---|---|---|
| `JsStrings.Split` | front-end/src/containers/NewBill.js:35 | `split` always yields at least one piece, and no piece contains the separator |
| `JsStrings.SplitThenJoin` | front-end/src/containers/NewBill.js:35 | joining the pieces of a split with the separator gives back the original string |
| `JsStrings.JoinThenSplit` | front-end/src/containers/NewBill.js:70 | splitting separator-free pieces joined by the separator gives back those pieces |
| `JsStrings.LastPieceOfSplit` | front-end/src/containers/NewBill.js:35-36 | the last piece of a split is a suffix of the string, preceded by the separator unless it is the whole string, which happens exactly when there is one piece |
| `JsStrings.LastSegment` | front-end/src/containers/NewBill.js:35-36 | `split(sep)` followed by taking its last piece (`filePath[filePath.length - 1]`, and `.pop()` at line 70); characterised by `LastSegmentSpec` and `LastSegmentUnique` |
| `JsStrings.LastSegmentSpec` | front-end/src/containers/NewBill.js:70 | `split(sep).pop()` has no separator, is a suffix, and starts the string or follows a separator |
| `JsStrings.LastSegmentUnique` | front-end/src/containers/NewBill.js:70 | any separator-free suffix that starts the string or follows a separator is the last segment |
| `JsStrings.ToLowerAscii` | front-end/src/containers/NewBill.js:70 | lower-casing keeps the length, lowers each character in place, and leaves no upper-case ASCII letter |
| `JsParseInt.TrimStartSpec` | front-end/src/containers/NewBill.js:88-90 | `parseInt` skips exactly the leading white space: what remains is a suffix that starts with no white space, and everything dropped is white space |
| `JsParseInt.LeadingDigitsSpec` | front-end/src/containers/NewBill.js:88-90 | the digits read are a prefix of digits that no further digit could extend |
| `JsParseInt.FormatNat` | front-end/src/containers/NewBill.js:88-90 | the decimal form of a natural number has at least one digit, only digits, and denotes that number |
| `JsParseInt.ParseInt` | front-end/src/containers/NewBill.js:88-95 | `parseInt(value)` with no radix: skips white space, takes an optional sign, reads base 16 after `0x`/`0X` and base 10 otherwise, `NaN` (`None`) when no digit follows; characterised by `ParseIntReadsDigits` and `ParseIntReadsHex` (the numbers read) and `ParseIntNoLeadingDigit`, `ParseIntHexWithoutDigits` and `ParseIntWithoutDigits` (the `NaN` cases) |
| `JsParseInt.ParseIntSigned` | front-end/src/containers/NewBill.js:88-95 | after white space, a `-` negates and a `+` keeps the unsigned number read after it |
| `JsParseInt.ParseIntReadsDigits` | front-end/src/containers/NewBill.js:88-95 | any run of decimal digits, leading zeros included, after white space and an optional sign and before a non-digit, is read as its value, negated after `-`; a lone `0` followed by `x` is excluded, since that is a hex prefix |
| `JsParseInt.ParseIntReadsHex` | front-end/src/containers/NewBill.js:88-95 | `0x`/`0X` followed by hex digits, after white space and an optional sign, is read in base 16 |
| `JsParseInt.ParseIntReadsDecimal` | front-end/src/containers/NewBill.js:88-90 | derived from `ParseIntReadsDigits`: `parseInt` of a number's canonical decimal form, after any white space and before anything that cannot continue the number, is that number |
| `JsParseInt.ParseIntWithoutDigits` | front-end/src/containers/NewBill.js:88-90 | a field without a decimal digit parses to `NaN` |
| `JsParseInt.ParseIntSignedNaN` | front-end/src/containers/NewBill.js:88-95 | after white space and an optional sign, an unsigned part that reads nothing makes the result `NaN` |
| `JsParseInt.ParseIntNoLeadingDigit` | front-end/src/containers/NewBill.js:88-95 | when the character after the white space and the optional sign is no decimal digit (or, with no sign, is no further sign), the result is `NaN` |
| `JsParseInt.ParseIntHexWithoutDigits` | front-end/src/containers/NewBill.js:88-95 | a `0x`/`0X` prefix followed by no hex digit gives `NaN` |
| `JsParseInt.LeadingZerosExample` | front-end/src/containers/NewBill.js:88-90 | `"007"` is read as 7 |
| `JsParseInt.PlusSignExample` | front-end/src/containers/NewBill.js:88-90 | `" +5 %"` is read as 5 |
| `JsParseInt.DecimalPointExample` | front-end/src/containers/NewBill.js:88-90 | `"12.5"` is read as 12 |
| `JsParseInt.CurrencyPrefixExample` | front-end/src/containers/NewBill.js:88-90 | `"€12"` is `NaN` |
| `JsParseInt.SpaceAfterSignExample` | front-end/src/containers/NewBill.js:88-90 | `"- 5"` is `NaN` |
| `JsParseInt.BadHexDigitExample` | front-end/src/containers/NewBill.js:88-90 | `"0xg"` is `NaN` |
| `JsParseInt.HexExample` | front-end/src/containers/NewBill.js:88-90 | `"0x1A"` is read as 26 |
| `JsParseInt.HexPrefixAloneExample` | front-end/src/containers/NewBill.js:88-90 | `"0x"` alone is `NaN` |
| `NewBillContainer.FileNameOf` | front-end/src/containers/NewBill.js:35-36 | the extracted file name has no `\`, is a suffix of the input value, and starts the value or follows a `\` |
| `NewBillContainer.IsFileExtensionAllowed` | front-end/src/containers/NewBill.js:68-72 | the lower-cased text after the last `.` (the whole name when there is none) is `jpg`, `jpeg` or `png`; characterised by `IsFileExtensionAllowedIff` |
| `NewBillContainer.HasExtensionIsAllowed` | front-end/src/containers/NewBill.js:68-72 | a name ending, ignoring case, in an allowed extension after a `.` (or equal to one) passes the check |
| `NewBillContainer.IsFileExtensionAllowedIff` | front-end/src/containers/NewBill.js:68-72 | the check holds if and only if the name ends, ignoring case, in `jpg`, `jpeg` or `png` that starts the name or follows a `.` |
| `NewBillContainer.CheckWithExtension` | front-end/src/containers/NewBill.js:68-72 | once the text after the last `.` is known, the check is the membership of its lower-cased form |
| `NewBillContainer.AcceptedExamples` | front-end/src/containers/NewBill.js:68-72 | `a.b.PNG`, `image.png` and the bare name `png` are accepted |
| `NewBillContainer.RejectsOtherExtension` | front-end/src/__tests__/NewBill.js:46-75 | `test.pdf` is rejected |
| `NewBillContainer.RejectsEmptyExtension` | front-end/src/containers/NewBill.js:68-72 | `a.`, whose extension is empty, is rejected |
| `NewBillContainer.RejectsBareName` | front-end/src/containers/NewBill.js:68-72 | the empty name and the bare name `a` are rejected |
| `NewBillContainer.PctOrDefault` | front-end/src/containers/NewBill.js:93-95 | `pct` is never 0: it is the parsed number when that is defined and non-zero, and 20 when it is `NaN` or 0 |
| `NewBillContainer.PctKeepsNumber` | front-end/src/containers/NewBill.js:93-95 | a number typed in the percentage field is kept as `pct`, except 0, which becomes 20 |
| `NewBillContainer.NoDigitsAmountIsNaN` | front-end/src/containers/NewBill.js:88-95 | without digits, `amount` stays `NaN` while `pct` falls back to 20 |
| `NewBillContainer.BuildBill` | front-end/src/containers/NewBill.js:84-101 | the bill has status `pending`, the staged `fileUrl` and `fileName`, the parsed amount, the defaulted percentage and the form's other fields unchanged |
| `NewBillContainer.NewBill.constructor` | front-end/src/containers/NewBill.js:20-22 | a new controller has nothing staged, has called nothing and has navigated nowhere |
| `NewBillContainer.NewBill.HandleChangeFile` | front-end/src/containers/NewBill.js:29-58 | the name is the last `\` segment of the input value; the input is cleared exactly when the extension is not allowed; with a store exactly one `create` is issued whatever the check said; the staged fields do not change |
| `NewBillContainer.NewBill.OnUploadSettled` | front-end/src/containers/NewBill.js:59-65 | a successful upload stages its key, its URL and the captured name; a failed one changes no staged field |
| `NewBillContainer.NewBill.UpdateBill` | front-end/src/containers/NewBill.js:112-116 | with a store exactly one `update` of the bill selected by the staged id (possibly `null`); without one, no call |
| `NewBillContainer.NewBill.OnUpdateSettled` | front-end/src/containers/NewBill.js:117-120 | a successful update navigates to the Bills page once more; a failed one does not navigate |
| `NewBillContainer.NewBill.HandleSubmit` | front-end/src/containers/NewBill.js:75-108 | the bill sent is the pending bill built from the form and the staged attachment; the staged fields are unchanged; exactly one navigation to the Bills page is appended, plus the `update` when there is a store |
| `NewBillContainer.DisallowedFileScenario` | front-end/src/containers/NewBill.js:38-65 | selecting `test.pdf` clears the input, yet a successful upload stages `test.pdf` and the submitted bill carries it |
| `NewBillContainer.FailedUploadScenario` | front-end/src/containers/NewBill.js:59-65 | after a failed upload nothing is staged, so the submitted bill has no attachment and the update no selector |
| `NewBillContainer.SubmitWithoutStoreScenario` | front-end/src/__tests__/NewBill.js:79-104 | submitting without a store makes no store call and navigates to the Bills page once |
| `NewBillContainer.SubmitWithStoreScenario` | front-end/src/containers/NewBill.js:104-119 | submitting with a store and nothing staged makes one update with no selector, and navigates twice when the update succeeds |

## Left out

- DOM glue: `querySelector`, `addEventListener`, `e.preventDefault`, the `alert` shown for a
  disallowed extension, `console.log`/`console.error`. The input value and the form fields
  are plain parameters; only the clearing of the input is modelled.
- The file blob and the `FormData` that carries it: a `create` call records the owner's
  e-mail only.
- `localStorage.getItem("user")` and `JSON.parse`: the e-mail is a parameter; a missing user
  is not handled by the source either.
- `JSON.stringify` of the bill: an `update` call carries the bill value itself.
- `Logout`, routing and `ROUTES_PATH` are not part of this model; the Bills page is the
  symbolic route `BillsPage`.
- Promise scheduling: each continuation is a separate method call made by the caller, once
  per issued request; nothing forces it to happen.
- A store response whose `key` or `fileUrl` is missing (`undefined`): both are strings here.
- Without a store, `handleChangeFile` throws a `TypeError` at `this.store.bills()` after the
  extension check; the model stops there (`uploaded` is false) and does not model the
  exception itself.
- JsParseInt.ParseInt: integers are unbounded, while `parseInt` returns a double. Digit runs
  beyond 2^53 lose precision in JavaScript and not here. Runs whose value exceeds the largest
  double (about 1.8e308) give `Infinity` in JavaScript, which is truthy and so survives as
  `pct`; the model keeps the exact integer instead. `-0` is 0.
- JsStrings.ToLowerAscii: lowers ASCII letters only, while `toLowerCase` also lowers
  non-ASCII letters. No non-ASCII character lowers to a letter of `jpg`, `jpeg` or `png`, so
  the extension check is not affected.
- The bills-list container and the date and status formatters are used only by the tests;
  their source is not part of this model.
