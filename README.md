# Proctoring analysis form: a Dafny model

This project models the two pages of a small web client for proctoring analysis.

The form page collects three things:

- a candidate's name and email;
- a source image URL;
- an editable list of detection rows, each with an identifier, a capture time and an image URL.

On submit, the form runs three checks in order and stops at the first that fails. It then builds the request payload and posts it to a webhook. On success it hands the response to the results page.

The results page does the following:

- redirects back to the form when no result state was carried over;
- otherwise shows the total, violation and clean counts;
- shows one card per result, with a VIOLATION/CLEAN badge and Yes/No text.

The model is split into these modules:

- `JsString`: the JavaScript string behaviour the pages rely on. This is `trim`, with ECMAScript's WhiteSpace and LineTerminator code points, and the decimal text a template literal gives an integer.
- `JsArray`: `Array.prototype.filter` with an index-free callback. Its lemmas are proved once for any callback: order-preserving subsequence, empty iff nothing is accepted, everything kept iff everything is accepted, partition by a callback and its negation, and counting by accepted positions.
- `ResultsPage`: the redirect guard, the three counts, the labels, and the view as a value (`View`).
- `FormPage`: the rows and their pure operations, validation, the payload, `Submission` (the specification of one submit attempt), and the class `ComposeView`. That class holds the component's state: name, email, source image, `detectionImages`, `isSubmitting` and `error`. Its methods update the state step by step, as the page's setters do, and are proved against the pure functions.
- `Wrappers`: `Option`, for nullable state.

On these edge cases the model follows the code exactly:

- The validation rules treat a whitespace-only name, email or URL as missing, because they test `trim()`. They do not test only for emptiness.
- The default replaces only an identifier that is exactly empty, because it uses `||` on the raw string. A whitespace-only identifier is sent as it is.
- The results view redirects only when the state is absent or its `results` is falsy. An empty array renders, with all counts at 0.
- The HTTP failure message is the text `HTTP error! status: ` followed by the code's digits.

Inputs from outside become parameters:

- The default capture time (`new Date().toISOString().slice(0, 16)`) is a string parameter of the constructor and of `AddDetectionImage`.
- `Date.now()` is a function `clock: nat -> nat`. `clock(k)` is the reading taken when the k-th retained row is mapped. The page reads the clock only for rows with an empty identifier.
- The fetch result is a `FetchOutcome`. `Delivered(data)` is an ok response with a parsed body, `HttpError(status)` is a response whose `ok` is false, and `TransportError(thrown)` is anything thrown while fetching or parsing.

## Model

| member | source | states |
|---|---|---|
| `JsString.TrimStart` | src/pages/FormPage.tsx:48 | the result is the suffix of the input that starts at its first non-whitespace character; everything dropped is whitespace |
| `JsString.TrimEnd` | src/pages/FormPage.tsx:48 | the result is the prefix of the input that ends at its last non-whitespace character; everything dropped is whitespace |
| `JsString.Trim` | src/pages/FormPage.tsx:48 | `trim()` gives the contiguous piece of the input that follows the leading whitespace TrimStart drops and precedes a whitespace-only tail; it neither starts nor ends with whitespace |
| `JsString.TrimDropsOnlyWhitespace` | src/pages/FormPage.tsx:48 | everything before and everything after the trimmed piece of `s` is whitespace |
| `JsString.IsBlank` | src/pages/FormPage.tsx:48-53 | `!x.trim()` as a predicate; `BlankIffAllWhitespace` states that it holds exactly for whitespace-only strings |
| `JsString.BlankIffAllWhitespace` | src/pages/FormPage.tsx:48 | `!s.trim()` holds exactly when every character of `s` is JavaScript whitespace |
| `JsString.Decimal` | src/pages/FormPage.tsx:71 | a number's text is non-empty, all decimal digits, with no leading zero |
| `JsString.DecimalRoundTrip` | src/pages/FormPage.tsx:71 | reading the digits back gives the number |
| `JsString.DecimalInjective` | src/pages/FormPage.tsx:84 | different numbers (clock readings, status codes) give different text |
| `JsArray.Filter` | src/pages/FormPage.tsx:58 | the result is never longer than the input, and the callback accepts every element of it |
| `JsArray.FilterIsOrderedSubsequence` | src/pages/FormPage.tsx:58 | the result's k-th element is the input element at the k-th kept position; the positions increase; a position is kept exactly when the callback accepts its element |
| `JsArray.FilterEmptyIff` | src/pages/FormPage.tsx:59 | the result is empty exactly when the callback accepts no element |
| `JsArray.FilterAllIff` | src/pages/FormPage.tsx:58 | the result is the whole input exactly when the callback accepts every element |
| `JsArray.FilterPartition` | src/pages/ResultsPage.tsx:84 | a callback and its negation together keep every element exactly once |
| `JsArray.FilterCountsPositions` | src/pages/ResultsPage.tsx:29 | the filtered length is the number of positions the callback accepts |
| `ResultsPage.ViolationCount` | src/pages/ResultsPage.tsx:29 | `violationCount` is at most the number of results; `ViolationCountCountsFlags` states that it counts the true flags |
| `ResultsPage.TotalCount` | src/pages/ResultsPage.tsx:30 | `totalCount` is the violation count plus the number of clean results |
| `ResultsPage.CleanCount` | src/pages/ResultsPage.tsx:84 | the clean figure lies between 0 and the total; `CleanCountIsCleanResults` states that it counts the false flags |
| `ResultsPage.ViolationCountCountsFlags` | src/pages/ResultsPage.tsx:29-30 | `violationCount` is the number of results whose flag is true, and at most `totalCount` |
| `ResultsPage.CleanCountIsCleanResults` | src/pages/ResultsPage.tsx:84 | `totalCount - violationCount` is never negative, equals the number of results whose flag is false, and adds to the violations to give the total |
| `ResultsPage.Badge` | src/pages/ResultsPage.tsx:129 | the badge is VIOLATION exactly when the flag is true and CLEAN exactly when it is false |
| `ResultsPage.FlagText` | src/pages/ResultsPage.tsx:148 | the text is Yes or No, and it is Yes exactly when the same card's badge is VIOLATION |
| `ResultsPage.CardOf` | src/pages/ResultsPage.tsx:95-157 | card `index` is numbered `index + 1`, shows the result's identifier and status, and has the VIOLATION badge and the Yes text exactly when the result's flag is true; its badge and flag text are `Badge` and `FlagText` of the result, so a clean result shows CLEAN and No |
| `ResultsPage.View` | src/pages/ResultsPage.tsx:23-30 | redirect exactly when the state is absent or has no results; otherwise the total is the result count, the violations are the true flags and at most the total, the clean figure is the false flags and non-negative, violations plus clean is the total, and there is one card per result |
| `ResultsPage.CardsMatchResults` | src/pages/ResultsPage.tsx:95-157 | card i is numbered i + 1, shows result i's identifier and status, and its badge and Yes/No follow result i's flag and are `Badge` and `FlagText` of result i (CLEAN and No for a clean result); the VIOLATION badges number exactly the violation count |
| `ResultsPage.TwoResultsExample` | src/pages/ResultsPage.tsx:29-30 | one violating and one clean result give total 2, violations 1, clean 1 |
| `FormPage.EmptyRow` | src/pages/FormPage.tsx:28 | a new row has an empty identifier, an empty URL and the given time |
| `FormPage.EmptyRowIsNotSubmitted` | src/pages/FormPage.tsx:28 | appending a new row leaves `validDetections` as it was, since its URL is blank |
| `FormPage.WithField` | src/pages/FormPage.tsx:40 | assigning one field of a row sets it and keeps the other two |
| `FormPage.WithoutIndex` | src/pages/FormPage.tsx:34 | the position filter never lengthens the list; `WithoutIndexInRange` and `WithoutIndexOutOfRange` state exactly what it keeps |
| `FormPage.WithoutIndexInRange` | src/pages/FormPage.tsx:34 | with the index in range, the filter on position drops exactly that row: one row fewer, the others in their relative order |
| `FormPage.WithoutIndexOutOfRange` | src/pages/FormPage.tsx:34 | with the index out of range, the filter on position keeps every row |
| `FormPage.UpdateAt` | src/pages/FormPage.tsx:38-42 | the updated list has the same length and every other row unchanged; the chosen field of the chosen row takes the value and its other fields are kept |
| `FormPage.ValidDetections` | src/pages/FormPage.tsx:58 | `validDetections` is never longer than the rows; `ValidDetectionsIsOrderedSubsequence` states which rows it keeps and in what order |
| `FormPage.ValidDetectionsIsOrderedSubsequence` | src/pages/FormPage.tsx:58 | `validDetections` is the order-preserving subsequence of rows whose trimmed image URL is non-empty, and is never longer than the rows |
| `FormPage.ValidDetectionsEmptyIff` | src/pages/FormPage.tsx:58-59 | `validDetections` is empty exactly when every row's image URL is blank |
| `FormPage.ValidationError.Message` | src/pages/FormPage.tsx:49-60 | each rule's `setError` text, each one asking for the missing input; `Submission` shows the failing rule's own text |
| `FormPage.MessagesIdentifyTheRule` | src/pages/FormPage.tsx:49-60 | the three messages differ, so the text shown identifies the rule that failed |
| `FormPage.Validate` | src/pages/FormPage.tsx:48-62 | the name/email rule fails iff either is blank; otherwise the source rule fails iff the source URL is blank; otherwise the detection rule fails iff every image URL is blank; acceptance carries `validDetections`, which is then non-empty |
| `FormPage.SyntheticId` | src/pages/FormPage.tsx:71 | the default identifier is `image-` followed by the digits of the clock reading, with no leading zero, and those digits read back as the reading, so the text is fixed |
| `FormPage.WireId` | src/pages/FormPage.tsx:71 | the identifier sent is never empty; it is the row's own when that is non-empty, and the default otherwise |
| `FormPage.ToWire` | src/pages/FormPage.tsx:70-74 | a retained row is sent with its time and URL unchanged and a non-empty identifier: its own when it has one, and otherwise `SyntheticId` of the clock reading |
| `FormPage.BuildPayload` | src/pages/FormPage.tsx:66-75 | the payload carries the name, email and source URL unchanged and one wire entry per retained row, position by position |
| `FormPage.PayloadFollowsRows` | src/pages/FormPage.tsx:58-75 | payload entry k comes from the k-th row that has an image: same capture time and URL, a non-blank URL, and a non-empty identifier that is the row's own whenever it has one and otherwise `SyntheticId(clock(k))` |
| `FormPage.SameReadingSameId` | src/pages/FormPage.tsx:71 | two rows without an identifier, mapped at the same clock reading, get the same identifier |
| `FormPage.FailureMessage` | src/pages/FormPage.tsx:97-98 | an HTTP failure's message is `HTTP error! status: ` followed by digits, with no leading zero, that read back as the status; a thrown Error shows its own message; anything else shows the fallback text |
| `FormPage.Submission` | src/pages/FormPage.tsx:44-100 | a rejected form shows its first failing rule, sends nothing and leaves the flag alone; an accepted form sends its payload; delivery navigates with the results and the submitted values and leaves no error; a failure shows its message, stays on the form and clears the flag; navigation happens exactly when no error is left |
| `FormPage.BlankIdentitySendsNothing` | src/pages/FormPage.tsx:48-51 | a whitespace-only name means no request is made and the name/email message is shown |
| `FormPage.BlankImagesSendNothing` | src/pages/FormPage.tsx:58-62 | when every image URL is blank, no request is made, no navigation happens and an error is shown |
| `FormPage.HttpFailureReportsStatus` | src/pages/FormPage.tsx:84 | for an accepted form, an HTTP failure stays on the form, clears the flag and shows a message that ends with the status code |
| `FormPage.DeliveredResultsReachTheView` | src/pages/FormPage.tsx:88-96 | after delivery, the results view renders exactly when the body was an array, and then counts that array and shows the submitted name and email; `Carried` is the part of the handed-over state (src/pages/ResultsPage.tsx:27) that the view reads |
| `FormPage.ComposeView.constructor` | src/pages/FormPage.tsx:16-23 | the form starts with empty inputs, one empty row stamped with the given time, no error, and nothing in flight |
| `FormPage.ComposeView.SetCandidateName` | src/pages/FormPage.tsx:128 | only the name changes |
| `FormPage.ComposeView.SetEmail` | src/pages/FormPage.tsx:143 | only the email changes |
| `FormPage.ComposeView.SetSourceImage` | src/pages/FormPage.tsx:158 | only the source URL changes |
| `FormPage.ComposeView.AddDetectionImage` | src/pages/FormPage.tsx:25-30 | the rows become the old rows followed by one row with an empty identifier, an empty URL and the given time; nothing else changes |
| `FormPage.ComposeView.RemoveDetectionImage` | src/pages/FormPage.tsx:32-36 | with one row left, nothing changes; with more, an index in range gives the old rows without that one, and an index out of range changes nothing; at least one row always remains |
| `FormPage.ComposeView.UpdateDetectionImage` | src/pages/FormPage.tsx:38-42 | an index in range replaces one field of one row, as `UpdateAt` states; an index out of range throws and changes nothing |
| `FormPage.ComposeView.HandleSubmit` | src/pages/FormPage.tsx:44-101 | the error, the in-flight flag, the request sent and the navigation made are as `Submission` states for the form's old values; the inputs and rows are unchanged |

## Left out

- The POST itself is not modelled: the headers, `JSON.stringify`, `res.ok` and `res.json()` (src/pages/FormPage.tsx:77-86). They are network I/O and JSON encoding, so the model takes their outcome as a `FetchOutcome` input.
- A parsed body that is truthy but not an array is not modelled. On such a body the results page's `results.filter` throws. The model's `data` is either an array of results or `None` for a falsy body. Every element is taken to be a well-typed record whose flag is a `bool`. The page counts and labels by truthiness (src/pages/ResultsPage.tsx:29, 129, 148), so a string flag such as `"false"` would count as a violation and show VIOLATION, and a `null` element would make `r.Face_detection_violation` throw. Neither case is modelled.
- Router plumbing is not modelled: `navigate`, `<Navigate>`, `BrowserRouter` and `Routes` (src/App.tsx). The handoff is the `Navigation` value, and the redirect is `RedirectToForm`.
- The "New Analysis" and "Run Another Analysis" buttons only navigate to the form. A fresh form is the `ComposeView` constructor.
- All JSX rendering is UI and is not modelled: CSS classes, colours, icons and the image preview's `onError` fallback.
- The clock and ISO date formatting are not modelled. Both become parameters.
- `e.preventDefault()` is not modelled; it is browser behaviour.
- React's batching of state setters is not modelled. Setters are plain sequential field updates. For example, `setError(null)` followed by `setError(message)` ends with the message, in the model and in React.
- `disabled={isSubmitting}` on the inputs and buttons is not modelled, nor is the browser's constraint validation of `type="email"` and `type="url"` inputs. These gate which events reach the handlers, so the model's methods may be called in any state.
- FormPage.ComposeView.UpdateDetectionImage: the model works on row values, so it does not capture that the spread copies only the array. The edited row object is shared with the previous array and mutated in place. Nothing observable depends on this, because the previous array is discarded.
- `WEBHOOK_URL` is not modelled; it is deployment configuration.
- The `detectionImages: string[]` member of the results page's `LocationState` is not part of `ResultsPage.LocationState`. It is never read, and its type does not match what the form sends. The form's `Navigation` does carry the retained rows.
- JavaScript numbers are not modelled as floating point. Row indices are `int`, and clock readings and status codes are `nat`. `Decimal` matches JavaScript's integer text only below 10^21, which covers millisecond clock readings and HTTP status codes.
- src/App copy 2.tsx and src/pages/FormPage copy.tsx are older variants of the workflow and are not part of this model.
