# Employee directory — a Dafny model of its form and record list

This project models the logic of a single-page employee directory: the
employee form (its field validator, the draft and error map it keeps, how each
input edits the draft, the result of asking for the device's location) and the
directory that owns the list of employee records (create, update, delete, the
record being edited, and the storage slot that mirrors the list).

Modules:

- `Wrappers` and `Types` (types.dfy): `Option`, the record types `Employee`,
  `EmployeeFormData`, `LocationData`, the three-valued `Gender`. An `Employee` is
  its `id` beside an `EmployeeFormData`, because the form data is defined as the
  record without its id; `{...emp, ...formData}` is then `emp.(data := formData)`.
  The draft's `age` is an `Option<int>`: `None` is the empty string the age input's
  coercion stores. Coordinates are opaque values that are only copied and compared.
- `Strings` (strings.dfy): the JavaScript string built-ins the form relies on:
  the `\s` class (ECMAScript's WhiteSpace and LineTerminator characters), `trim`,
  `\d`, `length` counted in UTF-16 code units, and `parseInt` with no radix
  (leading whitespace, one sign, a `0x` prefix, the longest run of digits).
- `EmployeeForm` (employee_form.dfy): the field rules as predicates, the error map
  `ErrorsOf` as a specification function, the email pattern with its plain-words
  reading, the input-event rule `ApplyChange`, the location error messages, and a
  class `Form` whose fields are the draft, the error map and the edit target, with
  one method per handler or effect.
- `App` (app.dfy): the list transforms `UpdateById` and `RemoveById`, the storage
  slot (`Blob`, `Serialize`, `Parse`, `Load`), a class `AppState` holding the
  list, the edit target and the slot, with one method per handler, and
  `SubmitForm`, `DeleteFromTable`, `EditFromTable` and `CancelFromForm`, which
  follow one user action through the directory and the form, the form's
  population effect included.

The methods are proved against the specification functions: their `ensures`
give every field they may change in terms of the old state (the storage slot
through `Persisted`, which ties it to the list), and the properties the
application promises are lemmas about those functions: each field gets an error
exactly when its rule fails, the validator's verdict is the conjunction of the
rules, an update keeps ids and positions, a delete keeps the order of what is
left, and ids stay unique and every record stays valid through create, update
and delete.

## Model

| member | source | states |
|---|---|---|
| `Strings.IsSpace` | components/EmployeeForm.tsx:55 | definition: the characters the `\s` class matches (ECMAScript WhiteSpace and LineTerminator) |
| `Strings.Utf16Length` | components/EmployeeForm.tsx:51 | the UTF-16 length is at least the number of characters and at most twice it |
| `Strings.SpaceRunEnd` | components/EmployeeForm.tsx:124 | the leading whitespace `trim` skips: every character from the start index up to the result is whitespace, and the character at the result, if any, is not |
| `Strings.SpaceRunStart` | components/EmployeeForm.tsx:124 | the trailing whitespace `trim` skips: every character from the result up to the end index is whitespace, and the character just before the result, if still in range, is not |
| `Strings.Trim` | components/EmployeeForm.tsx:124 | the trimmed text is a piece of the input with blank text before and after it, and it neither starts nor ends with whitespace: exactly the leading and trailing whitespace is removed |
| `Strings.TrimEmptyIffBlank` | components/EmployeeForm.tsx:124 | `trim()` yields the empty string exactly when every character is whitespace |
| `Strings.ParseInt` | components/EmployeeForm.tsx:138 | definition: `parseInt` with no radix; skip whitespace, read one sign, `0x` selects base 16, read the longest digit run, no digit gives `NaN` |
| `Strings.ParseIntOfDigitsThen` | components/EmployeeForm.tsx:138 | decimal digits followed by text that does not start with a digit read as the digits' value (unless a lone "0" is followed by "x" or "X") |
| `Strings.ParseIntSkipsBlank` | components/EmployeeForm.tsx:138 | leading whitespace does not change what `parseInt` reads |
| `Strings.ParseIntSign` | components/EmployeeForm.tsx:138 | when the text after the sign starts with neither whitespace nor another sign, a leading `-` negates what `parseInt` reads of that text and a leading `+` changes nothing |
| `Strings.ParseIntOfDecimalString` | components/EmployeeForm.tsx:138 | reading the decimal digits of n gives n |
| `EmployeeForm.FullNameOk` | components/EmployeeForm.tsx:51-53 | definition: fullName is non-empty and its UTF-16 length is at least 3 |
| `EmployeeForm.MatchesEmailPattern` | components/EmployeeForm.tsx:55-56 | definition: the text splits as name, '@', host, '.', suffix, each non-empty and free of whitespace and '@' |
| `EmployeeForm.EmailOk` | components/EmployeeForm.tsx:56-58 | definition: email is non-empty and matches the pattern |
| `EmployeeForm.PhoneOk` | components/EmployeeForm.tsx:60-63 | definition: phone is non-empty, exactly 10 characters, all ASCII digits |
| `EmployeeForm.AgeOk` | components/EmployeeForm.tsx:65-67 | definition: age is present, non-zero and within 18..60 |
| `EmployeeForm.DepartmentOk` | components/EmployeeForm.tsx:69-71 | definition: department is non-empty |
| `EmployeeForm.IsValid` | components/EmployeeForm.tsx:73-74 | definition: the validator returns true exactly when its error map is empty |
| `EmployeeForm.ErrorsOf` | components/EmployeeForm.tsx:49-72 | the error map holds only checked fields, each under its own message |
| `EmployeeForm.ValidationRules` | components/EmployeeForm.tsx:48-75 | fullName errs iff its UTF-16 length is below 3; email iff it lacks the plain-words email shape; phone iff it is not exactly 10 ASCII digits; age iff absent or outside 18..60; department iff empty; gender, address and location never err; each check is independent of the others |
| `EmployeeForm.EmailPatternIffShape` | components/EmployeeForm.tsx:55-58 | the pattern `^[^\s@]+@[^\s@]+\.[^\s@]+$` matches exactly when the text has no whitespace, exactly one '@' with text before it, and after it a '.' that is neither first nor last |
| `EmployeeForm.ValidIffAllRules` | components/EmployeeForm.tsx:73-74 | the draft is valid (empty error map) iff all five rules hold |
| `EmployeeForm.RuleReadsOnlyItsField` | components/EmployeeForm.tsx:51-71 | two drafts that agree on a field agree on whether that field has an error |
| `EmployeeForm.InitialStateErrors` | components/EmployeeForm.tsx:11-20 | the blank draft (`INITIAL_STATE`) fails on exactly fullName, email, phone and department; its age 18 passes |
| `EmployeeForm.SampleDraftIsValid` | components/EmployeeForm.tsx:48-75 | a complete draft ("Jane Doe", "jane@x.com", "1234567890", 30, "Sales") has no error |
| `EmployeeForm.ShortNameIsTheOnlyError` | components/EmployeeForm.tsx:51-53 | the same draft with the name "Jo" has exactly one error, the fullName message |
| `EmployeeForm.ApplyChange` | components/EmployeeForm.tsx:136-139 | an input event sets the named field to the (coerced) value and every other field keeps its value |
| `EmployeeForm.ChangeKeepsOtherVerdicts` | components/EmployeeForm.tsx:134-139 | editing one field cannot change whether any other field passes validation |
| `EmployeeForm.CoerceAge` | components/EmployeeForm.tsx:138 | the stored age is empty exactly when `parseInt` reads `NaN` or zero; otherwise it is the number `parseInt` reads |
| `EmployeeForm.AgeInputVerdict` | components/EmployeeForm.tsx:138 | age input that `parseInt` reads as `NaN` or zero becomes absent and is always reported; otherwise it passes iff the number `parseInt` reads lies in 18..60 |
| `EmployeeForm.AgeInputOfNumber` | components/EmployeeForm.tsx:138 | the decimal text of a positive number is stored as that number |
| `EmployeeForm.AgeInputIgnoresTail` | components/EmployeeForm.tsx:138 | "25.5" and "25abc" are stored as 25 |
| `EmployeeForm.AgeInputSkipsSpace` | components/EmployeeForm.tsx:138 | " 42" is stored as 42 |
| `EmployeeForm.AgeInputReadsSign` | components/EmployeeForm.tsx:138 | "-5" is stored as -5 |
| `EmployeeForm.AgeInputHex` | components/EmployeeForm.tsx:138 | "0x1E" is stored as 30 |
| `EmployeeForm.AgeInputEmptyValues` | components/EmployeeForm.tsx:138 | "abc", "" and "0" are stored as the empty value |
| `EmployeeForm.DraftFor` | components/EmployeeForm.tsx:31-44 | editing a record gives a draft whose eight fields equal the record's; no edit target gives the blank draft |
| `EmployeeForm.LocationErrorMessage` | components/EmployeeForm.tsx:114-126 | the alert is one of the four fixed messages, or the provider's own message for a code other than 1, 2 and 3 |
| `EmployeeForm.LocationErrorMessageCases` | components/EmployeeForm.tsx:114-126 | code 1 gives the permission-denied message, 2 the unavailable message, 3 the timeout message, whatever the error's message; other codes show the error's message when it is a non-blank string and the default message otherwise; the alert is never blank |
| `EmployeeForm.Form.constructor` | components/EmployeeForm.tsx:25-46 | the first render: errors empty, draft is the edit target's copy or the blank draft |
| `EmployeeForm.Form.Populate` | components/EmployeeForm.tsx:30-46 | a new edit target replaces the draft with its copy (or the blank draft) and clears every error |
| `EmployeeForm.Form.Validate` | components/EmployeeForm.tsx:48-75 | collecting the errors field by field stores exactly `ErrorsOf(draft)`, and the result is true iff that map is empty |
| `EmployeeForm.Form.Submit` | components/EmployeeForm.tsx:77-85 | errors become those of the draft; the draft is handed on only when valid; an invalid submit keeps the draft; a valid one resets it to the blank draft only when nothing is being edited |
| `EmployeeForm.Form.Change` | components/EmployeeForm.tsx:134-144 | the draft becomes `ApplyChange(old draft, f, value)`, only f's error is cleared, the edit target is untouched |
| `EmployeeForm.Form.RequestLocation` | components/EmployeeForm.tsx:87-91 | without geolocation the only effect is the unsupported alert; otherwise no alert, and nothing changes either way |
| `EmployeeForm.Form.OnLocationSuccess` | components/EmployeeForm.tsx:102-108 | only the draft's location changes, to the reported coordinates |
| `EmployeeForm.Form.OnLocationError` | components/EmployeeForm.tsx:110-128 | the draft is unchanged and the alert is the message for the error, never blank |
| `App.UpdateById` | App.tsx:34-36 | an update keeps the length of the list |
| `App.UpdateByIdAt` | App.tsx:34-36 | position by position, a record with the target id gets the form's fields and keeps its id; every other record is unchanged; the length is unchanged |
| `App.UpdateByIdKeepsIds` | App.tsx:34-36 | an update keeps every record's id at its position |
| `App.UpdateMissingIdIsIdentity` | App.tsx:34-36 | an update whose id matches no record leaves the list unchanged |
| `App.UpdateKeepsUnique` | App.tsx:35 | an update keeps ids pairwise distinct |
| `App.CreateKeepsUnique` | App.tsx:41-45 | prepending a record whose id no record carries keeps ids pairwise distinct |
| `App.RemoveById` | App.tsx:51 | a delete never lengthens the list |
| `App.RemoveByIdMembers` | App.tsx:51 | a record remains after a delete iff it was there and does not carry the deleted id |
| `App.RemoveByIdConcat` | App.tsx:51 | a delete distributes over concatenation, so it keeps the relative order of the rest |
| `App.RemoveMissingIdIsIdentity` | App.tsx:51 | deleting an absent id leaves the list unchanged |
| `App.RemovePresentIdLength` | App.tsx:51 | with unique ids, deleting a present id shortens the list by exactly one |
| `App.RemoveKeepsUnique` | App.tsx:51 | a delete keeps ids pairwise distinct |
| `App.CreateKeepsAllValid` | App.tsx:41-45 | prepending a record whose fields pass the validator keeps every record valid |
| `App.UpdateKeepsAllValid` | App.tsx:34-36 | updating with validated fields keeps every record valid |
| `App.RemoveKeepsAllValid` | App.tsx:51 | a delete keeps every record valid |
| `App.Load` | App.tsx:15-24 | a missing or empty slot, or one that does not parse, loads the empty list |
| `App.LoadAfterSave` | App.tsx:16-28 | the mount reads back the list the save effect wrote; with the abstract encoding this holds by construction |
| `App.AppState.constructor` | App.tsx:11-29 | at mount the list is what the slot loads, nothing is being edited, and the slot then holds the serialisation of that list |
| `App.AppState.Save` | App.tsx:27-29 | the slot holds the serialisation of the whole current list |
| `App.AppState.AddOrUpdateEmployee` | App.tsx:31-47 | with an edit target the list becomes `UpdateById` for its id; without one the new record with the fresh id is prepended; the edit ends; the slot is rewritten; unique ids and all-valid records are kept |
| `App.AppState.DeleteEmployee` | App.tsx:49-57 | unconfirmed: nothing changes; confirmed: the list becomes `RemoveById`, and the edit target is cleared exactly when it carries that id; the slot matches the list; unique ids and validity are kept |
| `App.AppState.EditClick` | App.tsx:59-63 | the record becomes the edit target; the list and slot are untouched |
| `App.AppState.CancelEdit` | App.tsx:65-67 | the edit target is cleared; the list and slot are untouched |
| `App.SubmitForm` | App.tsx:92-96 | the form's errors become those of the submitted draft; an invalid submit changes neither the list nor the edit target nor the draft; a valid one creates or updates as above, ends the edit and leaves the blank draft in the form; the slot matches the list; unique ids and validity are kept |
| `App.DeleteFromTable` | App.tsx:49-57 | the delete as above; when it clears the edit target the form shows the blank draft with no errors, otherwise the form is unchanged; the form's edit target stays the directory's |
| `App.EditFromTable` | App.tsx:59-63 | the record becomes the edit target of both; a new target puts its copy in the form with no errors, the same target leaves the form as it was; the list and slot are untouched |
| `App.CancelFromForm` | App.tsx:65-67 | the edit ends for both; if an edit was under way the form shows the blank draft with no errors, otherwise it is unchanged; the list and slot are untouched |

## Left out

- Rendering, styling, the `maxLength`/`min`/`max` hints and the `DEPARTMENTS` list
  that only fills the select: presentation, not checks.
- The `loadingLocation` flag, `alert`, `console.error` and `window.scrollTo`:
  user-interface side effects. Alerts are modelled as returned messages.
- `navigator.geolocation`: the request is a boolean (whether the capability
  exists) plus two callbacks that can be run at any later point. The options
  (high accuracy, 10-second timeout, no cached fix) and the provider's timing are
  not modelled.
- `window.confirm` is a boolean parameter and `crypto.randomUUID` a fresh-id
  parameter. The model assumes the id is fresh and does not model collisions.
- `localStorage`, `JSON.stringify` and `JSON.parse` are replaced by an abstract
  `Blob`: either the encoding of a list or other text, which does not parse. Text
  that parses as JSON but is not a list of records is not modelled. The storage
  key is a constant.
- components/EmployeeTable.tsx and components/MapModal.tsx: rendering, the
  single-slot location inspection, and formatting coordinates into URLs (floating
  point).
- `ParseInt`: reads the digits as an exact integer. JavaScript reads them into a
  double, so a value above 2^53 may be rounded, and one of more than about 308
  digits becomes `Infinity`. Any such value is far outside 18..60, so the age verdict
  is the same.
- `FullNameOk`: `length` is counted in UTF-16 code units. Dafny characters are
  Unicode scalar values, so the model adds 1 per character, or 2 above U+FFFF.
- `EmployeeForm.Form.Change`: JavaScript keeps a cleared error key with the value
  `undefined`. The model deletes the key. Only truthiness is ever read, so the two
  behave the same.
- The draft's age can only be an integer or absent. `NaN` never reaches it,
  because `|| ''` replaces it.
- React's scheduling of state updates and effects is not modelled. Each handler
  and each effect is one atomic step, and the wired methods in `App` run them in
  React's order. The population effect's dependency is compared by value here.
  React compares it by reference, which differs only for two distinct objects
  holding the same record.
