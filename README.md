# Fuel-entry form: a verified model

The fuel-entries application is a single-page React app in which field staff
record a fuel purchase: the bill date, the receipt number, the driver, the
vehicle registration number and type, the fuel type, the quantity and rate
(from which a total is derived), and the supervisor with a mobile number.
The `FuelEntryForm` component holds that record as text. On every keystroke it
updates the record. On submit it validates the record field by field and, if
the record is valid, sends it to a spreadsheet web app. It then shows a success
or an error banner.

This project models that component in Dafny:

- `js_regex.dfy` (module `JsRegex`) gives the fragment of JavaScript regular
  expressions that the form uses. These are anchored patterns whose pieces
  are character classes of ranges repeated `{min,max}` times, with an
  optional `i` flag. The fragment has two readings:
  - `MatchesFrom`/`TryCount`, the engine's greedy backtracking search;
  - `DenotesFrom`, the declarative meaning: the input splits into one block
    per piece.

  The module proves that the two readings agree. It also proves that a match
  is exactly a list of block ends (`IsSplit`).
- `form_rules.dfy` (modules `Wrappers` and `FormRules`) gives the rest of the
  pure part:
  - the record `Fields<T>`, which serves as both `FormData` and the error
    object `Partial<FormData>`;
  - `INITIAL_DATA`;
  - the two patterns and what they accept;
  - the per-field rules and error messages of `validate`, and the error
    object it builds.
- `fuel_entry_form.dfy` (module `FuelEntry`) gives the component's state as a
  class. The fields are `formData`, `errors`, `isSubmitting` and
  `submitStatus`, plus the count of reset timers still pending. Its methods are
  `validate`, `handleChange` and `handleSubmit`. `handleSubmit` is split at
  its `await`:
  - `BeginSubmit` runs before the network call;
  - `CompleteSubmit(threw)` runs after the call settles, so other events can
    be placed in between;
  - `HandleSubmit` is the two with nothing in between.

  The class invariant `Valid` says three things:
  - every message on display is the current verdict of its field's rule;
  - no message is shown while a request is in flight;
  - a success banner always has a reset timer pending.

## Model

| member | source | states |
|---|---|---|
| JsRegex.MatchesFromIff | src/components/Form/FuelEntryForm.tsx:63 | The backtracking search of an anchored pattern succeeds exactly when the input splits into blocks, one per piece, each of an allowed length and made of characters of the piece's class. |
| JsRegex.TryCountIff | src/components/Form/FuelEntryForm.tsx:63 | Trying a piece with `k`, then `k - 1`, … characters succeeds exactly when some allowed count up to `k` leads to a match of the rest. |
| JsRegex.TestIff | src/components/Form/FuelEntryForm.tsx:67 | `test` on an anchored pattern succeeds exactly when the whole input has the pattern's meaning. |
| JsRegex.SplitOf | src/components/Form/FuelEntryForm.tsx:63 | Every match comes with block ends: each block has an allowed length and characters of its class, and the last block ends the input. |
| JsRegex.SplitDenotes | src/components/Form/FuelEntryForm.tsx:63 | Conversely, any such split of the input is a match. |
| JsRegex.DenotesHead | src/components/Form/FuelEntryForm.tsx:63 | A match's first block has a length the first piece allows, matches its class, and the rest of the input matches the remaining pieces. |
| JsRegex.Upper | src/components/Form/FuelEntryForm.tsx:63 | Case folding under the `i` flag: the result is an upper-case ASCII letter exactly when the input is an ASCII letter of either case. |
| JsRegex.Lower | src/components/Form/FuelEntryForm.tsx:63 | The lower-case counterpart: the result is a lower-case ASCII letter exactly when the input is an ASCII letter. |
| FormRules.SetField | src/components/Form/FuelEntryForm.tsx:90 | `{ ...prev, [name]: value }`: the named field reads back the new value and every other field keeps its old one. |
| FormRules.SetFieldOwnValue | src/components/Form/FuelEntryForm.tsx:90 | Writing a field's own value back leaves the record unchanged. |
| FormRules.SetFieldTwice | src/components/Form/FuelEntryForm.tsx:90 | Two writes to the same field are one write of the second value. |
| FormRules.VehicleDenotesShape | src/components/Form/FuelEntryForm.tsx:63 | Whatever the vehicle pattern matches is 2 letters, 1–2 digits, 1–2 letters and 4 digits, letters of either case. |
| FormRules.VehicleShapeDenotes | src/components/Form/FuelEntryForm.tsx:63 | Every string of that shape is matched by the vehicle pattern. |
| FormRules.VehicleNumberIff | src/components/Form/FuelEntryForm.tsx:63-67 | `vehicleRegex.test(v)` holds exactly when `v` has the registration shape, case-insensitively. |
| FormRules.VehicleNumberLength | src/components/Form/FuelEntryForm.tsx:63-67 | Every vehicle number the pattern accepts is 8 to 10 characters long. |
| FormRules.MobileIff | src/components/Form/FuelEntryForm.tsx:80-82 | `phoneRegex.test(v)` holds exactly when `v` is ten ASCII digits and the first is 6, 7, 8 or 9. |
| FormRules.SampleVehicleAccepted | src/components/Form/FuelEntryForm.tsx:63 | The lower-case `mp04ab1234` is accepted, since the pattern carries the `i` flag. |
| FormRules.SampleVehicleRejected | src/components/Form/FuelEntryForm.tsx:63 | `MP4AB123`, with a three-digit serial, is rejected. |
| FormRules.SampleMobiles | src/components/Form/FuelEntryForm.tsx:80 | `9876543210` is accepted. `1234567890` (wrong first digit) and `987654321` (nine digits) are rejected. |
| FormRules.RuleFor | src/components/Form/FuelEntryForm.tsx:58-82 | Every message a rule produces is non-empty, so it is truthy when `handleChange` tests it. |
| FormRules.ErrorsFor | src/components/Form/FuelEntryForm.tsx:55-84 | The error object `validate` builds holds, for each field, exactly that field's rule applied to that field's value. |
| FormRules.NoErrorsIff | src/components/Form/FuelEntryForm.tsx:85 | The error object equals `{}` exactly when no field carries a message. |
| FormRules.RequiredFieldRule | src/components/Form/FuelEntryForm.tsx:58-60 | Date, receipt number, driver name, vehicle type, fuel type and supervisor name are flagged exactly when empty, with their own "required" message (the last three also at :71-72 and :77). |
| FormRules.VehicleNumberRule | src/components/Form/FuelEntryForm.tsx:65-69 | The vehicle number is flagged exactly when it lacks the registration shape. An empty one gets only "Vehicle number is required"; a non-empty bad one gets only the format message. |
| FormRules.ContactRule | src/components/Form/FuelEntryForm.tsx:81-82 | The contact is flagged exactly when it is not a mobile number. An empty one gets only "Contact number is required"; a non-empty bad one gets "Invalid mobile number". |
| FormRules.AmountRule | src/components/Form/FuelEntryForm.tsx:74-75 | Quantity and rate are flagged exactly when empty or parsed to a number at most zero. A non-empty value that parses to NaN is not flagged. |
| FormRules.TotalAmountNeverFlagged | src/components/Form/FuelEntryForm.tsx:55-85 | `validate` never puts a message on the derived total. |
| FormRules.ChangeKeepsOtherVerdicts | src/components/Form/FuelEntryForm.tsx:90 | Changing one field changes no other field's verdict; that field's verdict becomes its rule applied to the new value. |
| FormRules.ErrorsForEmptyIff | src/components/Form/FuelEntryForm.tsx:84-85 | `validate` returns true exactly when all six required fields are non-empty, the vehicle number has the registration shape, quantity and rate are non-empty and not at most zero, and the contact is a mobile number. |
| FormRules.InitialDataRejected | src/components/Form/FuelEntryForm.tsx:24-36 | A freshly reset form fails validation on every checked field but the date. The vehicle number and contact get their "required" messages. |
| FuelEntry.FuelEntryForm.constructor | src/components/Form/FuelEntryForm.tsx:39-42 | The first render: `INITIAL_DATA`, no errors, not submitting, status idle; the invariant holds. |
| FuelEntry.FuelEntryForm.Validate | src/components/Form/FuelEntryForm.tsx:55-86 | Replaces the error object with the rules' verdict on the current data and returns true exactly when it is empty; the invariant is kept. |
| FuelEntry.FuelEntryForm.HandleChange | src/components/Form/FuelEntryForm.tsx:88-95 | Sets exactly the named field to the value. If that field showed a message, only that message is cleared; every other message stays. The invariant is kept. |
| FuelEntry.FuelEntryForm.BeginSubmit | src/components/Form/FuelEntryForm.tsx:97-105 | Validates. If invalid: no request, and `isSubmitting` and `submitStatus` are unchanged. If valid: the current data is sent, `isSubmitting` is set and the status becomes idle. |
| FuelEntry.FuelEntryForm.CompleteSubmit | src/components/Form/FuelEntryForm.tsx:104-115 | On success: status success, data reset to `INITIAL_DATA`, one more reset timer pending. On a thrown error: status error, data kept. Either way `isSubmitting` ends false and the invariant is kept. |
| FuelEntry.FuelEntryForm.HandleSubmit | src/components/Form/FuelEntryForm.tsx:97-116 | The whole handler. The request is the pre-submit data and is sent exactly when validation passes. An invalid form changes only `errors`. A valid one ends not submitting: with success, reset data and one more pending timer, or with error, kept data and no new timer. |
| FuelEntry.FuelEntryForm.ResetTimerFires | src/components/Form/FuelEntryForm.tsx:109 | A pending three-second timer fires: the status becomes idle, whatever it shows at that moment. |

## Left out

- The network write (`submitToWebApp` in `src/services/googleSheets.ts`) is not part of this model. Its outcome is the parameter `threw` of `CompleteSubmit`.
- `EntriesModal.tsx` is not part of this model.
- The effect that derives `totalAmount` from quantity and rate (FuelEntryForm.tsx:45-53) uses floating-point multiplication and `toFixed(2)`, so it is left out. The total is an ordinary field of the record, never checked by `validate`.
- `parseFloat` is left uninterpreted: it is the class constant `parse`, returning a JavaScript number (`NaN`, a finite real, or an infinity). Only `<= 0` on its result is modelled, with JavaScript's rule that every comparison with `NaN` is false.
- `new Date().toISOString().split('T')[0]` is the constructor parameter `today`. As in the code, `INITIAL_DATA` is fixed once, and every reset goes back to that date, not to the current day.
- `setTimeout`'s delay is not modelled. Only the event of a scheduled timer firing (`ResetTimerFires`) is, and it can happen at any later point.
- React's batching of state updates, re-rendering and stale closures are left out. Handlers run one after another on the current state.
- The logging in the `catch` block is left out, and so is the JSX. The only part of the JSX used is the submit button, disabled while `isSubmitting` (FuelEntryForm.tsx:307). That is why `BeginSubmit` and `HandleSubmit` require `!isSubmitting`, and `CompleteSubmit` requires a request in flight.
- Case folding under the `i` flag covers ASCII letters only. For the ASCII ranges these patterns use, without the `u` flag, that is the whole of JavaScript's rule.
- FuelEntry.FuelEntryForm.Validate: `validate` builds its error object by successive conditional assignments, at most one for each of the ten checked fields (the total is never assigned). The model builds the same object in one step, field by field (`ErrorsFor`), and does not replay the sequence of assignments.
- FuelEntry.FuelEntryForm.HandleChange: accepts every field name, including `totalAmount`. The total's input is read-only with no change handler (FuelEntryForm.tsx:262-268), so in the source that event never happens; the model is more permissive there.
- A submission moves from any status, not only from idle, to idle and then to success or error. An error banner is not cleared by the next input: `handleChange` does not touch `submitStatus`, and the model follows that code.
