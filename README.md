# Workout record map: the workout model and the submit decision

A small browser application lets a user click a map, fill in a form and record
a run or a ride. This project models the logic behind that form in Dafny and proves
properties about it:

- the workout record, with its derived fields: the `id` taken from the clock, the
  `pace` of a run or `speed` of a ride, and the `description` label;
- the two input checks `allNumbers` and `allPositive`, and how the submit handler
  combines them differently for running and cycling;
- the controller's in-memory list of workouts. A submit either leaves it untouched or
  appends exactly one record and writes the list to storage. Loading at start-up
  either keeps the list or replaces it wholesale.

Files and modules:

- `js_number.dfy` (`JsNumbers`): JavaScript numbers, which are a finite value, NaN
  or one of the two infinities. Also `Number.isFinite`, the comparison `x > 0`, and
  JavaScript division.
- `validation.dfy` (`Validation`): `allNumbers` and `allPositive`, each an `every`
  over its arguments.
- `decimal.dfy` (`Decimal`): the decimal rendering of a non-negative integer
  (`n + ''`), its inverse, and what its last `k` characters mean.
- `workout.dfy` (`Workouts`): the tagged workout record. Its two constructors build
  running and cycling records. Also the id and the description, with lemmas about them.
- `app.dfy` (`AppController`): the `App` class. It owns the `workouts` sequence, has
  the `NewWorkout` and `LoadLocalStorage` methods, and holds a `Storage` object that
  stands for the browser-storage entry `workouts`.

Inputs from the environment become parameters:

- The clock reading for the id (`Date.now()`) is a parameter `now` in milliseconds.
- The creation date (`new Date()`) is a parameter `date`, carrying the month index
  0..11 and the day of the month.
- The form values are parameters, taken after unary `+` has turned them into numbers.
- The clicked map position is a parameter.
- The value read back from storage is an `Option<seq<Workout>>`.

A record is a tagged value in the model: `RunningWorkout` or `CyclingWorkout`, with
`Kind()` as its `type` field. So a record restored from storage is the same kind of
value as one built freshly.

## Model

| member | source | states |
|---|---|---|
| `JsNumbers.Div` | script.js:47 | JavaScript `/`: finite operands with a non-zero divisor give a finite result. A finite quotient times a finite divisor gives back the dividend. The result is NaN exactly for a NaN operand, 0/0 or Infinity/Infinity. |
| `JsNumbers.IsFinite` | script.js:148 | `Number.isFinite` holds exactly for a number that is neither NaN nor an infinity |
| `JsNumbers.GreaterThanZero` | script.js:149 | `x > 0` never holds for NaN or -Infinity. When it holds for a finite value, that value is above 0, and every finite value above 0 passes it. |
| `Validation.AllNumbers` | script.js:148 | true exactly when every argument passes `Number.isFinite` |
| `Validation.AllPositive` | script.js:149 | true exactly when every argument compares greater than 0 (NaN and -Infinity do not; +Infinity does) |
| `Decimal.DecimalString` | script.js:19 | `n + ''` is a non-empty string of digits with no leading zero. The same rendering gives the day in the description (`getDate()`, script.js:31). |
| `Decimal.ParseDecimalRoundTrip` | script.js:19 | reading the decimal rendering of `n` back gives `n` |
| `Decimal.DecimalStringInjective` | script.js:19 | different numbers have different decimal renderings |
| `Decimal.DecimalLength` | script.js:19 | the rendering of `n` has at most `k` digits exactly when `n < 10^k` |
| `Decimal.SuffixValue` | script.js:19 | the last `k` characters of the rendering of `n` read back as `n mod 10^k` |
| `Workouts.SliceFromEnd` | script.js:19 | `slice(-k)` for `k >= 1` (the source calls it only with `k = 10`): the result is the end of the string, with length `k`, or the whole string when it is no longer than `k` |
| `Workouts.WorkoutId` | script.js:19 | the id is 1 to 10 digits, is the end of the clock's decimal rendering, and is the whole rendering when that has at most 10 digits |
| `Workouts.IdLength` | script.js:19 | the id has at most 10 characters, and exactly 10 when the clock reads at least 10^9 ms |
| `Workouts.IdValue` | script.js:19 | the id is all digits and reads back as the clock reading modulo 10^10 |
| `Workouts.IdsDistinct` | script.js:19 | two clock readings less than 10^10 ms apart give different ids |
| `Workouts.NewRunning` | script.js:17-23 | a running record with kind running and the given coords, distance, duration and cadence. Its id comes from the clock, its date and description from the date. For a finite distance above 0 and a finite duration, pace × distance = duration. |
| `Workouts.NewCycling` | script.js:52-63 | a cycling record with kind cycling and the given coords, distance, duration and elevation gain, and the same id, date and description. For a finite duration above 0 and a finite distance, speed × (duration / 60) = distance. |
| `Workouts.NewRunningWellFormed` | script.js:45-48 | for finite positive inputs the running record satisfies the record invariants, and pace is exactly duration / distance |
| `Workouts.NewCyclingWellFormed` | script.js:61-63 | for finite positive distance and duration and a finite elevation gain, the cycling record satisfies the invariants, and speed is exactly distance / (duration / 60) |
| `Workouts.RunningPaceExample` | script.js:47 | 5 km in 30 minutes gives a pace of 6 |
| `Workouts.UpperCase` | script.js:29 | `toUpperCase` on one character: a lower-case ASCII letter becomes its upper-case letter, any other character is kept |
| `Workouts.Capitalize` | script.js:29 | `type[0].toUpperCase()` followed by `type.slice(1)`: same length, first character upper-cased, the rest unchanged |
| `Workouts.Description` | script.js:25-31 | the label starts with "Running on " or "Cycling on " according to the type, followed by the month name, a space and the day of the month in decimal |
| `Workouts.MonthNumberRoundTrip` | script.js:27 | each month index names a month in the table, and the name leads back to the index |
| `Workouts.DescriptionInjective` | script.js:25-31 | equal descriptions have the same type, month and day, so the label identifies all three |
| `Workouts.DescriptionExample` | script.js:29-31 | a run in month 0 on day 5 is described as "Running on January 5" |
| `AppController.AcceptedIsWellFormed` | script.js:161-185 | an accepted submission builds a record of the selected kind that satisfies the record invariants |
| `AppController.App.NewWorkout` | script.js:145-201 | The submission is rejected exactly when it is not acceptable. For running, distance, duration and cadence must all be finite and above 0. For cycling, distance and duration must be finite and above 0, and the elevation gain only finite. On rejection the list and storage are unchanged. On acceptance the list is the old list plus the new record at the end. That record is the one the constructor builds and satisfies the invariants. Storage then holds the new list. The invariant holds for the whole list whenever it held before. |
| `AppController.App.LoadLocalStorage` | script.js:277-284 | an absent stored value leaves the list as it was; a present value replaces it entirely |
| `AppController.App.constructor` | script.js:79-85 | a new controller starts from an empty list and then loads storage, so it holds the stored list, or the empty list when nothing is stored |

Two scenario methods state concrete runs of the controller:

- `AppController.SubmitScenario`: a run of 5 km in 30 minutes is added with pace 6 and
  storage is updated. A ride with distance 0 is then refused and the list is unchanged.
- `AppController.ReloadScenario`: a ride with a negative elevation gain is accepted
  after the stored records. A controller built afresh on the same storage restores the
  same list in the same order.

## Left out

- DOM and form plumbing are not modelled: element lookup, showing, hiding and clearing
  the form, the one-second re-reveal timer, the cadence/elevation row toggle and the
  alert. They are user-interface state, not logic.
- The map widget is not modelled: map creation, tile layer, click handler, markers and
  popups. It is an external library. The position a click delivers is an input.
- The geolocation request and its failure alert are not modelled. They are an
  asynchronous browser service.
- The HTML of the list entries is not modelled. This includes the `toFixed(1)`
  formatting of pace and speed and the insertion point that shows newest entries first.
  This is markup and floating-point formatting.
- `JSON.stringify` and `JSON.parse` are not modelled. The stored list is a value of the
  model, and loading receives the parsed value as an `Option`. Because of this, the
  model does not show that `date` comes back as a string after a reload. It also does
  not show that a parsed value which is falsy but not absent is skipped like an
  absent one. A stored entry that is not valid JSON is not modelled either: there
  `JSON.parse` (script.js:278) throws out of `new App()` (script.js:321), so the
  listeners of script.js:88-89 are never registered. An `Option` input cannot
  express that failure.
- The `console.log` calls (script.js:167 and script.js:281) are not modelled. They
  only write to the console.
- Turning form text into numbers (unary `+`) is not modelled. The handler receives the
  resulting numbers.
- JsNumbers.Div: numbers are reals, so IEEE-754 rounding, overflow and underflow are
  absent. Pace and speed are exact quotients. In particular `WellFormed` always gets a
  finite positive pace or speed from finite positive inputs. In IEEE-754 arithmetic
  that can fail: 1e300 / 1e-300 overflows to Infinity and 1e-300 / 1e300 underflows
  to 0.
- JsNumbers.Div: zero is unsigned, so `x / -0` is treated like `x / +0`.
- `Submission.kind` has only the two values the form's selector offers. The source's
  path for any other value is left out. On that path both branches are skipped and
  `undefined` is pushed onto the list.
- `Workouts.Date` keeps only the month index and the day of the month, the two
  parts the description reads. It is not connected to the clock reading `now` behind
  the id: the source reads the clock twice (script.js:18-19), and the model takes
  the two readings as independent inputs.
- `Decimal.DecimalString` renders every natural number in plain digits. JavaScript
  switches to exponent notation from 10^21, far above any clock reading in
  milliseconds.
- `Workouts.UpperCase` upper-cases only ASCII letters. Type names contain no other
  letters.
- The commented-out `_renderWorkoutlist` is not modelled. It is dead code.
