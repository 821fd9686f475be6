# FINBAR forms and demo data, modelled in Dafny

FINBAR is a personal investment-portfolio tracker: users sign in, keep a list of
brokerage portfolios, log buy, sell, convert, deposit, withdraw and dividend actions,
and look at a demo performance chart. This project models the logic in that app
that can be stated as rules, and proves properties about it:

- **Sign-in page** (`auth.dfy`): the e-mail, password and name validators. The ordered
  checks of login and sign-up. The page state those handlers update (error, loading
  flag). The request sent to the backend once every check passes.
- **Portfolio settings** (`settings.dfy`): the guard chain on the add/edit form
  (trimmed name, trimmed account number, non-negative fee). The choice between
  updating the edited row and inserting a new one. The trimmed values that are saved.
  The editing / not-editing state kept by `handleEdit`, `resetForm` and `handleSubmit`.
- **New action dialog** (`new_action.dfy`): the `validateForm` guard chain (portfolio,
  date, type, then the chosen type's fields). The payload built from a valid form. The
  dialog state that `resetForm` and `handleSubmit` overwrite.
- **Demo data** (`demo_data.dfy`, `calendar.dfy`): the start date of each chart range.
  The random-walk generator, a loop over days. The profit-and-loss summary. The sign
  rule of the percentage label.

Supporting modules: `wrappers.dfy` (`Option`), `text.dfy` (JavaScript `trim` and
`includes`) and `numbers.dfy`. `numbers.dfy` holds `parseFloat` as an abstract
parameter, `None` being `NaN`, and the `NaN`/infinity outcomes of a division.

How the JavaScript environment is represented:

- Whatever the code reads from outside comes in as a parameter. The clock is a
  `Calendar.Clock`: local date plus milliseconds into the day. `Math.random()` is a
  function `random: nat -> real` giving the k-th draw. `parseFloat` is a
  `Numbers.Parser`. `Number.prototype.toString` and `toFixed(2)` are functions on reals.
  Each backend answer (sign-in or sign-up refused, the signed-in user, a write refused)
  is a parameter too.
- Each handler returns the backend request it would make. The backend itself is not
  modelled.
- User-facing messages (Hebrew strings in the source) are modelled as enumerations of
  their meaning. An empty error string is `None`.
- JavaScript numbers are reals. Only a percentage can come out of a division as `NaN`
  or an infinity, so it is a `Numbers.JsNumber`.

Behaviour of the code that the model keeps:

- A range selector outside the six known ones is not an error in the code: the `default`
  branch of `getStartDate` treats it as `ALL`. Ranges are a closed datatype here, so
  that branch cannot be reached.
- The series ends at "now" with its time of day, not at midnight. The loop bound
  `max(daysDiff, 1)` never cuts the series short. So the series has exactly one point per
  day from the start day through today. For `1D` that is exactly one point, never two
  (`DemoData.GenerateDemoChartData`).
- A first value of 0 gives a percentage of `NaN` (no change) or an infinity of the
  change's sign, as JavaScript division does. A generated series never starts below
  10,000, so its percentage is always finite (`DemoData.GeneratedPerformanceFinite`).

## Model

| member | source | states |
|---|---|---|
| `Text.TrimEmptyIffBlank` | src/app/dashboard/settings/page.tsx:92-99 | `!s.trim()` holds exactly when every character of `s` is JavaScript whitespace |
| `Text.TrimIsInnerSlice` | src/app/dashboard/settings/page.tsx:120-121 | `trim` returns a contiguous slice of its input; what it drops at either end is whitespace; the result neither starts nor ends with whitespace |
| `Text.TrimIdempotent` | src/app/dashboard/settings/page.tsx:120-121 | trimming a trimmed value changes nothing |
| `Numbers.RejectsAmount` | src/app/dashboard/new-action-modal.tsx:111-118 | the guard `!s \|\| parseFloat(s) <= 0` lets through exactly the non-empty text that is `NaN` or a positive number |
| `Numbers.RejectsFee` | src/app/dashboard/settings/page.tsx:100-101 | the guard `isNaN(v) \|\| v < 0` lets through exactly the text that parses to a number >= 0, zero included; unlike the amount guard it refuses `NaN` |
| `Auth.ValidatorsMeaning` | src/app/auth/page.tsx:30-32 | `validateEmail` holds iff the text contains `@`; `validatePassword` iff length >= 6; `validateName` iff length >= 2 |
| `Auth.EmptinessTestsSubsumed` | src/app/auth/page.tsx:39-46 | the `!field \|\|` part of each check changes nothing, since every validator rejects the empty string |
| `Auth.LoginCheck` | src/app/auth/page.tsx:38-46 | login is accepted iff the e-mail and password validators both hold; a bad e-mail gives the e-mail error whatever the password; otherwise a short password gives the password error |
| `Auth.SignupCheck` | src/app/auth/page.tsx:69-81 | sign-up is accepted iff name, e-mail and password validators all hold; the first failing check, in the order name, e-mail, password, names the error |
| `Auth.EmptyEmailRejectedFirst` | src/app/auth/page.tsx:39-42 | an empty e-mail yields the e-mail error on login whatever the password, and on sign-up once the name is valid |
| `Auth.SignupExtendsLogin` | src/app/auth/page.tsx:70-81 | past a valid name, sign-up decides exactly as login does; an invalid name decides alone |
| `Auth.AuthPage.constructor` | src/app/auth/page.tsx:16-27 | every form field starts empty, with no error and nothing loading |
| `Auth.AuthPage.HandleLogin` | src/app/auth/page.tsx:34-63 | the error is cleared first; a failed check leaves its message and the loading flag untouched, and no request is made; otherwise the sign-in request is made with the typed credentials; a refusal shows the credentials error and lowers the flag; success navigates with the flag still raised |
| `Auth.AuthPage.HandleSignup` | src/app/auth/page.tsx:65-105 | as login, with the name check first and the name sent with the sign-up request; a refusal shows the sign-up error |
| `Settings.ValidateForm` | src/app/dashboard/settings/page.tsx:91-104 | the form is refused iff the trimmed name is empty, the trimmed account number is empty, or the fee is `NaN` or negative; those guards win in that order; an accepted form yields the trimmed texts and the parsed fee, which is >= 0 |
| `Settings.BlankFieldsRejected` | src/app/dashboard/settings/page.tsx:92-99 | a whitespace-only name is refused before the account number is looked at; a whitespace-only account number is refused next |
| `Settings.FeeAcceptedIffNonNegative` | src/app/dashboard/settings/page.tsx:100-104 | with name and account present, the form is accepted iff the fee parses to a number >= 0; a zero fee is accepted; otherwise the error is the fee error |
| `Settings.ChooseWrite` | src/app/dashboard/settings/page.tsx:115-154 | a present, non-empty `editingId` gives an update of that id for the user; otherwise a new row is inserted for the user; both carry the validated fields |
| `Settings.Submit` | src/app/dashboard/settings/page.tsx:87-157 | a write is requested iff the form is valid and a user is signed in; an invalid form shows its guard's error; a valid form without a user shows the not-signed-in error; the write is `ChooseWrite` of the edit id, the user's id and the validated fields (trimmed texts, parsed fee); a refused write shows the update error for an update and the insert error for an insert; the error stays empty iff a write was made and accepted |
| `Settings.SettingsForm.constructor` | src/app/dashboard/settings/page.tsx:28-33 | the form starts empty, in the adding state |
| `Settings.SettingsForm.ResetForm` | src/app/dashboard/settings/page.tsx:69-76 | every input and the error are cleared, the form is in the adding state, and `isEditing` agrees with the absence of an edit id |
| `Settings.SettingsForm.HandleEdit` | src/app/dashboard/settings/page.tsx:78-85 | the portfolio's name, account number and fee text are loaded, `isEditing` is set and `editingId` is the portfolio's id; the error is cleared |
| `Settings.SettingsForm.HandleSubmit` | src/app/dashboard/settings/page.tsx:87-157 | the write and error are those `Submit` decides for the old form; a successful write resets the form, otherwise the inputs and edit state are unchanged; `saving` is lowered on every path that raised it; `isEditing` still agrees with `editingId` |
| `Settings.EditThenSave` | src/app/dashboard/settings/page.tsx:78-157 | editing a portfolio and saving it unchanged requests an update of that portfolio's id with its trimmed fields, then leaves the form in the adding state |
| `NewAction.ValidateForm` | src/app/dashboard/new-action-modal.tsx:91-163 | a missing portfolio gives the portfolio error whatever else the form holds; then a missing date, then a missing type; symbol, quantity and price errors arise only for buy, sell or dividend; currency-pair and rate errors only for convert; acceptance implies portfolio, date and type are set |
| `NewAction.PortfolioCheckedFirst` | src/app/dashboard/new-action-modal.tsx:91-95 | every form without a portfolio is refused with the portfolio error; clearing its date and type changes nothing |
| `NewAction.TradeAcceptance` | src/app/dashboard/new-action-modal.tsx:106-119 | a buy or sell is accepted iff the symbol is not blank and quantity and price pass the amount guard; an accepted quantity or price that parses is > 0; a blank symbol gives the symbol error |
| `NewAction.ConvertAcceptance` | src/app/dashboard/new-action-modal.tsx:121-138 | equal source and target currencies are refused even when both are chosen; a conversion is accepted iff both currencies are chosen, they differ, and the rate passes the amount guard |
| `NewAction.GuardErrors` | src/app/dashboard/new-action-modal.tsx:105-160 | each type-specific guard shows its own message, in the dialog's order: for buy/sell a blank symbol, then a rejected quantity, then a rejected price; for convert a missing source, then a missing target, then equal currencies, then a rejected rate; for deposit/withdraw a missing currency, then a rejected amount; for dividend a blank symbol, then a rejected amount |
| `NewAction.TransferAndDividendAcceptance` | src/app/dashboard/new-action-modal.tsx:140-160 | a deposit or withdrawal is accepted iff a currency is chosen and the amount passes the guard; a dividend iff the symbol is not blank and the amount passes |
| `NewAction.UnparsableQuantityAccepted` | src/app/dashboard/new-action-modal.tsx:111-114 | a quantity that is not a number passes the guard, since `NaN <= 0` is false; its `NaN` reaches the payload |
| `NewAction.UnrelatedFieldsIgnored` | src/app/dashboard/new-action-modal.tsx:105-198 | two forms that agree on the base inputs and the chosen type's inputs get the same verdict and the same payload; the price of a deposit, for one, is ignored |
| `NewAction.BuildPayload` | src/app/dashboard/new-action-modal.tsx:176-198 | the payload's keys are exactly `portfolio_id`, `date`, `type` plus the chosen type's keys (symbol/quantity/price, source_currency/target_currency/exchange_rate, currency/amount, or symbol/amount) |
| `NewAction.PayloadValues` | src/app/dashboard/new-action-modal.tsx:176-198 | each key holds its input: texts as typed (the symbol untrimmed), numbers through `parseFloat`, the date, the type name |
| `NewAction.AcceptedPayloadNumbersPositive` | src/app/dashboard/new-action-modal.tsx:165-198 | the payload of an accepted form has a date, and every number in it that parses is > 0 |
| `NewAction.EmptyFormRefused` | src/app/dashboard/new-action-modal.tsx:71-95 | the form as `resetForm` leaves it is refused with the portfolio error |
| `NewAction.NewActionModal.constructor` | src/app/dashboard/new-action-modal.tsx:51-69 | the dialog starts with every input empty, no error and not saving |
| `NewAction.NewActionModal.ResetForm` | src/app/dashboard/new-action-modal.tsx:71-84 | every input and the error return to empty; `saving` is untouched |
| `NewAction.NewActionModal.HandleSubmit` | src/app/dashboard/new-action-modal.tsx:165-207 | a refused form keeps its inputs and shows the first guard's error, and no payload is made; an accepted form yields `BuildPayload` of the old inputs, then the dialog is reset with `saving` lowered |
| `Calendar.YearStep` | src/lib/demo-data.ts:35-38 | the day count from one January 1 to the next is 366 in a leap year and 365 otherwise |
| `Calendar.MonthStep` | src/lib/demo-data.ts:30-33 | `new Date(y, m + 1, 1)` is one length of month `m` after `new Date(y, m, 1)`, including across a year end and for any month index |
| `Calendar.OneMonthEarlier` | src/lib/demo-data.ts:30-31 | `new Date(y, m - 1, d)` is exactly the previous month's length before `new Date(y, m, d)`, for any month index and any day, overflowing days included |
| `Calendar.TwoMonthsEarlier` | src/lib/demo-data.ts:32-33 | `new Date(y, m - 2, d)` is exactly the lengths of the two months before month `m` before `new Date(y, m, d)` |
| `Calendar.ThreeMonthsEarlier` | src/lib/demo-data.ts:32-33 | `new Date(y, m - 3, d)` is exactly the lengths of the three months before month `m` before `new Date(y, m, d)`, for any month index and day |
| `Calendar.TwoYearsEarlier` | src/lib/demo-data.ts:36-38 | for a month index in 0..11, `new Date(y - 2, m, d)` is the lengths of years `y - 2` and `y - 1`, plus the days of year `y` before month `m`, minus those of year `y - 2`, before `new Date(y, m, d)`: 730 or 731 days |
| `Calendar.MonthBeforeToday` | src/lib/demo-data.ts:30-31 | the clock's date one month back is 28 to 31 days before today |
| `Calendar.QuarterBeforeToday` | src/lib/demo-data.ts:32-33 | the clock's date three months back is exactly the three previous months' lengths, 84 to 93 days, before today |
| `Calendar.YearStartBeforeToday` | src/lib/demo-data.ts:34-35 | for a real date, January 1 of its year is today or less than 366 days before it |
| `Calendar.TwoYearsBeforeToday` | src/lib/demo-data.ts:36-38 | for a real date, the same date two years back is the two years' lengths corrected by the leap days before that date, 730 or 731 days, before today |
| `Calendar.NoConsecutiveLeaps` | src/lib/demo-data.ts:36-38 | two consecutive years are never both leap years |
| `DemoData.StartDay` | src/lib/demo-data.ts:20-39 | for a real date, every range starts on or before today and no more than 731 days before it |
| `DemoData.FixedRangeStarts` | src/lib/demo-data.ts:25-29 | 1D starts at today's midnight, which is at most a day before now; 7D starts seven days earlier; YTD starts on January 1 of the current year |
| `DemoData.OneMonthBack` | src/lib/demo-data.ts:30-31 | 1M starts exactly one previous-month length (28 to 31 days) before today, even when the day of the month overflows the previous month |
| `DemoData.ThreeMonthsBack` | src/lib/demo-data.ts:32-33 | 3M starts exactly the lengths of the three months before the current one back (84 to 93 days) |
| `DemoData.YearToDateBack` | src/lib/demo-data.ts:34-35 | YTD starts today's day-of-year minus one days back, less than a year |
| `DemoData.AllBack` | src/lib/demo-data.ts:36-38 | ALL starts exactly the lengths of the two previous years, plus this year's days before the current month, minus those of the year two back, before today: 730 or 731 days |
| `DemoData.RangesNest` | src/lib/demo-data.ts:21-40 | no range starts after today; 1D, 7D, 1M, 3M and ALL start strictly earlier in that order, and YTD starts after ALL |
| `DemoData.Clamp` | src/lib/demo-data.ts:65 | `Math.max(v, 10000)` is at least 10,000 and at least `v`, and is one of the two |
| `DemoData.Walk` | src/lib/demo-data.ts:48-65 | the value after day k's update, starting from 50,000 and clamped, is never below 10,000 |
| `DemoData.Round2` | src/lib/demo-data.ts:69 | `Math.round(v * 100) / 100` has at most two decimals and lies in the interval (v − 0.005, v + 0.005] |
| `DemoData.Round2KeepsFloor` | src/lib/demo-data.ts:65-69 | rounding a value >= 10,000 to cents keeps it >= 10,000 |
| `DemoData.WalkStep` | src/lib/demo-data.ts:58-65 | with a draw in [0, 1), each day's value is >= 10,000, at least 0.981 times the previous value, and either on the floor or below 1.021 times the previous value |
| `DemoData.CeilDiv` | src/lib/demo-data.ts:50 | `Math.ceil(a / b)` on integers is the least `c` with `a <= c × b`, hence at least the floor quotient |
| `DemoData.ChartSeries` | src/lib/demo-data.ts:48-73 | the loop emits exactly `floor((end - start) / day) + 1` points when start <= end and none otherwise, so at most `max(daysDiff, 1) + 1`; point k is dated `start + k` days; no point is after the end; consecutive points are one day apart; point k's value is the k-th step of the walk rounded to cents |
| `DemoData.GenerateDemoChartData` | src/lib/demo-data.ts:43-74 | the series has one point per day from the range's start day through today, beginning at the start date and ending at today's midnight, never after now, one day apart; point k's value is the k-th step of the random walk (from 50,000, daily factor, clamp at 10,000) rounded to cents, so every value is >= 10,000 with at most two decimals |
| `DemoData.CalculatePerformance` | src/lib/demo-data.ts:77-88 | no data gives all zeros; otherwise initial and current values are the first and last points; current = initial + pnl; with a non-zero initial value the percentage is finite and percentage × initial = pnl × 100; with a zero initial value it is `NaN` (no change) or an infinity of pnl's sign |
| `DemoData.PercentageSignMatches` | src/lib/demo-data.ts:85 | with a positive first value, the percentage is positive, zero or negative exactly as pnl is |
| `DemoData.PerformanceExamples` | src/lib/demo-data.ts:77-88 | 100 → 150 gives pnl 50 and 50%; 100 → 50 gives pnl −50 and −50% |
| `DemoData.GeneratedPerformanceFinite` | src/lib/demo-data.ts:82-85 | a series whose first value is >= 10,000, as every generated one is, has a finite percentage |
| `DemoData.FormatPercentage` | src/lib/demo-data.ts:101-104 | the label ends in `%`, and what precedes it is `value.toFixed(2)`, possibly after a `+` |
| `DemoData.PlusSignIffNonNegative` | src/lib/demo-data.ts:101-104 | when `toFixed` writes no leading `+`, the label starts with `+` iff the value is >= 0 (finite and >= 0, or +Infinity; never `NaN`), and between that sign and the `%` it is exactly `value.toFixed(2)` |

## Left out

- Calendar.EpochDay: JavaScript's `new Date(y, m, d)` reads a year from 0 to 99 as 1900 + y; the model does not. It treats every year as written. Its dates therefore differ from JavaScript's only for clocks in the years 0 to 101: `today` itself for the years 0 to 99, and the ALL start, whose year argument is the year minus 2, for the years 100 and 101.
- Settings.SettingsForm.HandleSubmit: after an accepted write the source awaits `fetchPortfolios()`. When that reload fails, it shows the load error, after `resetForm` has cleared the error. The model does not capture this: it leaves `error` empty after every accepted write.
- Backend calls (`signInWithPassword`, `signUp`, `getUser`, the portfolio table's
  select, update, insert and delete) are foreign. Their answers are parameters. Reloading
  the list after a save (`fetchPortfolios`), `handleDelete` and the delete confirmation
  are not part of this model.
- Navigation (`router.push`, `router.refresh`) is reduced to a `navigated` flag on login
  and sign-up. The dialog's `onClose` callback is not modelled. `HandleSubmit` includes
  the form reset that `handleClose` performs.
- `console.log` of the action payload: `HandleSubmit` returns the payload instead. The
  500 ms save delay is left out, along with the asynchrony of React state setters. Each
  handler's updates are applied in order, as one step.
- `parseFloat`'s grammar, `Number.prototype.toString` and the digits `toFixed(2)`
  produces are parameters, not re-implemented. `toFixed` of `NaN` and the infinities is
  modelled.
- IEEE floating point: values are exact reals, so rounding error, `-0` and overflow are
  not captured. `Math.round` is `floor(x + 0.5)`, exact on reals.
- `formatILS` (locale currency formatting) and `formatDate` (ISO date strings, which
  depend on the time zone): points carry their instant in milliseconds instead.
- Time zones and daylight saving: local days are 86,400,000 ms long throughout.
- DemoData.GenerateDemoChartData: reads the clock once, where the source reads
  `new Date()` twice (in `getStartDate` and for the end date). The few microseconds
  between the two reads are not modelled.
- String lengths count Unicode scalar values. JavaScript counts UTF-16 code units, so
  a name or password with characters outside the Basic Multilingual Plane has a
  different length here.
- Rendering and UI wiring: dashboard shell, chart, cards, calendar and range selector
  components, the dashboard page's effects, and the database setup script.
