# Attendance submission core of con_bo_cham_chi, in Dafny

The application sends attendance events to a remote HR API on the user's behalf. Each event is a check-in or a check-out, with a plausible time drawn at random. The application keeps a short local history of the events that went through. This project models the logic behind that flow:

- `utils.ts`:
  - candidate-time generation, with the random draw as an explicit offset into the time window;
  - the `DD-MM-YYYY HH:MM:SS` payload date;
  - the `YYYY-MM-DD` formatting of today's date.
- `components/Dashboard.tsx`:
  - the `HH:MM:SS` validator;
  - the date shown to the user;
  - `handleSubmit`, as a method of a `Dashboard` class over the component's state, run against an abstract server response;
  - the history, capped at ten entries with the newest first;
  - the rule that recomputes the candidate times and resets the time field;
  - the input handlers around these.
- `components/CalendarModal.tsx`:
  - the month view, as a `Calendar` class with `month` and `year` fields;
  - the previous- and next-month buttons;
  - the date strings built by a day click and by the "today" button;
  - the parsing of the initial view.

Modules:

- `JsText` (`jstext.dfy`) states the JavaScript built-ins the code relies on, exactly, for the values it gives them. These are `String(n)`, `padStart`, `split`, `join`, `Number`, and `NaN`, which absorbs every addition.
- `Types` (`types.dfy`) models `types.ts`, and `Utils` (`utils.dfy`) models `utils.ts`.
- `Dashboard` (`dashboard.dfy`) models the dashboard.
- `CalendarModal` (`calendar.dfy`) models the calendar.

Three facts about the code that the model keeps:

- **Check-in window.** The window 08:13:00–08:29:59 holds 1020 seconds.
- **What is logged.** Only successful submissions are logged. A failure only sets the error message.
- **Log cap.** The history keeps at most 10 entries.

React's update rules are modelled as follows:

- **Recomputing the candidate times.** They are recomputed when the selected date changes or when `lastSubmission` is replaced by a different value. A success always stores a new object. A failure stores `null`, which counts as a change only when a submission was shown before.
- **Resetting the time field.** It is reset to the current kind's candidate, and editing is switched off, whenever the kind or the candidate times change.

## Model

| member | source | states |
|---|---|---|
| Types.CheckType.Code | types.ts:2-5 | check-in is sent as 1 and check-out as 2, and these are the only two codes |
| Utils.WindowFor | utils.ts:13-21 | check-in draws from seconds 29580..30599 (1020 seconds); check-out draws from 63180..65699 (2520 seconds); both windows lie within one day |
| Utils.DrawnSecond | utils.ts:23 | a draw `offset` below the window's width gives a second inside the window, exactly `offset` past its start |
| Utils.DrawInWindow | utils.ts:23 | every second of the window is produced by some admissible draw |
| Utils.ClockShape | utils.ts:25-29 | below one day, the formatted second is three two-digit fields joined by `:`: hours at most 23, minutes and seconds at most 59 |
| Utils.FormatPayloadDateReorders | utils.ts:35-38 | for `y-m-d` with dash-free pieces, the payload date is `d-m-y time`, with each piece copied verbatim |
| Utils.FormatPayloadDateWithoutDash | utils.ts:35-38 | a date with no dash fills the year slot, and month and day print as `undefined` |
| Utils.TodayStringParts | utils.ts:43-49 | today's string splits into year, month+1 padded to 2, and day padded to 2; the month and day pieces have two characters; each piece reads back as its number |
| Utils.TodayStringShape | utils.ts:43-49 | for a four-digit year the result is 10 characters with dashes at 4 and 7, a digit year, and two-digit month and day |
| Dashboard.TimeValidFields | components/Dashboard.tsx:32-35 | the validator accepts exactly 8 characters with colons at 2 and 5, digits elsewhere, hours at most 23, and minutes and seconds at most 59 |
| Dashboard.ValidatorExamples | components/Dashboard.tsx:33 | `08:13:00` is accepted; `24:00:00`, `8:13:00` and `08:13:60` are rejected |
| Dashboard.FormattedClockIsValid | components/Dashboard.tsx:33 | every formatted second of the day passes the validator and its fields read back as that second |
| Dashboard.ValidTimeIsFormatted | components/Dashboard.tsx:32-35 | every accepted string is the formatting of the second its fields name |
| Dashboard.TimeValidIffClock | components/Dashboard.tsx:32-35 | the validator accepts a string iff it is the formatting of some second below 86400 |
| Dashboard.GeneratedTimeIsValid | utils.ts:9-30 | every generated candidate passes the validator, names the drawn second, and lies in its kind's window |
| Dashboard.DisplayDateCases | components/Dashboard.tsx:128-134 | an empty date shows the placeholder; a date without exactly three pieces shows unchanged; `y-m-d` shows as `d-m-y` |
| Dashboard.DisplayDateInvolution | components/Dashboard.tsx:128-134 | showing a non-empty date's display again gives back the date |
| Dashboard.PayloadDateIsDisplayedDate | utils.ts:35-38 | for a three-piece date, the payload date is the displayed date followed by a space and the time |
| Dashboard.RequestEncodesSubmission | components/Dashboard.tsx:78-97 | the kind is sent as "1" or "2"; the date parameter ends with the submitted time and, for a three-piece date, is the displayed date plus the time |
| Dashboard.InterpretCases | components/Dashboard.tsx:99-122 | success iff a 2xx answer's body has `resultCode` 1; a non-2xx status gives the HTTP message; another code gives the body's non-empty message or the fallback; a 2xx answer whose body cannot be read gives that Error's message; a thrown Error gives its message, and any other thrown value gives the network fallback |
| Dashboard.HttpRejectionNamesStatus | components/Dashboard.tsx:99-101 | the HTTP rejection starts with `HTTP `, and the number before the first colon is the status |
| Dashboard.RejectionMessageNonEmpty | components/Dashboard.tsx:116-122 | every rejection text the code itself writes is non-empty |
| Dashboard.Record | components/Dashboard.tsx:114 | the new history has the new entry first, then the older entries in order, for at most 10 entries |
| Dashboard.RecordAllNewestFirst | components/Dashboard.tsx:114 | after any run of successes, the history is the new entries newest first, then the old history, cut to 10 |
| Dashboard.OldEntriesEvicted | components/Dashboard.tsx:114 | after at least 10 successes, only the 10 newest entries remain |
| Dashboard.SamplesFromIsSample | components/Dashboard.tsx:37-40 | samples tied to a draw are exactly the generated times, and each lies in its kind's window |
| Dashboard.Dashboard.constructor | components/Dashboard.tsx:14-56 | first render: today's date, check-in, empty history, no error or submission, fresh samples, the check-in sample as the time with editing off, and the stored credentials or empty strings |
| Dashboard.Dashboard.Resample | components/Dashboard.tsx:37-47 | recomputing the samples resets the time to the current kind's new sample and switches editing off |
| Dashboard.Dashboard.HandleSubmit | components/Dashboard.tsx:64-126 | invalid time: no request and no state change. Missing credential: no request, the error is set and settings open, and nothing else in the history, submission or time changes. Otherwise: one request built from the state; success prepends the entry capped at 10, records the submission and resamples; failure leaves the history, clears the submission, sets the message, and resamples only if a submission was shown. The in-flight flag is false afterwards |
| Dashboard.Dashboard.SubmitToServer | components/Dashboard.tsx:73-125 | the part after the guards: the request sent and the state after each kind of answer, with the in-flight flag cleared |
| Dashboard.Dashboard.SelectDate | components/Dashboard.tsx:37-47 | a different date recomputes the samples and resets the time; the same date changes nothing |
| Dashboard.Dashboard.ChooseType | components/Dashboard.tsx:43-47 | switching kind keeps the samples, sets the time to the new kind's sample and switches editing off; choosing the same kind changes nothing |
| Dashboard.Dashboard.ToggleTimeEditing | components/Dashboard.tsx:305 | the edit button flips editing |
| Dashboard.Dashboard.EditTime | components/Dashboard.tsx:297-300 | typing changes the time only while editing is on |
| Dashboard.Dashboard.EditCredentials | components/Dashboard.tsx:168-179 | the settings fields replace the credentials held in memory |
| Dashboard.Dashboard.SaveSettings | components/Dashboard.tsx:58-62 | the stored values are the current credentials, and the panel closes |
| CalendarModal.NextIsSuccessor | components/CalendarModal.tsx:32-37 | forward moves a real month to the next calendar month (December to January of year+1) and keeps the month in 0..11 |
| CalendarModal.PrevIsPredecessor | components/CalendarModal.tsx:25-30 | back moves a real month to the previous calendar month (January to December of year-1) and keeps the month in 0..11 |
| CalendarModal.PrevUndoesNext | components/CalendarModal.tsx:25-37 | back after forward restores the view, for every month except -1 |
| CalendarModal.NextUndoesPrev | components/CalendarModal.tsx:25-37 | forward after back restores the view, for every month except 12 |
| CalendarModal.NextNAdvances | components/CalendarModal.tsx:32-37 | k presses forward give the view k months after the start, always a real month |
| CalendarModal.YearsAhead | components/CalendarModal.tsx:32-37 | 12·n presses forward show the same month n years later |
| CalendarModal.DateClickRoundTrip | components/CalendarModal.tsx:13-40 | for a non-negative year (or NaN) and a month+1 that is non-negative (or NaN), a clicked date splits into three pieces that read back as year, month+1 and day, and a calendar opened on it shows the month it was clicked in |
| CalendarModal.DateClickPadding | components/CalendarModal.tsx:40 | for a real month of a non-negative year and a day in 1..31, the month and day pieces of a clicked date have two characters |
| CalendarModal.NegativeYearLosesView | components/CalendarModal.tsx:13-40 | the date clicked on day 5 of December of year -1 is `-1-12-05`; it splits into four pieces, and the calendar reopened on it shows January of year 0 |
| CalendarModal.TodayDateMatches | components/CalendarModal.tsx:97-98 | the "today" string equals the dashboard's today string, and the calendar opened on it shows the current month |
| CalendarModal.Calendar.constructor | components/CalendarModal.tsx:13-14 | the initial view is the parsed year and the parsed month minus one |
| CalendarModal.Calendar.PrevMonth | components/CalendarModal.tsx:25-30 | the view becomes the previous-month view of the old one |
| CalendarModal.Calendar.NextMonth | components/CalendarModal.tsx:32-37 | the view becomes the next-month view of the old one |
| CalendarModal.Calendar.HandleDateClick | components/CalendarModal.tsx:39-43 | the date handed back is the view's year, its month+1 padded to 2, and the day padded to 2, joined by dashes |

## Left out

- **HTTP transport.** `fetch` and the HTTP exchange become an abstract `Response`: a failed fetch with what it threw, or a status with a body. The proxy path, URL encoding of the query and the `Accept` header are not modelled. The request is the three query values and three header values.
- **Local storage.** Reads become optional parameters of the constructor. The write in `saveSettings` becomes the method's two results.
- **Randomness and the clock.** `Math.random` in `generateRandomTime` and in the log id, `Date.now` and `new Date()` become parameters. These are the draw offsets, `logId`, `now`, and year, month index and day.
- **Floating point.** JavaScript's floating-point numbers are modelled as integers or NaN.
- **`Number(s)`.** Only the empty string and digit strings are given their value; every other string becomes NaN. This leaves out whitespace, signs, fractions, exponents and hex.
- **Dashboard.Interpret:** a body `message` that is not a string is treated as absent. When such a value is truthy, the code passes it to `new Error`, and its string form becomes the message; the model does not cover that case.
- **Console output.** The `console.error` call in the catch block is not modelled.
- **Re-entry while in flight.** The `isSubmitting` flag is not modelled as a guard against concurrent submissions. Submissions run one after another, and `Valid()` requires the flag to be off between handlers.
- **Intermediate renders.** React may recompute the samples once while the request is pending, after `lastSubmission` is cleared. Only the final samples, from the last draw, are modelled.
- **`LogEntry.error`.** The optional field at types.ts:16 is never set by the code, so it is not modelled.
- **Calendar grid helpers.** `getDaysInMonth`, `getFirstDayOfMonth` and `isSameDay` are imported by the calendar but are not defined in the `utils.ts` of this repository. The day grid and the highlighting that depend on them are not part of this model.
- CalendarModal.DateClickRoundTrip, CalendarModal.DateClickPadding: stated for a non-negative year only. Pressing back past January of year 0 reaches negative years, and from there the code does not round-trip: the year's minus sign is cut by `split('-')`, as `CalendarModal.NegativeYearLosesView` shows.
- **CalendarModal.PrevUndoesNext, CalendarModal.NextUndoesPrev:** stated for views whose month is not -1 (respectively 12). From a month of -1 or 12, parsed from a date like `2024-00-05` or `2024-13-05`, the code does not restore the view.
- **UI layer.** Rendering, JSX, styling, modal open and close, `components/AuthPage.tsx`, `App.tsx` and `vite.config.ts` are not part of this model.
