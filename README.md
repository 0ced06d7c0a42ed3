# SetterFlow CRM dashboard — client-side logic in Dafny

This project models the client-side logic of a small sales dashboard for
leads (prospective students) and students, and proves properties about it.
The dashboard is a React/TypeScript application. The model covers six pieces:

- **Analytics view** (`App.tsx`).
  - The statistics memo: the lead total, the leads of the current month, the occurrence counts by country, interest and status, and the most frequent country and interest.
  - The filtered lead list: a search box and a status drop-down.
  - The two chart series.
- **Two-click date-range picker** (`components/DateRangePicker.tsx`).
  - Its selection state machine.
  - The days-in-month and Monday-first calendar arithmetic.
  - The button label.
  - The Clear / Apply / Cancel buttons.
- **Single-date picker** (`components/SingleDatePicker.tsx`).
  - `YYYY-MM-DD` parsing and formatting.
  - Synchronisation of the external value.
  - Clicks, month navigation and the Clear / Apply / Cancel buttons.
- **Student table helpers** (`components/AlumnosTable.tsx`): the status badge, the date reformatting, the page count, the pager guards and the body rows.
- **Lead table helpers** (`components/LeadsTable.tsx`): the priority colour, the score default, the status badge and the rows.
- **Student edit drawer** (`components/AlumnoDetailModal.tsx`): the edit buffer, single-field edits and the guarded save with its two outcomes.

The records and enumerations of `types.ts` become datatypes in module `Types`.

## Layout

| file | module | models |
|---|---|---|
| `wrappers.dfy` | `Wrappers` | `Option`, standing for `null` / `undefined` |
| `strings.dfy` | `Strings` | the JavaScript string built-ins the code uses: `String(n)`, `Number(s)`, `padStart(2, '0')`, `split`, `includes`, `toLowerCase` |
| `seqs.dfy` | `Seqs` | `Array.prototype.filter`, subsequences, `indexOf` |
| `calendar.dfy` | `Calendar` | `new Date(y, m, d)` with its normalisation, `getDay()`, day numbers, month navigation, the month grid |
| `types.dfy` | `Types` | `types.ts` |
| `dashboard.dfy` | `Dashboard` | `App.tsx` |
| `range_picker.dfy` | `RangePicker` | `components/DateRangePicker.tsx` |
| `single_picker.dfy` | `SinglePicker` | `components/SingleDatePicker.tsx` |
| `alumnos_table.dfy` | `AlumnosTable` | `components/AlumnosTable.tsx` |
| `leads_table.dfy` | `LeadsTable` | `components/LeadsTable.tsx` |
| `alumno_modal.dfy` | `AlumnoModal` | `components/AlumnoDetailModal.tsx` |

### Modelling choices

- **Dates.** A `Date` built by the code is always at local midnight, so it is modelled as its triple (`getFullYear()`, `getMonth()` counted from 0, `getDate()`).
  - Timestamp comparison becomes the lexicographic order `Before`.
  - `BeforeIffDayNumber` proves that this order is the order of day numbers.
  - `new Date(y, m, d)` is `Calendar.MakeDay`: it widens years 0..99 to 1900..1999, carries months past either end of the year, and carries days past either end of the month.
  - A JavaScript `Date` always holds a real day, so methods that receive a day from a grid cell require `ValidDate`.
- **Dictionaries.** A JavaScript object filled by `acc[key] = (acc[key] || 0) + 1` is a sequence of `Entry(name, value)` in insertion order, which is also the order `Object.entries` reports.
  - `countMap` and the two chart `reduce`s update that object in place, one element at a time. `Dashboard.CountMap` is the loop. `Dashboard.Tally` is the function that specifies it.
  - The two chart `reduce`s count the same way as `countMap`, so the chart methods reuse `CountMap`.
- **Stateful components become classes.**
  - Component state is a set of fields.
  - Each event handler is a method that states the whole new state.
  - The callbacks a component invokes are appended to a log:
    - `applied` (`onApply`) in the range picker;
    - `changes` (`onChange`) in the single picker;
    - `calls` in the edit drawer (`updateAlumno`, `onUpdateSuccess`, `onClose`).
  - Pure helpers inside a component are module-level functions.
- **Parameters instead of ambient values.**
  - The current time (`new Date()`) is a parameter called `today` or `now`.
  - The month of `new Date(l.fecha_registro)` is a function parameter `monthOf`, with `None` standing for an invalid date.
  - How the awaited `updateAlumno` call ends is the `outcome` parameter of `FinishSave` / `HandleSave`: it resolves to true (`Saved`) or false (`Failed`), or it rejects (`Threw`).

### Functions characterised by lemmas

Some functions model a source function directly. Their properties are stated by the lemmas and methods listed here rather than by a contract of their own, so these functions have no row in the table below.

| function | source | characterised by |
|---|---|---|
| `Strings.IntToString` | components/DateRangePicker.tsx:103 | `NatToString`, `DigitsOfNat`, `FormatFields` |
| `Strings.Contains` | App.tsx:71-73 | `ContainsIff` |
| `Calendar.MonthGrid` | components/DateRangePicker.tsx:51-97 | `GridColumns`, `ConsecutiveMonths` |
| `Dashboard.Increment`, `Dashboard.Tally` | App.tsx:48-51 | `CountMap` (the loop they specify), `IncrementWellFormed`, `TallyCounts`, `TallyKeys`, `TallyOrder`, `TallySum`, `TallyDistinct` |
| `Dashboard.Countries`, `Interests`, `Statuses` | App.tsx:53-55 | the `leads.map` projections; `ComputeStats`, `InteresSeries`, `PaisSeries` |
| `Dashboard.MatchesSearch`, `Dashboard.MatchesFilter` | App.tsx:71-74 | `MatchesSearchIff`, `SearchIgnoresCase`, `FilteredLeads`, `FilteredLeadsExact`, `FilterShowsAll` |
| `RangePicker.IsSelected`, `RangePicker.IsInRange` | components/DateRangePicker.tsx:41-49 | `InRangeStrict`, `RangePartition` |
| `RangePicker.Fmt`, `RangePicker.Label` | components/DateRangePicker.tsx:101-106 | `FmtParts`, `FmtInjective`, `LabelFields`, `LabelPlaceholder` |
| `SinglePicker.FormatLocalYMD` | components/SingleDatePicker.tsx:22-27 | `FormatFields`, `ParseFormat`, `FormatParse`, `ApplyThenSync` |
| `LeadsTable.PriorityColor` | components/LeadsTable.tsx:26-30 | `PriorityTier`, `TierMonotone`, `MissingScore` |
| `LeadsTable.StatusBadge` | components/LeadsTable.tsx:12-24 | `StatusBadgeCases`, `StatusBadgeOfEnum` |

## Model

| member | source | states |
|---|---|---|
| Strings.ToNumber | components/SingleDatePicker.tsx:17 | `Number(s)` is defined exactly for strings of decimal digits, and the empty string reads as 0 |
| Strings.NatToString | components/SingleDatePicker.tsx:23-25 | `String(n)` is a non-empty string of digits with a leading zero only for 0 |
| Strings.DigitsOfNat | components/SingleDatePicker.tsx:17-25 | reading back the digits that `String(n)` prints gives n |
| Strings.NatOfDigits | components/SingleDatePicker.tsx:17-25 | printing the value of a canonical digit string gives the string back |
| Strings.PadStart2 | components/SingleDatePicker.tsx:24-25 | `padStart(2, '0')` keeps the string as a suffix and puts only zeros in front, up to length two |
| Strings.TwoDigits | components/SingleDatePicker.tsx:24-25 | a two-digit field is the padded print of the number it denotes |
| Strings.PaddedValue | components/SingleDatePicker.tsx:24-25 | the padded print of a number below 100 is all digits and reads back as the number |
| Strings.Split | components/AlumnosTable.tsx:45 | `split(sep)` returns at least one part, and no part contains the separator |
| Strings.JoinSplit | components/AlumnosTable.tsx:45 | joining the parts with the separator gives the original string |
| Strings.SplitCount | components/AlumnosTable.tsx:45-46 | there is one part more than there are separators |
| Strings.SplitThree | components/SingleDatePicker.tsx:17 | three separator-free pieces joined by the separator split back into exactly those pieces |
| Strings.ToLower | App.tsx:71-73 | `toLowerCase` keeps the length, turns each ASCII capital into its small letter (32 code points on) and keeps every other character |
| Strings.SameUpToCaseIff | App.tsx:71-73 | two strings lower-case to the same text exactly when they differ only in the case of ASCII letters |
| Strings.ContainsIff | App.tsx:71-73 | `includes(t)` holds exactly when t occurs at some position |
| Seqs.Filter | App.tsx:46 | `filter` returns at most as many elements as it gets, and every one passes the test |
| Seqs.FilterIsSubsequence | App.tsx:70-76 | `filter` keeps the input's order |
| Seqs.FilterMultiset | App.tsx:70-76 | every passing element is kept as often as it occurs, and no other element is kept |
| Seqs.FilterAll | App.tsx:70-76 | when every element passes, `filter` returns the input |
| Seqs.FilterLength | App.tsx:46 | the filtered length is the number of positions that pass |
| Calendar.Normalize | components/DateRangePicker.tsx:20 | an out-of-range day is carried month by month to a valid day with the same day number |
| Calendar.MakeDay | components/DateRangePicker.tsx:69 | `new Date(y, m, d)` gives a valid day exactly d - 1 days after the first of month m of the widened year |
| Calendar.MakeDayOfValid | components/DateRangePicker.tsx:69 | a valid day with a year outside 0..99 is built exactly as written |
| Calendar.BeforeIffDayNumber | components/DateRangePicker.tsx:33 | comparing timestamps of midnight dates is comparing calendar days; equal day numbers mean the same day |
| Calendar.DaysBeforeYearFormula | components/DateRangePicker.tsx:19-21 | the year-by-year day count equals the Gregorian closed form |
| Calendar.GetDaysInMonth | components/DateRangePicker.tsx:19-21 | `new Date(year, month + 1, 0).getDate()` is the Gregorian month length: 28..31, and 29 exactly for February of a leap year |
| Calendar.Weekday | components/DateRangePicker.tsx:24 | `getDay()` lies in 0..6 |
| Calendar.EpochWeekday | components/DateRangePicker.tsx:24 | 1 January 1970 is a Thursday (4), matching `getDay()` |
| Calendar.StartDayOfMonth | components/DateRangePicker.tsx:23-27 | Sunday (0) becomes 6 and day k becomes k - 1, so the result is in 0..6; it is the first's day number modulo 7 |
| Calendar.PrevMonth | components/DateRangePicker.tsx:124 | the left arrow shows day 1 of the previous month, rolling the year back from January |
| Calendar.NextMonth | components/DateRangePicker.tsx:130 | the right arrow shows day 1 of the next month, rolling the year on from December |
| Calendar.NavigationInverse | components/DateRangePicker.tsx:124-130 | going forward and back (and back and forward) returns to the month shown, for every year except -1..100, where one of the steps lands in a year `new Date` widens |
| Calendar.FirstOfMonth | components/DateRangePicker.tsx:14 | the initial view is day 1 of today's month |
| Calendar.GridColumns | components/DateRangePicker.tsx:51-97 | the grid has one blank per offset column, then each day of the month once, in order, in the column of its weekday |
| Calendar.ConsecutiveMonths | components/DateRangePicker.tsx:99 | the second grid starts in the column where the first one ended |
| Types.LeadStatusMember | types.ts:2-8 | exactly the five declared member names yield a value, and it is one of the enum's strings; any other name, `IN_PROCESS` and `NOT_FIT` included, yields `undefined` |
| Dashboard.CountMap | App.tsx:48-51 | the in-place counting loop builds exactly `Tally(arr)`, with distinct keys and positive counts |
| Dashboard.IncrementWellFormed | App.tsx:49 | one increment adds 1 to that key's count and leaves every other count and every earlier key in place |
| Dashboard.TallyCounts | App.tsx:48-51 | every key's count is its number of occurrences |
| Dashboard.TallyKeys | App.tsx:48-51 | the keys are exactly the distinct input values |
| Dashboard.TallyOrder | App.tsx:48-51 | keys are in order of first occurrence |
| Dashboard.TallySum | App.tsx:48-51 | the counts add up to the input length |
| Dashboard.TallyDistinct | App.tsx:48-51 | values that occur once each are listed in input order, each with count 1 |
| Dashboard.TopCountMaximal | App.tsx:57-58 | the first maximal entry of a tally has the highest occurrence count of any value |
| Dashboard.TopFirstAmongTies | App.tsx:57-58 | among equally frequent values, the first maximal entry is the one seen first |
| Dashboard.TopIndex | App.tsx:57-58 | picks an entry with maximal count, and no earlier entry has that count |
| Dashboard.StableSortHead | App.tsx:58 | any stable sort by descending count puts the first maximal entry first |
| Dashboard.GetTop | App.tsx:57-58 | gives 'N/A' for an empty map or an empty winning key, and the winning key otherwise |
| Dashboard.GetTopMostFrequent | App.tsx:57-58 | the top key is a most frequent value and, among ties, the one that occurs first; an empty input gives 'N/A' |
| Dashboard.LeadsMes | App.tsx:45-46 | the month's count lies between 0 and the lead total |
| Dashboard.LeadsMesCounts | App.tsx:45-46 | `leadsMes` is the number of leads whose registration month, of any year, is the current month |
| Dashboard.ComputeStats | App.tsx:43-67 | `totalLeads` is the lead count; `leadsMes`, `leadsPorEstado`, `topPais` and `interesComun` are the functions above |
| Dashboard.FilteredLeads | App.tsx:69-77 | every listed lead matches the search and the status filter |
| Dashboard.FilteredLeadsExact | App.tsx:69-77 | the list keeps the leads' order, and keeps each matching lead as often as it occurs and no other |
| Dashboard.FilterShowsAll | App.tsx:69-77 | an empty search with 'Todos' lists every lead |
| Dashboard.SearchIgnoresCase | App.tsx:71-73 | a match on the name or the country holds for the search term in any case; only the telephone is compared as typed |
| Dashboard.MatchesSearchIff | App.tsx:71-73 | name and country match ignoring case; the phone number matches as typed |
| Dashboard.ChartDataInteres | App.tsx:79-85 | the interest series is the interest count |
| Dashboard.InteresSeries | App.tsx:79-85 | one point per distinct interest, first occurrence first, with exact counts summing to the lead total |
| Dashboard.CountryBars | App.tsx:92 | `slice(0, 5)` keeps the first min(5, n) entries unchanged |
| Dashboard.ChartDataPais | App.tsx:87-93 | the country series is the first five entries of the country count |
| Dashboard.PaisSeries | App.tsx:87-93 | at most five bars, each a country of the input with its exact count, by first occurrence |
| Dashboard.PaisSeriesNotTopFive | App.tsx:92 | the most frequent country is dropped when it is the sixth to appear |
| RangePicker.Click | components/DateRangePicker.tsx:29-39 | with no start or a complete range a click starts over; otherwise it completes the range with the two days in order, and a click on the start gives a one-day range |
| RangePicker.SecondClick | components/DateRangePicker.tsx:33-37 | a second click before the start swaps the ends; any other second click sets the end |
| RangePicker.ClicksOrdered | components/DateRangePicker.tsx:29-39 | over any click sequence from an ordered selection (the initial empty one included), an end implies a start, and the start is never after the end |
| RangePicker.ThirdClickResets | components/DateRangePicker.tsx:30-31 | three clicks from empty leave only the third day as start |
| RangePicker.InRangeStrict | components/DateRangePicker.tsx:46-49 | in range means both ends set and strictly between them by day number, so an end is never in range |
| RangePicker.RangePartition | components/DateRangePicker.tsx:41-49 | for a complete range each day is before it, on an end, inside it, or after it |
| RangePicker.Abbrev | components/DateRangePicker.tsx:103 | the month abbreviation has three letters and no space |
| RangePicker.AbbrevDistinct | components/DateRangePicker.tsx:17 | the twelve abbreviations differ |
| RangePicker.FmtParts | components/DateRangePicker.tsx:103 | `fmt(d)` is the day's digits, a space, and the abbreviation with a dot |
| RangePicker.FmtInjective | components/DateRangePicker.tsx:103 | different days of the year get different labels |
| RangePicker.LabelFields | components/DateRangePicker.tsx:101-106 | the label is "D mmm." for a start only, and "D mmm. - D mmm. YYYY" with the end's year for a complete range |
| RangePicker.LabelPlaceholder | components/DateRangePicker.tsx:102 | "Seleccionar fechas" is shown exactly when there is no start |
| RangePicker.DateRangePicker.constructor | components/DateRangePicker.tsx:11-15 | closed, showing today's month, with nothing selected and nothing reported |
| RangePicker.DateRangePicker.SecondMonth | components/DateRangePicker.tsx:99 | the second grid shows day 1 of the month after the one in view, right after its last day |
| RangePicker.DateRangePicker.Toggle | components/DateRangePicker.tsx:111 | the button flips the pop-up and changes nothing else |
| RangePicker.DateRangePicker.HandleDateClick | components/DateRangePicker.tsx:29-39 | the selection becomes `Click(old selection, d)` and stays ordered, with both ends real days |
| RangePicker.DateRangePicker.ShowPreviousMonth | components/DateRangePicker.tsx:124 | the view moves to the previous month; nothing else changes |
| RangePicker.DateRangePicker.ShowNextMonth | components/DateRangePicker.tsx:130 | the view moves to the next month; nothing else changes |
| RangePicker.DateRangePicker.Clear | components/DateRangePicker.tsx:144 | the selection is emptied, the empty range is reported, and the pop-up closes |
| RangePicker.DateRangePicker.Apply | components/DateRangePicker.tsx:157 | the selection is reported unchanged and the pop-up closes |
| RangePicker.DateRangePicker.Cancel | components/DateRangePicker.tsx:151 | Cancel and the backdrop click (line 120) close the pop-up without reporting and without touching the selection |
| SinglePicker.ParseFields | components/SingleDatePicker.tsx:17-18 | a valid day results exactly when there are at least three parts and the first three are numbers |
| SinglePicker.ParseLocalYMD | components/SingleDatePicker.tsx:15-19 | the empty string means now, and any other string is parsed |
| SinglePicker.FormatFields | components/SingleDatePicker.tsx:22-27 | the formatted day splits at '-' into the year's digits and two two-digit fields |
| SinglePicker.ParseFormat | components/SingleDatePicker.tsx:15-27 | formatting a day from year 100 on and parsing it back gives the same day |
| SinglePicker.FormatParse | components/SingleDatePicker.tsx:15-27 | a `YYYY-MM-DD` string of a real day whose year is 1000 or later, written with no leading zero, is formatted back to itself |
| SinglePicker.ParseOverflow | components/SingleDatePicker.tsx:18 | "2024-02-30" is read as 1 March 2024, not rejected |
| SinglePicker.SingleDatePicker.constructor | components/SingleDatePicker.tsx:30-34 | the first state: a usable value is parsed, an invalid one falls back to now, and the selection is set whenever the value is non-empty; this state exists only until the `[value]` effect runs (see `SinglePicker.Mount`) |
| SinglePicker.SingleDatePicker.SyncValue | components/SingleDatePicker.tsx:36-48 | a valid value selects that day and shows its month; an empty or invalid value clears the selection and keeps the view |
| SinglePicker.SingleDatePicker.IsDaySelected | components/SingleDatePicker.tsx:98-101 | a cell is highlighted iff its year, month and day equal the selection's |
| SinglePicker.SingleDatePicker.HandleDateClick | components/SingleDatePicker.tsx:62-64 | a click only sets the selection and reports nothing |
| SinglePicker.SingleDatePicker.ShowPreviousMonth | components/SingleDatePicker.tsx:77 | the view moves to day 1 of the previous month |
| SinglePicker.SingleDatePicker.ShowNextMonth | components/SingleDatePicker.tsx:84 | the view moves to day 1 of the next month |
| SinglePicker.SingleDatePicker.Toggle | components/SingleDatePicker.tsx:131 | the field flips the pop-up and changes nothing else |
| SinglePicker.SingleDatePicker.Clear | components/SingleDatePicker.tsx:147 | the selection is cleared, '' is reported, and the pop-up closes |
| SinglePicker.SingleDatePicker.Cancel | components/SingleDatePicker.tsx:154 | Cancel and the backdrop (line 140) close without reporting or changing the selection |
| SinglePicker.SingleDatePicker.Apply | components/SingleDatePicker.tsx:160-164 | the formatted selection, or '' without one, is reported, and the pop-up closes |
| SinglePicker.Mount | components/SingleDatePicker.tsx:30-48 | after mounting (first render, then the `[value]` effect) the selection is the day the value denotes, if any, and the view shows its month, or the month of now |
| SinglePicker.ApplyThenSync | components/SingleDatePicker.tsx:36-48 | a reported day, bound back as the value, is selected again |
| AlumnosTable.StatusBadge | components/AlumnosTable.tsx:27-40 | the four student states get their own colour and every other status is grey; the text is the status itself, or 'Sin estado' when it is empty |
| AlumnosTable.StatusTones | components/AlumnosTable.tsx:27-36 | different states get different colours |
| AlumnosTable.FormatDate | components/AlumnosTable.tsx:42-50 | '' gives 'N/A'; a string without exactly two '-' is shown unchanged |
| AlumnosTable.FormatDateReorders | components/AlumnosTable.tsx:45-46 | `a-b-c` is shown as `c/b/a` |
| AlumnosTable.FormatDateReversible | components/AlumnosTable.tsx:45-46 | splitting the shown date at '/' gives the parts back, reversed |
| AlumnosTable.TotalPages | components/AlumnosTable.tsx:56 | the pages hold every record, one page fewer would not, and there are 0 pages for no records |
| AlumnosTable.TotalPagesLeast | components/AlumnosTable.tsx:56 | the page count is the least number of pages that holds all records |
| AlumnosTable.PagerShown | components/AlumnosTable.tsx:122 | the pager appears exactly when there are more records than one page holds |
| AlumnosTable.PrevRequest | components/AlumnosTable.tsx:128-130 | the left arrow is disabled exactly on page 1, and otherwise asks for the page before |
| AlumnosTable.NextRequest | components/AlumnosTable.tsx:138-140 | the right arrow is disabled exactly on the last page, and otherwise asks for the page after |
| AlumnosTable.PagingInBounds | components/AlumnosTable.tsx:128-141 | from any page in 1..totalPages both arrows only ask for pages in 1..totalPages |
| AlumnosTable.Initial | components/AlumnosTable.tsx:92 | the avatar letter is the name's first character, or '?' for an empty name |
| AlumnosTable.Rows | components/AlumnosTable.tsx:83-117 | one row per student in order; the "no students" row appears iff the list is empty |
| LeadsTable.PriorityTier | components/LeadsTable.tsx:26-30 | violet iff the score is at least 80, blue iff it is 50..79, grey iff it is below 50 |
| LeadsTable.TierMonotone | components/LeadsTable.tsx:26-30 | a higher score never gets a lower tier |
| LeadsTable.EffectiveScore | components/LeadsTable.tsx:74-75 | a missing score counts as 0 |
| LeadsTable.MissingScore | components/LeadsTable.tsx:74-75 | a lead without a score is grey and shows "0%" |
| LeadsTable.StatusBadgeCases | components/LeadsTable.tsx:12-24 | 'Calificado' shows "Calificado", 'Contactado' shows "En proceso", everything else "Pendiente"; "No apto" never shows |
| LeadsTable.StatusBadgeOfEnum | components/LeadsTable.tsx:12-24 | of the five declared lead states, three show "Pendiente" |
| LeadsTable.FirstChar | components/LeadsTable.tsx:60 | `charAt(0)` is the first character, or '' |
| LeadsTable.Rows | components/LeadsTable.tsx:53-88 | one row per lead, in the order given |
| AlumnoModal.SameFields | types.ts:34-47 | two student records with equal fields are equal |
| AlumnoModal.WithField | components/AlumnoDetailModal.tsx:75-77 | the named field takes the new value and every other field keeps its value |
| AlumnoModal.WithFieldSame | components/AlumnoDetailModal.tsx:75-77 | writing a field's current value changes nothing |
| AlumnoModal.WithFieldCommutes | components/AlumnoDetailModal.tsx:75-77 | edits of different fields commute |
| AlumnoModal.WithFieldOverrides | components/AlumnoDetailModal.tsx:75-77 | the later of two edits of a field wins |
| AlumnoModal.AlumnoDetailModal.constructor | components/AlumnoDetailModal.tsx:60-62 | no buffer, not saving, no error, no calls; the `[alumno]` effect follows at once (see `AlumnoModal.Mount`) |
| AlumnoModal.AlumnoDetailModal.SyncAlumno | components/AlumnoDetailModal.tsx:64-73 | a record is copied into the buffer and the error cleared; no record empties the buffer, and the drawer renders exactly when there is a record |
| AlumnoModal.AlumnoDetailModal.HandleFieldChange | components/AlumnoDetailModal.tsx:75-77 | only the named field of the buffer changes; without a buffer nothing changes |
| AlumnoModal.AlumnoDetailModal.BeginSave | components/AlumnoDetailModal.tsx:80-85 | nothing happens without a buffer or with an empty phone; otherwise saving is on (the save button, line 179, is disabled), the error is cleared, and the whole buffer goes to `updateAlumno` under its current phone |
| AlumnoModal.AlumnoDetailModal.FinishSave | components/AlumnoDetailModal.tsx:87-93 | on success `onUpdateSuccess` (if given) and then `onClose` are called; on failure the fixed message is set, and in both cases saving is off; when the call rejects, nothing after the `await` runs, so saving stays on, the save button stays disabled and no error is shown |
| AlumnoModal.AlumnoDetailModal.HandleSave | components/AlumnoDetailModal.tsx:79-94 | the whole save: the calls made, the final `isSaving` and the final error for each of the three outcomes, including the rejected call that leaves `isSaving` on |
| AlumnoModal.Mount | components/AlumnoDetailModal.tsx:59-73 | after mounting (initial state, then the `[alumno]` effect) the buffer is the record, the drawer renders iff there is one, and no save is running |
| AlumnoModal.AlumnoDetailModal.RequestClose | components/AlumnoDetailModal.tsx:98 | the backdrop, the close icon (line 116) and "Cerrar" (line 172) ask to close and change nothing else |

## Left out

- Network, storage and auth are not modelled. `updateAlumno` is an abstract call whose outcome is a parameter. `services/supabase.ts` does not contain it, and the store's side of it is not part of this model. A rejected call is modelled as the outcome `Threw`: `handleSave` has no `try`/`finally`, so after a rejection the drawer stays saving with its save button disabled and no error shown.
- Rendering, CSS classes, icons and React re-render and memoisation timing are not modelled. The one exception is the colour choices that distinguish a switch's branches: the priority tiers and the student badge tones.
- `formatCurrency` (components/AlumnosTable.tsx:52-54) is not modelled, because it uses `Intl.NumberFormat`. The same goes for `toLocaleDateString('es-ES')` (components/SingleDatePicker.tsx:122-125).
- Money amounts, ids and scores are integers.
  - `Number(val)` on the money inputs (components/AlumnoDetailModal.tsx:153-154) is not modelled, because it involves floating point and NaN.
  - The drawer's form passes numbers to numeric fields and text to the others, which `Fits` states.
- Strings.ToNumber: accepts only decimal digit strings, plus '' as 0. `Number` also accepts surrounding whitespace, a sign, decimals, exponents and hex; the model reads these as NaN.
- SinglePicker.ParseFields: inherits the `ToNumber` restriction above. Fractional or out-of-range parts, and dates beyond the JavaScript `Date` range of ±8.64e15 ms, are not modelled.
- SinglePicker.FormatParse: holds from year 1000 on. Below that the source does not round-trip: "0999-01-01" is formatted back as "999-01-01", because `String(year)` is not padded, and "0050-01-01" is read as 1950, because `new Date` widens years 0..99.
- Strings.ToLower: folds ASCII letters only. JavaScript's `toLowerCase` also folds other Unicode letters.
- Dashboard.LeadsMes: the month of `new Date(fecha_registro)` is the parameter `monthOf`. That function is abstract, so the model does not capture its UTC-versus-local parsing.
- Dashboard.Tally: keys are kept in insertion order. `Object.entries` would list keys that look like array indices ("1", "42") first. Keys like `__proto__` that clash with `Object.prototype` are not modelled either.
- AlumnosTable.TotalPages: requires `pageSize > 0`. With 0, `Math.ceil` receives Infinity or NaN. The component that renders `AlumnosTable` and chooses `pageSize` is not part of this model, so a positive size is assumed.
- RangePicker: `onApply` has no consumer among the components modelled. The log `applied` records what would be passed to it.
- The month-name header of the grids (`months[month]`) and the weekday letters are display only.
- The lead detail modal, the sidebar, the stat cards, the sales chart, the login form and the auth context are not part of this model.
