# Calendar reminders — a Dafny model

This project models the core of a single-page month calendar. Users file
reminders on days, and each reminder carries a weather label fetched for
its city and moment. The model has three parts:

- **The store** (`src/store.ts`). This is a map from `YYYY-MM-DD` day keys
  to that day's reminders, kept in time order. It has four mutations: add,
  update (which may move a reminder to another day), delete and clear-a-day.
  It also holds the month shown on screen. Every mutation that changes the
  index writes it through to browser storage. An update of an unknown id
  changes and writes nothing, and only `setMonthStart` writes the month.
- **The weather lookup** (`src/weather.ts`). This covers the WMO code
  labels, rounding a `HH:MM` time to the nearest hour, and picking the
  hourly code for a reminder. The code is taken at the exact hour key when
  the forecast has one; otherwise it is taken at the first hour nearest to
  the target moment.
- **The application logic** (`src/App.tsx`). This covers:
  - the month grid and its rows of seven;
  - the weather icon chosen by keyword;
  - the editor's starting values and its `valid` test;
  - the reminder a submit builds, and whether saving adds it or updates it;
  - what a day cell lists, folds into "+N more" and offers to clear.

Modules:

- `Text` and `Numbers` model the JavaScript string and number primitives.
  These are `slice`, `trim`, `toLowerCase`, `includes`, `parseInt`,
  `String`, `padStart` and the truncating `%`.
- `Reminders` models the per-day lists: filtering by id, and the stable
  sort by time.
- `ReminderIndex` models the four index transformations. The index keeps
  its key order, because `updateReminder` searches days in object key order.
- `Store` models the store with write-through storage.
- `Weather`, `WeatherIcon`, `MonthGrid`, `Editor` and `DayCell` model the
  parts named by their modules.
- `Scenarios` holds concrete runs. One is the flow of the repository's own
  test (`src/__tests__/addReminder.test.tsx`).

Inputs that come from outside the code become parameters:

- the clock: `today`, `firstOfThisMonth`;
- the id `uid()` draws: `freshId`;
- whether a storage write succeeded: `stored`;
- the date parser: `toISO` for `new Date(d).toISOString()`, and `instant`
  for `+new Date(t)`;
- the geocoder, the forecast request and the date parser of
  `getWeatherSummary`: the functions of `Weather.Services`, each returning
  `None` where the request fails or throws.

The index invariants the store is meant to keep are collected in
`ReminderIndex.Tidy`:

- every day is sorted by time;
- no day is empty;
- every reminder is filed under its own date's key;
- no id occurs twice.

## Model

| member | source | states |
|---|---|---|
| Text.Slice | src/store.ts:90 | `slice(0, n)` gives a prefix of `s` of length `n`, or all of `s` when it is shorter |
| Text.Trim | src/App.tsx:202-204 | `trim()` is no longer than its argument and has no whitespace at either end |
| Text.TrimIsInnerPiece | src/App.tsx:202-204 | `trim()` keeps a contiguous piece of the field; everything cut away on either side is whitespace; the piece has no whitespace at either end |
| Text.TrimEmptyIffBlank | src/App.tsx:188 | a trimmed field is empty exactly when the field is all whitespace |
| Text.TrimIdempotent | src/App.tsx:202-204 | trimming a saved text or city again changes nothing |
| Text.TrimOfInnerPiece | src/App.tsx:202-204 | a string with no whitespace at either end is left as it is |
| Text.ToLower | src/App.tsx:26 | the lower-cased summary has the same length and no upper-case ASCII letter; each of `A`..`Z` becomes the letter 32 code points above it, every other character is kept |
| Text.ContainsIffOccursAt | src/App.tsx:27-35 | `includes(p)` holds exactly when `p` occurs at some position |
| Text.AbsentChar | src/App.tsx:27-35 | a keyword holding a character the summary lacks is not included in it |
| Text.Contains | src/App.tsx:27-35 | `includes(p)` needs `p` to be no longer than `s`, and the empty pattern is always included |
| Text.LexLeTotal | src/store.ts:91-93 | any two times compare one way or the other |
| Text.LexLeTransitive | src/store.ts:91-93 | the time comparison is transitive |
| Text.LexLeAntisymmetric | src/store.ts:91-93 | times that compare both ways are equal |
| Text.LexLeReflexive | src/store.ts:91-93 | every time compares no later than itself |
| Text.LexLe | src/store.ts:91-93 | a time sorts no later than any string it is a prefix of |
| Numbers.JsRem | src/weather.ts:35 | `%` is `a - b * q` for the quotient `q` truncated toward zero: the mathematical remainder on non-negative operands, and in `(-b, 0]` on negative ones |
| Numbers.ParseIntOfIntToString | src/weather.ts:33-36 | `parseInt(String(n))` is `n` for every integer of the model (exact integers; see "Left out") |
| Numbers.ParseIntOfTwoDigits | src/weather.ts:33-36 | a two-digit hour or minute parses back to its value |
| Numbers.PadStart2OfIntToString | src/weather.ts:36 | `String(n).padStart(2, "0")` of 0..99 is its two-digit form |
| Numbers.ParseIntOfNonNumeric | src/weather.ts:33 | a string starting with neither whitespace, a sign nor a digit parses to `NaN` |
| Numbers.ParseIntShape | src/weather.ts:33-34 | a blank string parses to `NaN`; a number needs a sign or a digit right after the leading whitespace, and a negative one a minus sign |
| Numbers.IntToStringShape | src/weather.ts:36 | `String(n)` starts with a minus sign exactly when `n` is negative, then has only digits, with no leading zero unless `n` is 0 |
| Numbers.PadStart2 | src/weather.ts:36 | `padStart(2, "0")` gives at least two characters, ends with the original string, and fills in front with zeros only |
| Reminders.Without | src/store.ts:117 | the filter removes every reminder with the id and keeps every other id's count; the result is a sub-multiset; a list without the id is unchanged |
| Reminders.Insert | src/store.ts:91-93 | one step of the sort adds exactly `r` and keeps a sorted list sorted |
| Reminders.InsertKeepsOrder | src/store.ts:91-93 | stability: `r` lands after every reminder not later than it, and the rest keep their order |
| Reminders.InsertPosSplitsSorted | src/store.ts:91-93 | in a sorted day every reminder after the insertion point is strictly later than `r` |
| Reminders.SortByTime | src/store.ts:91-93 | `sort` by time yields a sorted permutation of its input |
| Reminders.SortOfSorted | src/store.ts:121 | sorting a list already in time order leaves it unchanged |
| Reminders.SortAppendOne | src/store.ts:91-93 | `[...day, r].sort(...)` on a sorted day is inserting `r` |
| Reminders.WithoutSorted | src/store.ts:117 | filtering a sorted day keeps it sorted |
| Reminders.CountIdSort | src/store.ts:121 | sorting does not change how often an id occurs |
| Reminders.CountIdPositive | src/store.ts:110 | an id's count is positive exactly when some reminder carries it |
| Reminders.DayKey | src/store.ts:90 | a full date files under its first ten characters, and a day key is its own day key |
| Reminders.WithoutSingle | src/store.ts:117 | filtering one reminder keeps it exactly when its id differs |
| Reminders.WithoutSnoc | src/store.ts:117 | filtering a list with one more reminder at its end filters the list and then that reminder |
| Reminders.WithoutConcat | src/store.ts:117 | the filter distributes over concatenation, so every reminder kept stays in its relative order |
| ReminderIndex.Put | src/store.ts:94 | `{ ...ix, [k]: v }` sets `k` and nothing else; an existing key keeps its place and a new key goes last |
| ReminderIndex.LookupNonEmptyIff | src/store.ts:91 | `remindersByDate[k] || []` lists reminders only for a key in the index, and for every such key when no day is empty |
| ReminderIndex.Remove | src/store.ts:146 | `{ [k]: _, ...rest }` drops exactly `k`, keeping the other keys in their order; an absent key leaves the index alone |
| ReminderIndex.AddReminder | src/store.ts:88-97 | the new day holds the old day's reminders plus `r`, sorted; every other day is unchanged; a new day key goes last and existing keys keep their order |
| ReminderIndex.AddIntoSortedDay | src/store.ts:91-93 | on a sorted day `r` goes after every reminder not later than it and before every later one |
| ReminderIndex.CountIdAfterAdd | src/store.ts:88-94 | adding `r` adds one occurrence of `r.id` to its day and none of any other id |
| ReminderIndex.AddKeepsTidy | src/store.ts:88-97 | adding a reminder with an unused id keeps every index invariant |
| ReminderIndex.AddKeepsOncePerDay | src/store.ts:88-94 | adding an unused id leaves every id at most once on each day |
| ReminderIndex.AddKeepsDaysApart | src/store.ts:88-94 | adding an unused id never leaves an id on two days |
| ReminderIndex.AddDuplicateBreaksUniqueness | src/store.ts:88-97 | no duplicate check is made: adding an id already filed leaves it twice in the index |
| ReminderIndex.FirstDayWith | src/store.ts:107-113 | `findIndex` over the flattened entries finds the first day in key order holding the id, or none |
| ReminderIndex.PreviousDay | src/store.ts:107-113 | a previous day is found exactly when the id occurs, and that day holds it |
| ReminderIndex.Refile | src/store.ts:117-121 | the id is filtered out of the previous day, then `r` is filed on its new day, sorted |
| ReminderIndex.DropIfEmpty | src/store.ts:124 | a day left empty is deleted and the other keys keep their order; otherwise nothing changes |
| ReminderIndex.MoveReminder | src/store.ts:114-124 | the new day holds the sorted joined list; the previous day survives exactly when filtering left something; no other day changes |
| ReminderIndex.MoveReminderKeys | src/store.ts:114-124 | after a move existing keys keep their place, a new day's key is appended, and an emptied previous day's key is removed |
| ReminderIndex.UpdateReminder | src/store.ts:104-128 | an unknown id changes nothing; otherwise the reminder is moved from the first day holding it |
| ReminderIndex.UpdateReminderKeys | src/store.ts:104-128 | an update keeps the key order for an unknown id, and otherwise leaves the order a move leaves |
| ReminderIndex.UpdateSameDay | src/store.ts:117-124 | on the same day the list becomes the others plus `r`, sorted, and the day is never dropped |
| ReminderIndex.UpdateTouchesTwoDays | src/store.ts:114-124 | an update touches only the previous and the new day; the previous day is dropped exactly when emptied |
| ReminderIndex.MoveCounts | src/store.ts:117-121 | the count of any id on any day after a move is given in terms of the counts before it |
| ReminderIndex.UpdateFilesOnce | src/store.ts:104-124 | with unique ids, after an update the id occurs exactly once: on its new day, which is sorted |
| ReminderIndex.MoveFilesOnce | src/store.ts:117-121 | with unique ids, after the move the id sits exactly once on its new day, which is sorted |
| ReminderIndex.MoveClearsOthers | src/store.ts:117-124 | with unique ids, after the move the id occurs on no other day |
| ReminderIndex.UpdateKeepsTidy | src/store.ts:104-128 | updating keeps every index invariant |
| ReminderIndex.DeleteReminder | src/store.ts:131-140 | a day is kept exactly when filtering leaves it non-empty, and then holds the filtered list; the id occurs nowhere; no day is empty |
| ReminderIndex.DeleteIdempotent | src/store.ts:131-140 | deleting an id twice is the same as deleting it once |
| ReminderIndex.DeleteAbsentIsNoop | src/store.ts:131-140 | with no empty days, deleting an id that occurs nowhere returns the same index, key order included |
| ReminderIndex.DeleteKeepsTidy | src/store.ts:131-140 | deleting keeps every index invariant |
| ReminderIndex.ClearDay | src/store.ts:143-149 | the date's day key is gone; every other day is kept as it was; an absent day makes it a no-op |
| ReminderIndex.ClearDayIdempotent | src/store.ts:143-149 | clearing a day twice is the same as clearing it once |
| ReminderIndex.ClearDayThenRead | src/store.ts:143-149 | after clearing, reading the day gives no reminders |
| ReminderIndex.ClearDayKeepsTidy | src/store.ts:143-149 | clearing keeps every index invariant |
| Store.Load | src/store.ts:43-65 | the stored month is used when it is a non-empty string, the current month otherwise; the stored index is used when present, an empty one otherwise |
| Store.Next | src/store.ts:82-149 | `setMonthStart` replaces the month and keeps the index; every other mutation keeps the month |
| Store.Apply | src/store.ts:36-40 | memory always takes `Next(s, a)`; storage receives the changed part unless the write is refused or the update found no id |
| Store.ApplyKeepsSynced | src/store.ts:82-149 | write-through keeps storage equal to memory after every mutation |
| Store.LoadAfterApply | src/store.ts:43-70 | reloading after a mutation gives back the state the mutation produced |
| Store.LoadAfterApplyIndex | src/store.ts:43-65 | from any storage whose index matches memory, reloading after a mutation gives back the index it produced, whether or not the month was ever written |
| Store.FirstStartNotSynced | src/store.ts:59-65 | on a first start the month is read from the clock and not written, so memory and storage differ |
| Store.LoadEmptyStorage | src/store.ts:43-65 | empty storage starts on the current month with no reminders |
| Store.UpdateUnknownIsSilent | src/store.ts:110-111 | updating an unknown id neither changes the state nor writes |
| Store.NextKeepsTidy | src/store.ts:82-149 | every mutation keeps the index invariants, provided an added id is new |
| Store.RunKeepsTidy | src/store.ts:77-150 | any sequence of mutations that adds only new ids keeps the index invariants |
| MonthGrid.RoundUpToWeek | src/App.tsx:20 | padding stops at the first multiple of 7 not below the length |
| MonthGrid.Grid | src/App.tsx:11-23 | the grid has `leading` blanks, then days 1..n in order, then blanks up to a whole number of weeks |
| MonthGrid.Weeks | src/App.tsx:257-261 | the rows concatenate back to the cells; every row but the last has 7 cells; all have 7 when the length is a multiple of 7 |
| MonthGrid.GridWeeks | src/App.tsx:254-276 | the month splits into whole weeks whose concatenation is the grid, and day `d` sits at position `leading + d - 1` |
| Weather.WmoToText | src/weather.ts:18-29 | a code gets its label from the WMO table exactly when the table lists it; every other code gets "Unknown" |
| Weather.CodeLabel | src/weather.ts:62-75 | a `null` or missing code gets "Unknown" |
| Weather.WmoLabelsCovered | src/weather.ts:18-29 | every label other than "Unknown" is given to some code of the table |
| Weather.HourMinuteFields | src/weather.ts:32 | `split(":")` gives the text before the first colon, and the minutes field exactly when there is a colon; that field runs to the next colon or the end; without a colon the hour field is the whole text |
| Weather.MinutesText | src/weather.ts:34 | `mStr || "0"`: a non-empty minutes field is kept, an empty or missing one reads as "0" |
| Weather.Advance | src/weather.ts:35 | a `NaN` hour stays `NaN`; below 30 minutes the hour is kept; from 30 minutes it becomes `(h + 1) % 24` with the truncating remainder, negative for hours below -1 |
| Weather.HourText | src/weather.ts:36 | the padded hour has at least two characters and no colon |
| Weather.RoundToNearestHour | src/weather.ts:31-37 | the result always ends in ":00" after a colon-free hour |
| Weather.RoundWellFormed | src/weather.ts:31-37 | on `HH:MM` the result is `HH:00` below the half hour, and the next hour modulo 24 from it on |
| Weather.WellFormedFields | src/weather.ts:32-34 | the fields of a two-digit `HH:MM` parse back to the hour and the minutes |
| Weather.RoundKeepsClockHour | src/weather.ts:31-37 | whatever the text, an hour field that parses to a clock hour rounds to a two-digit clock hour |
| Weather.RoundWrapsAtMidnight | src/weather.ts:35 | "23:30" rounds to "00:00" |
| Weather.RoundMissingMinutes | src/weather.ts:32-34 | without a colon, the hour is kept |
| Weather.RoundEmptyMinutes | src/weather.ts:34 | an empty minutes field also keeps the hour |
| Weather.RoundIdempotent | src/weather.ts:31-37 | rounding a rounded time changes nothing, `NaN:00` included |
| Weather.ParseHourText | src/weather.ts:33-36 | the written hour parses back to the hour, `NaN` included |
| Weather.TargetKeyWellFormed | src/weather.ts:44-46 | for a full date and `HH:MM` time the key is the 16-character `YYYY-MM-DDTHH:00` of the rounded hour |
| Weather.HourKeyOfFullHour | src/weather.ts:44-46 | a full date and a two-character hour give a 16-character key |
| Weather.TargetKey | src/weather.ts:44-46 | the key is the date's first ten characters, a `T`, and a rounded time ending in ":00" |
| Weather.Scan | src/weather.ts:65-74 | the scan keeps its current best or moves it to a later position with a valid distance |
| Weather.Nearest | src/weather.ts:64-75 | the fallback index is the first position of least valid distance, 0 when none is valid |
| Weather.IndexOf | src/weather.ts:60 | `indexOf` gives the first position holding the key, or -1 exactly when the key is absent |
| Weather.CodeAt | src/weather.ts:62 | an index outside the series reads as a missing code |
| Weather.Distance | src/weather.ts:69 | the absolute difference of two instants; `NaN` when either is invalid |
| Weather.Distances | src/weather.ts:67-69 | one distance per hour of the series, measured from the target |
| Weather.ScanFindsFirstNearest | src/weather.ts:65-74 | the `forEach` keeps, at every step, the first position of least valid distance |
| Weather.NearestIsFirstNearest | src/weather.ts:64-75 | the fallback picks the first hour of least distance, and that is the only position with this property; it picks 0 when no distance is valid |
| Weather.FirstNearestUnique | src/weather.ts:65-74 | at most one position is the first nearest |
| Weather.NearestLabel | src/weather.ts:64-75 | the fallback label is that of the code at the first nearest hour |
| Weather.Select | src/weather.ts:58-78 | exact key with a non-null code gives that code's label; otherwise the nearest hour's label when both series are non-empty; otherwise none |
| Weather.WeatherSummary | src/weather.ts:39-82 | no geocoder hit or a failed request gives `null`; otherwise the selection at the reminder's target key |
| Weather.GetWeatherSummary | src/weather.ts:39-82 | the label is one of the known labels; no geocoder hit or no forecast gives `null`; otherwise it is the selection at the target key of the date and time |
| WeatherIcon.IconOf | src/App.tsx:27-36 | the icon is the thermometer exactly when no keyword occurs; otherwise it is the icon of the first keyword that occurs |
| WeatherIcon.NoSummaryIsThermometer | src/App.tsx:26-36 | a missing or empty summary shows the thermometer |
| WeatherIcon.IconOfFirstRule | src/App.tsx:27-36 | when keyword `k` is the first that occurs, its icon is shown |
| WeatherIcon.IconByMissingCharacters | src/App.tsx:27-36 | keyword `k` fires when it occurs and every earlier keyword is ruled out by a missing character |
| WeatherIcon.ClearIcon | src/App.tsx:27 | "Clear" shows the sun |
| WeatherIcon.CloudsIcon | src/App.tsx:28 | "Clouds" shows the cloud |
| WeatherIcon.DrizzleIcon | src/App.tsx:29 | "Drizzle" shows sun and rain |
| WeatherIcon.RainShowersIcon | src/App.tsx:30 | "Rain showers" shows sun and rain, not the rain icon |
| WeatherIcon.RainIcon | src/App.tsx:31 | "Rain" shows rain |
| WeatherIcon.SnowShowersIcon | src/App.tsx:32 | "Snow showers" shows snow |
| WeatherIcon.SnowIcon | src/App.tsx:33 | "Snow" shows snow |
| WeatherIcon.FogIcon | src/App.tsx:34 | "Fog" shows fog |
| WeatherIcon.ThunderstormIcon | src/App.tsx:35 | "Thunderstorm" shows the storm |
| WeatherIcon.UnknownIcon | src/App.tsx:36 | "Unknown" falls through to the thermometer |
| WeatherIcon.LabelIcons | src/App.tsx:25-37 | each of the ten labels shows its intended icon; the thermometer shows exactly for "Unknown" |
| WeatherIcon.CodeIcon | src/App.tsx:25-37 | the label of any weather code shows its intended icon |
| WeatherIcon.WxIcon | src/App.tsx:25-37 | the thermometer shows exactly when the lower-cased summary contains no keyword, so always for a missing one; otherwise the icon is that of the first keyword it contains |
| Editor.NewOn | src/App.tsx:283 | the ＋ button opens the editor with only the day and no id |
| Editor.Editing | src/App.tsx:284 | clicking a reminder opens the editor with its id and date |
| Editor.OpenForm | src/App.tsx:181-185 | each field starts from `initial` when present; otherwise "", "", today, "09:00", "#3b82f6" |
| Editor.ValidIff | src/App.tsx:188 | `valid` holds exactly when text and city are not all whitespace and the text has at most 30 characters |
| Editor.Valid | src/App.tsx:188 | a valid form has a text of 1..30 characters and a non-empty city |
| Editor.EditShowsReminder | src/App.tsx:181-185 | editing a reminder shows its fields unchanged |
| Editor.NewFormInvalid | src/App.tsx:181-188 | a new reminder's form starts on its day and cannot be saved as opened |
| Editor.ReminderId | src/App.tsx:201 | `?? uid()`: a present id is kept, even an empty one; only a missing one is replaced |
| Editor.Submit | src/App.tsx:195-208 | a reminder is built exactly when the form is valid and the date parses; it has trimmed text and city, the normalised date, and the weather fetched for the untrimmed city and the raw date and time |
| Editor.SubmittedReminder | src/App.tsx:188-204 | a saved reminder has a non-blank text of 1..30 characters and a non-blank city, neither with surrounding whitespace |
| Editor.TrimmedField | src/App.tsx:202-204 | a trimmed field is not longer than the field, is stable under trimming, and is blank only when empty |
| Editor.Heading | src/App.tsx:213 | the heading is "Edit reminder" exactly when the initial id is truthy |
| Editor.Save | src/App.tsx:296 | saving updates exactly when the heading says "Edit reminder", and adds otherwise |
| Editor.EditUpdatesSameId | src/App.tsx:284-296 | saving an edited reminder updates its id, which then sits exactly once on the day of its new date |
| Editor.UpdateFiledOnce | src/store.ts:104-128 | an update of a filed id leaves it exactly once on the new date's day |
| Editor.NewReminderKeepsTidy | src/App.tsx:283-296 | saving a new reminder under an unused id adds it and keeps the index invariants |
| DayCell.Visible | src/App.tsx:60 | `slice(0, 3)`: at most three reminders, a prefix of the day, the whole day when it has three or fewer |
| DayCell.Overflow | src/App.tsx:61 | listed plus folded is the whole day; "+N more" appears exactly when the day has more than three |
| DayCell.ShowsClear | src/App.tsx:117-128 | the clear button shows exactly when the cell lists at least one reminder |
| DayCell.VisibleAndFolded | src/App.tsx:60-61 | the listed and the folded reminders together are the day, in order |
| DayCell.CellReminders | src/App.tsx:282 | a blank cell or a day with no entry has no reminders; otherwise the cell gets the day's list |
| DayCell.CellOfTidyIndex | src/App.tsx:59-61 | in a tidy index the clear button shows exactly when the day has an entry; listed reminders belong to the day and none is due after a folded one |
| DayCell.ClearedCell | src/App.tsx:117-128 | after clearing, the cell lists nothing, folds nothing and offers no clear button |
| DayCell.Title | src/App.tsx:76 | the tooltip starts with "time text"; " • weather" follows exactly when the weather is truthy |
| DayCell.Meta | src/App.tsx:95-105 | the meta row shows when weather or city is truthy; the separator shows only when both are |
| Scenarios.MilkFormValid | src/__tests__/addReminder.test.tsx:14-19 | the test's "Buy milk" / "London" form can be saved |
| Scenarios.MilkFieldsTrimmed | src/__tests__/addReminder.test.tsx:14-15 | neither field the test types has anything to trim |
| Scenarios.SubmitCleanForm | src/App.tsx:195-208 | a valid form that needs no trimming is saved field for field |
| Scenarios.MilkAdded | src/App.tsx:296 | the new reminder is added, not updated |
| Scenarios.MilkShownOnItsDay | src/__tests__/addReminder.test.tsx:9-21 | after the add, the day's cell lists exactly that reminder, folds nothing, and its tooltip starts "07:30 Buy milk" |
| Scenarios.AddToEmptyDay | src/store.ts:88-94 | a day that held nothing holds just the added reminder |
| Scenarios.SortLaterFirst | src/store.ts:91-93 | sorting a later-then-earlier pair swaps it |
| Scenarios.AddBeforeSingle | src/store.ts:91-93 | a reminder due before a day's only reminder goes in front of it |
| Scenarios.LaterFirstIsReordered | src/store.ts:88-97 | adding 09:00 then 07:30 lists 07:30 first |
| Scenarios.TieGoesToFirst | src/weather.ts:70 | of two equally near hours the first is chosen (strict `<`) |
| Scenarios.CodesOutsideTable | src/weather.ts:28 | codes 4, 100 and -1, between, past and below the table's entries, are "Unknown" |

## Left out

- Browser storage I/O and JSON: the storage is modelled as the values last written. `JSON.stringify`/`JSON.parse` are taken to round-trip, and an unreadable or non-object entry is `None`. A stored value of the wrong shape (for example, an array) is not modelled.
- The clock: the current day (`new Date().toISOString().slice(0, 10)`) and the first of the current month are parameters.
- `uid()`: its randomness (`crypto.randomUUID` or `Math.random`) is the parameter `freshId`.
- Date parsing and formatting: `new Date(...)`, `toISOString()` and date-fns (`startOfMonth`, `endOfMonth`, `getDay`, `addMonths`, `subMonths`, `format`) are not modelled. The grid takes the weekday of the 1st and the month's length as inputs. The editor takes a `toISO` function, and the nearest-hour scan takes an `instant` function.
- The month navigation buttons compute the new month with date-fns, so only `setMonthStart` itself is modelled.
- The network: the geocoder and forecast requests, with their URLs, are the functions of `Weather.Services`. A thrown error is a `None` result.
- React rendering, hooks, `busy`, the modal list, `today` highlighting and the event handlers' propagation are not modelled. The open-list sheet, which lists the whole day with the same fields, is not modelled separately.
- `localeCompare` is modelled as code-point lexicographic order. For zero-padded `HH:MM` times the two agree; for arbitrary strings the locale's collation is not modelled.
- Text.ToLower: only ASCII letters are lower-cased. Full Unicode case mapping is not modelled; the keywords and labels are ASCII.
- Text.Trim and the 30-character limit count characters as Dafny `char`s. UTF-16 code units, which JavaScript counts, are not modelled.
- The `maxLength={30}` attribute of the text input is a browser constraint. Only the `valid` test is modelled.
- JavaScript object key order puts integer-like keys first; day keys `YYYY-MM-DD` are never integer-like, so insertion order is modelled.
- JavaScript numbers are doubles; the model uses unbounded integers. `String(n)` switches to exponent notation from 1e21 (`"1e+21"`), and integers beyond 2^53 are not exact, so `Numbers.ParseIntOfIntToString` holds only for the integers a double represents and prints in plain digits. Hours and minutes lie far inside that range.
- Weather codes are integers. A non-integer code (the series is typed `number[]`) is not modelled.
- Weather.NearestIsFirstNearest: the `Infinity` start of `bestDiff` is modelled, but infinite or non-integer instants are not; distances are natural numbers or `NaN`.
- Editor.OpenForm: the `initial?.dateISO ?? today` fallback is modelled, although the app always opens the editor with an initial value.
- Editor.SubmittedReminder: it does not state the day key of the saved reminder's date, because that depends on the `toISO` parameter.
- Store.Run: its own contract states only the empty run; what a run preserves is stated by `Store.RunKeepsTidy`.
