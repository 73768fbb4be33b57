# HabitTrack core in Dafny

HabitTrack is a browser habit tracker. This project models its core logic:

- **The habit store** (`HabitContext`). This is an ordered list of habits, each with the instants at which it was completed. It supports adding a habit, toggling today's completion, deleting a habit, and computing the weekly chart data for the seven days ending today.
- **The calendar-day utilities** (`utils/date`):
  - `isSameDay`, which compares year, month and day of the month;
  - `getStartOfDay`;
  - `getLast7Days`.
- **The daily-boundary check** (`useDailyReset`). This is a persisted "last login" marker. When the marker is on another calendar day, the `onReset` callback fires and the marker moves to now.
- **The dashboard page's logic**:
  - the trim guard in front of `addHabit`;
  - the submit button's enabled state;
  - the locale choice;
  - the per-habit checkmark.
- **The authentication flag and route table** (`App`).

Modules and files:

- `dates.dfy` (`Dates`): instants, day numbers and the proleptic Gregorian calendar.
  - An instant is an integer number of milliseconds in local time.
  - Its calendar day is `t / 86400000` (floor), turned into (year, month, day) by H. Hinnant's days-from-civil and civil-from-days algorithms.
  - `IsSameDay` compares those three fields, as the source does. It is then proved equal to comparing day numbers.
- `habits.dfy` (`Habits`):
  - the pure functions computing each new habit list (`ToggleIn`, `Without`, `DoneCount`) and their lemmas;
  - the class `HabitStore`, whose methods replace its `habits` field with those functions' results.
- `daily_reset.dfy` (`DailyReset`): the marker step as a function, and the class `DailyResetCheck` holding the marker and the number of resets.
- `dashboard.dfy` (`DashboardPage`): `String.prototype.trim`, the locale map, the checkmarks, and the class `Dashboard` with the title input and modal flag.
- `auth.dfy` (`Auth`): the route table as a function, and the class `AppContent` holding the flag, the stored value and the location.
- `wrappers.dfy` (`Wrappers`): `Option`.

Parameters stand in for values the source takes from outside:

- The clock is a parameter `now`.
- `crypto.randomUUID()` is a parameter `id` (`freshId`).
- The `Intl` short-weekday formatter is a parameter `weekday: Instant -> string`.
- Values read from `localStorage` are constructor parameters. An absent key is `None`.

Three facts about the program shape the model:

- `addHabit` stores any title unchanged. Only the dashboard trims the title and rejects a blank one (src/pages/Dashboard.tsx:53-54).
- `getWeeklyProgress` takes no argument (src/context/HabitContext.tsx:80). The dashboard passes it a locale (src/pages/Dashboard.tsx:48), which it ignores, so labels always come from the fixed pt-BR formatter.
- The daily check reads the clock once at start-up for the default marker and again when its effect runs (src/hooks/useDailyReset.ts:8, 12). Its first run is quiet when those two reads fall on the same calendar day (`DailyReset.FirstRunQuiet`).

## Model

| member | source | states |
|---|---|---|
| Dates.IsSameDay | src/utils/date.ts:15-21 | isSameDay holds exactly when year, month and day of the month are all equal. The month is 1-based here; that shift does not change the comparison. |
| Dates.SameDayIffSameDayNumber | src/utils/date.ts:15-21 | Two instants agree on year, month and day of the month exactly when they have the same day number. No two different days share a date triple. |
| Dates.DaysFromCivilInverse | src/utils/date.ts:17-19 | Converting a day number to (year, month, day) and back gives the same day number, so the calendar fields identify the day. |
| Dates.EraSplitBounds | src/utils/date.ts:17-19 | Within a 400-year era, the year of the era is in 0..399 and the day of its March-based year is in 0..365. |
| Dates.IsSameDayIsEquivalence | src/utils/date.ts:15-21 | isSameDay is reflexive, symmetric and transitive. |
| Dates.MonthBoundary | src/utils/date.ts:16-19 | 2024-01-31 23:00 and 2024-02-01 00:00 have those dates and are not the same day. |
| Dates.YearBoundary | src/utils/date.ts:16-19 | 2023-12-31 23:00 and 2024-01-01 00:00 have those dates and are not the same day. |
| Dates.SameDayOfMonthOtherMonth | src/utils/date.ts:16-19 | 2023-12-31 and 2024-01-31 both have day of month 31 but are not the same day. |
| Dates.CivilOfDayNumbers | src/utils/date.ts:17-19 | Days 19722, 19723, 19753 and 19754 after the epoch are 2023-12-31, 2024-01-01, 2024-01-31 and 2024-02-01. |
| Dates.StartOfDay | src/utils/date.ts:9-13 | The result is on the same calendar day as the input. Its hours, minutes, seconds and milliseconds are all zero. It is the latest such instant not after the input: `r <= t < r + 86400000`. |
| Dates.StartOfDayIdempotent | src/utils/date.ts:9-13 | getStartOfDay applied to its own result returns that result. |
| Dates.StartOfDayIffSameDay | src/utils/date.ts:9-21 | Two instants have the same start of day exactly when isSameDay holds for them. |
| Dates.MidnightOfDay | src/utils/date.ts:11 | Midnight of a day lies on that day with every time field zero. |
| Dates.ShiftDays | src/utils/date.ts:27 | `setDate(getDate() + k)` moves the instant exactly `k` days and keeps its time of day. |
| Dates.WeekWindow | src/context/HabitContext.tsx:84-88 | Seven instants whose day numbers are today-6, ..., today, in that order. |
| Dates.WeekWindowDays | src/context/HabitContext.tsx:84-88 | The last window entry is the same day as now. The seven entries are pairwise different days. |
| Dates.Last7Days | src/utils/date.ts:23-31 | The loop from offset 6 down to 0 returns exactly 7 labels, oldest first; the k-th is the label of the window's k-th day, so the last is today's. |
| Habits.CompletedOn | src/context/HabitContext.tsx:56-58 | `completedDates.some(...)`: some entry is on the same calendar day as the given instant. The same definition serves the weekly count (line 92) and the checkmark (src/pages/Dashboard.tsx:119-121). |
| Habits.DropDay | src/context/HabitContext.tsx:62-64 | The filtered history has no entry on the given day and is no longer than the input. |
| Habits.DropDayMembers | src/context/HabitContext.tsx:62-64 | The filter keeps exactly the entries on other days. |
| Habits.DropDayAppend | src/context/HabitContext.tsx:62-64 | The filter distributes over concatenation, so it keeps the remaining entries in their original order. |
| Habits.DropDayAbsent | src/context/HabitContext.tsx:62-64 | Filtering a day that has no entry returns the history unchanged. |
| Habits.ToggleDates | src/context/HabitContext.tsx:55-67 | Today's completion status flips. Entries on other days are unchanged and in order. Afterwards at most one entry is on today. If the habit was not completed today, the result is the old history with exactly `now` appended. |
| Habits.ToggleKeepsOnePerDay | src/context/HabitContext.tsx:56-67 | A history with at most one entry per day keeps that property after a toggle. |
| Habits.ToggleTwiceRestores | src/context/HabitContext.tsx:56-67 | Starting with no completion today, toggling twice on the same day restores the original history. |
| Habits.CompletedOnSameDay | src/context/HabitContext.tsx:56-58 | Any two instants of the same calendar day see the same completion status, and the history has at most one entry on one of them exactly when it has at most one on the other. |
| Habits.StepFlips | src/context/HabitContext.tsx:55-67 | A toggle at any instant of a day flips the status for that day and leaves at most one entry on it. |
| Habits.ToggleParity | src/context/HabitContext.tsx:56-67 | After toggles at any number of instants, all on one calendar day, the habit is completed that day exactly when it was before and the number of toggles is even, or it was not and the number is odd. After at least one toggle there is at most one entry that day. |
| Habits.ToggleIn | src/context/HabitContext.tsx:51-74 | Length and order are kept. Id, title and createdAt of every habit are kept. Habits with another id are unchanged. Each matching habit has today's status flipped, its other-day entries kept, and at most one entry today. A matching habit not completed today gets exactly `now` appended at the end. An unknown id leaves the list unchanged. |
| Habits.ToggleInKeepsWellFormed | src/context/HabitContext.tsx:51-74 | Unique ids and at most one completion per day per habit survive toggleHabit. |
| Habits.ToggleInTwiceRestores | src/context/HabitContext.tsx:51-74 | When the matching habits were not completed today, toggling twice on the same day restores the whole list. |
| Habits.Without | src/context/HabitContext.tsx:76-78 | deleteHabit's result is no longer than the input. An unknown id leaves the list unchanged. |
| Habits.WithoutMembers | src/context/HabitContext.tsx:77 | deleteHabit keeps exactly the habits with another id. |
| Habits.WithoutAppend | src/context/HabitContext.tsx:77 | The filter distributes over concatenation, so the kept habits stay in their original order. |
| Habits.WithoutUnique | src/context/HabitContext.tsx:76-78 | With unique ids, deleting an existing id removes exactly that habit and keeps the others in order, so the list shrinks by one. |
| Habits.WithoutKeepsWellFormed | src/context/HabitContext.tsx:76-78 | Unique ids and at most one completion per day per habit survive deleteHabit. |
| Habits.DoneCount | src/context/HabitContext.tsx:91-94 | The reduce count is between 0 and the number of habits. |
| Habits.DoneCountIsCardinality | src/context/HabitContext.tsx:91-94 | The reduce count equals the number of habits with at least one completion on that day. |
| Habits.HabitStore.constructor | src/context/HabitContext.tsx:24 | The store starts from the stored list, or from the empty list `[]` when nothing is stored. |
| Habits.HabitStore.AddHabit | src/context/HabitContext.tsx:41-49 | The new list is the old one with exactly one habit appended: the given id and title, no completions, `createdAt = now`. With a fresh id, the invariant is kept. |
| Habits.HabitStore.ToggleHabit | src/context/HabitContext.tsx:51-74 | The new list is ToggleIn of the old one, and the invariant is kept. |
| Habits.HabitStore.DeleteHabit | src/context/HabitContext.tsx:76-78 | The new list is Without of the old one, and the invariant is kept. |
| Habits.HabitStore.GetWeeklyProgress | src/context/HabitContext.tsx:80-101 | Exactly 7 entries, oldest first, for days today-6 .. today. Each has that day's label, and its count is the number of habits completed that day, at most the number of habits. |
| DailyReset.InitialMarker | src/hooks/useDailyReset.ts:6-9 | The marker is the stored value, or the start-up instant `Date.now()` when nothing is stored. |
| DailyReset.Fires | src/hooks/useDailyReset.ts:15 | The check fires exactly when today is not the same calendar day as the marker. |
| DailyReset.NextMarker | src/hooks/useDailyReset.ts:11-19 | After a check the marker lies on today. It is either unchanged or now, and it changes only when the check fired. |
| DailyReset.FiresIffDayChanged | src/hooks/useDailyReset.ts:15 | The check fires exactly when the marker's day number differs from today's, in either direction. |
| DailyReset.FirstRunQuiet | src/hooks/useDailyReset.ts:6-15 | With nothing stored, the marker defaults to the start-up instant, and a first run on the start-up day does not fire. |
| DailyReset.SecondRunQuiet | src/hooks/useDailyReset.ts:11-19 | A re-run later on the same day neither fires nor moves the marker. |
| DailyReset.DailyResetCheck.constructor | src/hooks/useDailyReset.ts:6-9 | The marker is the stored value, or the start-up instant when nothing is stored. No reset has happened yet. |
| DailyReset.DailyResetCheck.Run | src/hooks/useDailyReset.ts:11-19 | When the marker is on another day, `onReset` fires once and the marker becomes now. Otherwise nothing changes. Either way the marker ends on today. |
| DashboardPage.Trim | src/pages/Dashboard.tsx:53-54 | `trim()` returns a slice of the input with only white space around it. The slice neither starts nor ends with white space, and it is empty exactly when the input is all white space. |
| DashboardPage.SkipLeading | src/pages/Dashboard.tsx:53 | Finds the first character that is not white space; everything before it is white space. |
| DashboardPage.SkipTrailing | src/pages/Dashboard.tsx:53 | Finds the end of the text once trailing white space is dropped; everything after it is white space. |
| DashboardPage.TrimIdempotent | src/pages/Dashboard.tsx:53-54 | Trimming the trimmed title changes nothing. |
| DashboardPage.CurrentLocale | src/pages/Dashboard.tsx:40-46 | The locale is one of pt-BR, en-US or es-ES. Its language part equals the code exactly when the code is in the map. Any other code falls back to pt-BR. |
| DashboardPage.CompletionStatus | src/pages/Dashboard.tsx:118-121 | Gives one checkmark per listed habit. A habit shows completed exactly when some entry is on the same calendar day as today. |
| DashboardPage.StatusAfterToggle | src/pages/Dashboard.tsx:119-127 | Clicking a habit's box flips that habit's checkmark and leaves every other checkmark as it was. |
| DashboardPage.ChartTodayMatchesCheckmarks | src/pages/Dashboard.tsx:119-121 | The set of habits counted in today's chart bar is exactly the set shown as completed. |
| DashboardPage.Dashboard.constructor | src/pages/Dashboard.tsx:37-38 | The modal starts closed and the title input empty. |
| DashboardPage.Dashboard.SubmitDisabled | src/pages/Dashboard.tsx:217 | The submit button is disabled exactly when the title is all white space (its trim is empty). |
| DashboardPage.Dashboard.HandleAddHabit | src/pages/Dashboard.tsx:51-58 | If the title is not all white space, the trimmed title is added, the input is cleared and the modal closed. Otherwise nothing changes. With a fresh id, the store's invariant is kept. |
| Auth.Route | src/App.tsx:29-60 | The `<Routes>` table. Exactly the five known paths match. Each shows its page or redirects to another known path, depending on the flag. |
| Auth.Resolve | src/App.tsx:29-60 | What is on screen after following the `<Navigate>` of a matched route. It is never a redirect. It is no match exactly for an unknown path. |
| Auth.RouteGuard | src/App.tsx:28-61 | From every known path at most one redirect leads to a page. That page is the dashboard exactly when the user is authenticated. Redirects never chain. |
| Auth.RedirectTable | src/App.tsx:30-59 | When authenticated, every public path redirects to /dashboard and /dashboard shows the dashboard. When not authenticated, /dashboard redirects to /. |
| Auth.AppContent.constructor | src/App.tsx:12-14 | The flag is true exactly when the stored value is the string "true". |
| Auth.AppContent.HandleLogin | src/App.tsx:17-20 | Sets the flag and stores "true". The current page then resolves to the dashboard. |
| Auth.AppContent.HandleLogout | src/App.tsx:22-26 | Clears the flag, removes the stored value and moves to /login, where the login page is shown. |

## Left out

- React rendering and context plumbing are not modelled: state setters and effect re-run scheduling are replaced by direct updates of class fields. The daily check re-running after it moves the marker is covered by `DailyReset.SecondRunQuiet`.
- `useLocalStorage` (src/hooks/useLocalStorage.ts) is not part of this model. JSON encoding, write-through to storage and handling of corrupt stored values are out of scope. Stored values enter as constructor parameters.
- Time zones and daylight saving are not modelled. An instant is taken as already in local time, so `setDate(getDate() - i)` is exactly `i` times 86400000 ms earlier. The Gregorian calendar is proleptic.
- Several clock reads are collapsed into one `now` per operation:
  - `toggleHabit` reads the clock at line 55 and again at line 66;
  - `getLast7Days` reads it once per iteration;
  - the daily check reads it at lines 12 and 17.
  Around midnight, these reads can fall on different days.
- `Intl.DateTimeFormat` is not modelled:
  - weekday labels come from the `weekday` parameter;
  - `formatDate` (src/utils/date.ts:1-7) is not modelled, since its only logic is the formatter call.
- Bar colouring and the rest of the page markup are not modelled.
- DashboardPage.CurrentLocale: a JavaScript object also answers inherited keys such as `constructor` with a truthy value. The model treats every code outside `pt`, `en` and `es` as falling back to pt-BR.
- Habits.HabitStore.AddHabit: invariant preservation assumes the id is not already in use. `crypto.randomUUID()` gives that only with overwhelming probability, so it is a hypothesis of the ensures clause.
- The `onReset` callback only logs to the console; the model counts how many times it fires (`resets`).
- The modal's open and close buttons and the title input's `onChange` (src/pages/Dashboard.tsx:95, 113, 203, 210, 214) are plain setters of `isModalOpen` and `newHabitTitle` and are not modelled as separate methods.
- Navigation inside the login, register and forgot-password pages is not modelled; only `App`'s route table is.
