# Habit tracker demo mode, in Dafny

This project models the browser-side core of a habit tracker running in demo
mode. That core has four parts:

- **The demo store** (`mockData.ts`). Four browser-storage keys hold the habit
  list, the demo user, the demo token and a separate map from habit id to the
  time of that habit's last completion.
- **The demo habit service** (`mockHabitsService.ts`):
  - the periodic reset pass, which clears `completed` by frequency;
  - the completion toggle with its streak arithmetic;
  - create, archive toggle, delete and lookup.
- **The profile page's activity data** (`profile/page.tsx`). It builds one
  `(completed, total)` sample per calendar day, from January 1 of the previous
  year through today. It then derives `currentStreak`, `maxStreak` and
  `totalActiveDays` in one pass from the newest sample to the oldest.
- **The habits page** (`habits/page.tsx`). This covers the filtered list, the
  sidebar's per-category counts, and how each handler updates the listed
  habits from the service's answer.

Each Dafny module follows one source file:

| module | file |
|---|---|
| `Wrappers` | `Option`, `Result` |
| `Calendar` | integer timestamps in ms; UTC day, month and year |
| `HabitModel` | the habit record and the list helpers `FindIndex` and `RemoveId` |
| `MockData` | `mockData.ts` |
| `MockHabitsService` | `mockHabitsService.ts` |
| `ProfilePage` | `profile/page.tsx` |
| `HabitsPage` | `habits/page.tsx` |

How the model is built:

- **Storage.** The storage is a class, `MockData.DemoStorage`, with one
  `Option` field per key, so an absent key can be represented. The source's
  free functions over `localStorage` become methods that take that object and
  say in `modifies` and `ensures` what they change.
- **Profile page loops.** The loops of `generateStreakData` are methods over a
  `map<int, Bucket>` (day number to counters). Each is proved against
  `DayBucket`, a function over the habit list, and the per-day properties are
  lemmas about `DayBucket`.
- **Stats pass.** The `stats` pass is a descending `while` loop, proved
  against the run-length functions `RunFrom`, `MaxRunFrom` and
  `ActiveCountFrom`.

Two rules are modelled as the code writes them, not as its comments or its
labels suggest:

- **Weekly reset.** A weekly habit is reset when `now` is after its stored
  completion minus seven days. So every completion not at least seven days in
  the future is expired, including one made a moment ago
  (`MockHabitsService.WeeklyRule`).
- **`currentStreak`.** It is assigned only while it is still 0, and at that
  moment the running streak is 1. So it is 1 when any day is active and 0
  otherwise, never the length of the trailing run
  (`ProfilePage.ComputeStats`).

The model also keeps two less visible behaviours of the code:

- **Monthly reset ignores the year** (`MockHabitsService.MonthlyIgnoresYear`).
- **Today can be skipped.** The per-habit day loop of `generateStreakData`
  skips today when the habit was created on an earlier day at a later time of
  day than now (`ProfilePage.VisitedDays`).

## Model

| member | source | states |
|---|---|---|
| HabitModel.FindIndex | frontend/src/lib/services/mockHabitsService.ts:144 | `findIndex`: the result is the first position holding the id; it is absent exactly when no habit has the id |
| HabitModel.RemoveId | frontend/src/lib/services/mockHabitsService.ts:208 | `filter(h => h.id !== id)`: a habit is kept iff it was in the list and has another id; never longer |
| HabitModel.RemoveIdShortensIffPresent | frontend/src/lib/services/mockHabitsService.ts:208-212 | the filtered list is as long as the input iff the id is absent, and is then the input itself; this justifies the length test deciding "not found" |
| HabitModel.RemoveIdAppend | frontend/src/lib/services/mockHabitsService.ts:208 | removal keeps the remaining habits in order (distributes over concatenation) |
| HabitModel.RemoveIdKeepsStreaks | frontend/src/lib/services/mockHabitsService.ts:206-217 | deleting keeps every streak non-negative |
| HabitModel.RemoveIdKeepsIdsDistinct | frontend/src/lib/services/mockHabitsService.ts:206-217 | deleting keeps ids distinct |
| HabitModel.CompletedUpdate | frontend/src/app/habits/page.tsx:136-138 | the update `{ completed }` sets `completed` and leaves every other field, the streak and `is_archived` included, unset |
| HabitModel.ArchivedUpdate | frontend/src/app/habits/page.tsx:182-184 | the update `{ is_archived }` sets `is_archived` and leaves every other field, the streak and `completed` included, unset |
| MockData.MockUser | frontend/src/lib/services/mockData.ts:6-11 | the demo user has id 1 and joined on 2024-01-15 |
| MockData.GenerateMockHabits | frontend/src/lib/services/mockData.ts:14-173 | ten habits with ids 1..10 (so distinct) and non-negative streaks, each with a `last_completed`; habits 1, 3, 5, 6, 7, 10 completed; only habit 8 archived |
| MockData.LookupDate | frontend/src/lib/services/mockData.ts:252-260 | `getLastCompletedDate`'s value: present iff the key exists and holds the id, and then the stored date |
| MockData.WithDate | frontend/src/lib/services/mockData.ts:263-276 | the map `setLastCompletedDate` writes: null deletes the id, a date sets it, every other id reads as before; an absent key starts from the empty map |
| MockData.GetAfterSet | frontend/src/lib/services/mockData.ts:252-276 | get after set returns what was set; after setting null it returns null |
| MockData.SetLeavesOthers | frontend/src/lib/services/mockData.ts:266-275 | setting one id leaves every other id's entry as it was |
| MockData.InitialCompletionDatesSpec | frontend/src/lib/services/mockData.ts:204-213 | the initial map holds exactly the ids of completed habits, each mapped to `now` |
| MockData.ResetCompletionDatesSpec | frontend/src/lib/services/mockData.ts:225-233 | the reset map holds exactly the ids of habits that are completed and have `last_completed`; with distinct ids each maps to that `last_completed` |
| MockData.ResetDatesOfGeneratedHabits | frontend/src/lib/services/mockData.ts:204-233 | on the generated habits both maps hold exactly the ids 1, 3, 5, 6, 7, 10 |
| MockData.Initialized | frontend/src/lib/services/mockData.ts:189-215 | each key that holds a value keeps it; afterwards all four keys hold a value |
| MockData.InitializedIdempotent | frontend/src/lib/services/mockData.ts:189-215 | initialising again, at any later time, changes nothing |
| MockData.ResetState | frontend/src/lib/services/mockData.ts:218-234 | every key is overwritten: fresh habits, the demo user and token, and the reset completion map, whose keys are exactly the six completed sample habits 1, 3, 5, 6, 7, 10 |
| MockData.DemoStorage.constructor | frontend/src/lib/services/mockData.ts:180-186 | a storage with no key present |
| MockData.CompletionDatesAt | frontend/src/lib/services/mockData.ts:206-212 | the `forEach` of `initializeMockData` builds exactly the initial completion map |
| MockData.LastCompletionDates | frontend/src/lib/services/mockData.ts:226-232 | the `forEach` of `resetMockData` builds exactly the reset completion map |
| MockData.InitializeMockData | frontend/src/lib/services/mockData.ts:189-215 | the storage afterwards is `Initialized` of the storage before |
| MockData.ResetMockData | frontend/src/lib/services/mockData.ts:218-234 | the storage afterwards is `ResetState` |
| MockData.GetMockHabits | frontend/src/lib/services/mockData.ts:237-242 | the stored list, or `[]` when the key is absent |
| MockData.SaveMockHabits | frontend/src/lib/services/mockData.ts:245-249 | only the habits key changes, to exactly the given list |
| MockData.GetLastCompletedDate | frontend/src/lib/services/mockData.ts:252-260 | returns `LookupDate` of the stored map |
| MockData.SetLastCompletedDate | frontend/src/lib/services/mockData.ts:263-276 | only the completion-date key changes, to `WithDate` of the old map |
| MockHabitsService.ShouldReset | frontend/src/lib/services/mockHabitsService.ts:59-74 | with no stored date the completion has expired; daily: fresh iff the stored time lies within the UTC day of `now`; weekly, as written: fresh iff the stored time is at least seven days after `now`; monthly: fresh iff the month index is the same |
| MockHabitsService.NeedsReset | frontend/src/lib/services/mockHabitsService.ts:49-77 | archived and incomplete habits never need a reset; an unarchived completed habit with no stored date always does |
| MockHabitsService.ResetHabit | frontend/src/lib/services/mockHabitsService.ts:76-85 | a habit is either unchanged or has only `completed` cleared; it changes iff it is unarchived, completed and its stored date has expired |
| MockHabitsService.ResetAll | frontend/src/lib/services/mockHabitsService.ts:48-86 | the pass keeps the list length and treats each position independently |
| MockHabitsService.ResetCountZeroIff | frontend/src/lib/services/mockHabitsService.ts:77-90 | the reset count is 0 exactly when the pass changes nothing, so skipping the write loses nothing |
| MockHabitsService.ResetCountZeroIffNoneDue | frontend/src/lib/services/mockHabitsService.ts:52-85 | the reset count is 0 exactly when no habit needs a reset, and never exceeds the list length |
| MockHabitsService.ResetOnlyClearsCompleted | frontend/src/lib/services/mockHabitsService.ts:53-85 | a reset keeps id, streak, `updated_at`, `last_completed` and the archive flag; archived and incomplete habits come back unchanged |
| MockHabitsService.ResetIdempotent | frontend/src/lib/services/mockHabitsService.ts:48-86 | a second pass at the same `now` changes nothing and counts no reset |
| MockHabitsService.ResetPreservesInvariant | frontend/src/lib/services/mockHabitsService.ts:48-86 | the pass keeps ids distinct and streaks non-negative |
| MockHabitsService.WeeklyRule | frontend/src/lib/services/mockHabitsService.ts:64-68 | weekly, as written: any stored date not after `now` has expired, including one made a moment ago |
| MockHabitsService.MonthlyIgnoresYear | frontend/src/lib/services/mockHabitsService.ts:72 | a completion on 2024-01-15 is still fresh on 2025-01-15 |
| MockHabitsService.ResetPass | frontend/src/lib/services/mockHabitsService.ts:48-86 | the `map` with its `resetCount` yields `ResetAll` and `ResetCount` of the list; the count is 0 iff the list is unchanged |
| MockHabitsService.CheckAndResetHabits | frontend/src/lib/services/mockHabitsService.ts:40-91 | after initialising, the list is replaced by its reset version only when some habit was reset; that equals replacing it unconditionally; nothing else changes |
| MockHabitsService.GetHabits | frontend/src/lib/services/mockHabitsService.ts:93-101 | returns the reset list of the initialised storage, which is what the store then holds |
| MockHabitsService.GetHabit | frontend/src/lib/services/mockHabitsService.ts:103-112 | not-found iff no habit has the id; otherwise the first habit with the id |
| MockHabitsService.MaxId | frontend/src/lib/services/mockHabitsService.ts:119 | `Math.max(0, ...ids)`: non-negative, at least every id, and either 0 or one of the ids |
| MockHabitsService.NextId | frontend/src/lib/services/mockHabitsService.ts:119 | the new id is positive and greater than every existing id |
| MockHabitsService.NewHabit | frontend/src/lib/services/mockHabitsService.ts:121-134 | the new habit has the given id and data, streak 0, is neither completed nor archived, and has `created_at = updated_at = now` |
| MockHabitsService.CreatePreservesInvariant | frontend/src/lib/services/mockHabitsService.ts:114-140 | appending the new habit keeps ids distinct and streaks non-negative |
| MockHabitsService.CreateHabit | frontend/src/lib/services/mockHabitsService.ts:114-140 | returns the new habit and appends exactly it at the end of the list; nothing else changes |
| MockHabitsService.NextStreak | frontend/src/lib/services/mockHabitsService.ts:153-165 | the new streak is never negative when the old one was not |
| MockHabitsService.UpdatedHabit | frontend/src/lib/services/mockHabitsService.ts:167-173 | `{...old, ...data, streak, updated_at}`: id and `created_at` kept, supplied fields overwrite, streak from `NextStreak`, `updated_at = now` |
| MockHabitsService.StreakTransitions | frontend/src/lib/services/mockHabitsService.ts:153-165 | false to true adds 1; true to false gives `max(0, streak - 1)`; otherwise the streak stays |
| MockHabitsService.SuppliedStreakIgnored | frontend/src/lib/services/mockHabitsService.ts:167-173 | a `streak` inside the update has no effect |
| MockHabitsService.ToggleTwice | frontend/src/lib/services/mockHabitsService.ts:153-165 | complete then uncomplete restores the streak; uncomplete then complete restores it except that 0 becomes 1 |
| MockHabitsService.UpdatePreservesInvariant | frontend/src/lib/services/mockHabitsService.ts:175-178 | replacing one habit by its update keeps ids distinct and streaks non-negative |
| MockHabitsService.UpdateHabit | frontend/src/lib/services/mockHabitsService.ts:142-181 | absent id: not-found and nothing written; otherwise only the found position is replaced, `now` is recorded as the completion date exactly on a false-to-true toggle, and uncompleting leaves the date |
| MockHabitsService.ArchiveToggled | frontend/src/lib/services/mockHabitsService.ts:191-196 | the archive flag is flipped, `updated_at` set, every other field kept |
| MockHabitsService.ToggleArchiveHabit | frontend/src/lib/services/mockHabitsService.ts:183-204 | absent id: not-found and nothing written; otherwise only the found position is replaced by its toggled version |
| MockHabitsService.DeleteHabit | frontend/src/lib/services/mockHabitsService.ts:206-218 | absent id: not-found and nothing written; otherwise every habit with the id is removed, the rest keep their order, and the id's completion date is deleted |
| HabitsPage.FilteredHabits | frontend/src/app/habits/page.tsx:83-89 | a habit is listed iff it is in the list, its archive flag matches the view, and its category matches the selection (if any) |
| HabitsPage.FilteredHabitsAppend | frontend/src/app/habits/page.tsx:83-89 | filtering keeps the list order (distributes over concatenation) |
| HabitsPage.FilteredLength | frontend/src/app/habits/page.tsx:83-115 | the counter `categoryCount` keeps for a view equals the length of that view |
| HabitsPage.ActivePlusArchivedCount | frontend/src/app/habits/page.tsx:105-112 | `All + Archived` equals the list length |
| HabitsPage.ActivePlusArchivedIsAll | frontend/src/app/habits/page.tsx:83-112 | the active and archived views together hold as many habits as the list |
| HabitsPage.CategoryCountsPartitionActive | frontend/src/app/habits/page.tsx:105-112 | the eight category counters sum to `All` |
| HabitsPage.CategoryViewsPartitionActive | frontend/src/app/habits/page.tsx:83-112 | the eight category views together hold exactly as many habits as the active view |
| HabitsPage.CountCategoryStep | frontend/src/app/habits/page.tsx:106-108 | counting an unarchived habit bumps exactly its own category |
| HabitsPage.CountArchivedStep | frontend/src/app/habits/page.tsx:109-111 | an archived habit bumps no category |
| HabitsPage.CategoryCount | frontend/src/app/habits/page.tsx:91-115 | `All`, `Archived` and each category counter equal the lengths of the matching views; `All + Archived` is the list length; the categories sum to `All` |
| HabitsPage.ReplaceById | frontend/src/app/habits/page.tsx:140-142 | same length; each habit with the id is replaced, every other habit is unchanged |
| HabitsPage.ReplaceByIdAtFoundIndex | frontend/src/app/habits/page.tsx:140-142 | with distinct ids, replacing by id is replacing at the position the service finds, or nothing when absent |
| HabitsPage.HandleAddHabit | frontend/src/app/habits/page.tsx:118-128 | on success the new habit is appended at the end; on failure the list stays and the create error is shown |
| HabitsPage.CompleteRequest | frontend/src/app/habits/page.tsx:133-138 | no request iff the id is not listed; otherwise the negation of the listed habit's `completed` |
| HabitsPage.ArchiveRequest | frontend/src/app/habits/page.tsx:179-184 | no request iff the id is not listed; otherwise the negation of its `is_archived` |
| HabitsPage.AfterUpdate | frontend/src/app/habits/page.tsx:140-147 | on success the answer replaces the habit with the id and the error clears; on failure the list stays and the error is shown |
| HabitsPage.HandleHabitComplete | frontend/src/app/habits/page.tsx:130-148 | an unlisted id only clears the error; otherwise the list is updated from the service's answer |
| HabitsPage.HandleHabitUpdate | frontend/src/app/habits/page.tsx:150-162 | same length, and every habit with another id is unchanged |
| HabitsPage.HandleHabitDelete | frontend/src/app/habits/page.tsx:164-174 | on success no habit with the id remains and every other habit does; on failure the list stays and the delete error is shown |
| HabitsPage.HandleArchiveHabit | frontend/src/app/habits/page.tsx:176-194 | an unlisted id only clears the error; otherwise the list is updated from the service's answer |
| HabitsPage.CompleteMatchesService | frontend/src/app/habits/page.tsx:130-148 | if the page were wired to the demo store (it imports the REST service): with distinct ids, the page's list after a completion toggle is the store's list after its update, in which only `completed` (negated), the streak (by `NextStreak`) and `updated_at` change |
| HabitsPage.ArchiveMatchesService | frontend/src/app/habits/page.tsx:176-194 | under the same wiring: with distinct ids, the archive button flips only `is_archived` and `updated_at`, and the page's list matches the store's |
| HabitsPage.DeleteMatchesService | frontend/src/app/habits/page.tsx:164-174 | under the same wiring: a successful delete removes from the page what the store removes, and shortens the list when the id was present |
| ProfilePage.WindowStart | frontend/src/app/profile/page.tsx:55-59 | `oneYearAgo` falls on January 1 (month index 0, day 1) of the year before today's, at today's time of day |
| Calendar.Jan1RoundTrip | frontend/src/app/profile/page.tsx:55-59 | the day number of January 1 of any year converts back to that date, so the window start's year, month and day are read back correctly |
| ProfilePage.ContributionCountsOnce | frontend/src/app/profile/page.tsx:78-101 | an unarchived habit adds exactly 1 to a day's total when it was completed on that day or the day loop visits it, never 2; it adds 1 to `completed` only on its completion day and only when completed |
| ProfilePage.VisitedDays | frontend/src/app/profile/page.tsx:91-101 | the day loop visits every day from the counting start through yesterday; it visits today only when the start's time of day is not later than now's |
| ProfilePage.Contribution | frontend/src/app/profile/page.tsx:70-102 | one habit adds to a day either nothing, `(0, 1)` or `(1, 1)`: at most one to the total and to `completed` only with the total; an archived habit adds nothing |
| ProfilePage.DayBucket | frontend/src/app/profile/page.tsx:70-102 | a day's counters after the `forEach` satisfy `0 <= completed <= total <= number of habits`, so the rate is in [0, 1] |
| ProfilePage.ArchivedContributeNothing | frontend/src/app/profile/page.tsx:72 | dropping archived habits leaves every day's counters unchanged |
| ProfilePage.TotalWithinUnarchived | frontend/src/app/profile/page.tsx:78-101 | a day's total never exceeds the number of unarchived habits |
| ProfilePage.CompletedIsDoneCount | frontend/src/app/profile/page.tsx:83-85 | a day's `completed` is the number of unarchived, completed habits whose `last_completed` is that day |
| ProfilePage.PositiveRateIff | frontend/src/app/profile/page.tsx:78-110 | a day's rate is positive iff some unarchived, completed habit has its `last_completed` on that day |
| ProfilePage.VisitStep | frontend/src/app/profile/page.tsx:92-100 | one step of the day loop extends the counted days by one |
| ProfilePage.StepsCover | frontend/src/app/profile/page.tsx:91 | the day loop stops after exactly `Steps` iterations |
| ProfilePage.EmptyWindow | frontend/src/app/profile/page.tsx:64-67 | the first loop creates exactly the window's days, all at `{0, 0}` |
| ProfilePage.CountCompletion | frontend/src/app/profile/page.tsx:78-88 | the `last_completed` step adds the habit's completion part to its completion day and nothing elsewhere |
| ProfilePage.CountVisits | frontend/src/app/profile/page.tsx:91-101 | the day loop adds 1 to the total of each visited day except the completion day |
| ProfilePage.CountHabit | frontend/src/app/profile/page.tsx:74-101 | one unarchived habit adds exactly its contribution to every day |
| ProfilePage.DayBucketSnoc | frontend/src/app/profile/page.tsx:70-102 | counting one more habit adds its contribution to every day |
| ProfilePage.CountHabits | frontend/src/app/profile/page.tsx:70-102 | after the `forEach`, every day holds its starting counters plus the `DayBucket` of the whole list |
| ProfilePage.CollectSamples | frontend/src/app/profile/page.tsx:105-116 | one sample per window day, oldest first, each carrying that day's counters |
| ProfilePage.GenerateStreakData | frontend/src/app/profile/page.tsx:51-122 | on failure `[]`; otherwise one sample per day from January 1 of the previous year through today, oldest first, each carrying `DayBucket` of the fetched habits |
| ProfilePage.RunFromSpec | frontend/src/app/profile/page.tsx:133-141 | the running streak at a position is the longest run of active samples starting there |
| ProfilePage.MaxRunIsLongestRun | frontend/src/app/profile/page.tsx:133-142 | `maxStreak` is the length of a longest run of active samples; it is at most the active-day count and 0 exactly when no day is active |
| ProfilePage.ComputeStats | frontend/src/app/profile/page.tsx:124-149 | `totalActiveDays` counts the active samples, `maxStreak` is the longest run, `currentStreak` is 1 if any sample is active and 0 otherwise, and `currentStreak <= maxStreak <= totalActiveDays` |
| ProfilePage.NoHabitsNoStats | frontend/src/app/profile/page.tsx:124-149 | with no habits (or no samples) no day is active and every statistic is 0 |
| ProfilePage.NoActiveSamples | frontend/src/app/profile/page.tsx:134 | samples with `completed = 0` are never active |

## Left out

- The REST services, the backend routes, models, schemas and database, JWT handling, mock authentication and the switch between demo and live mode are not part of this model. The pages receive the service's answer as a `Result` parameter.
- The habits and profile pages import the REST `HabitsService` directly (`frontend/src/app/habits/page.tsx:14-15`, `frontend/src/app/profile/page.tsx:7`). The demo service is selected only in `frontend/src/lib/services/index.ts:27-30` and `:41-43`, which these pages do not use. The page models take the service's answer as a parameter, so `HabitsPage.CompleteMatchesService`, `HabitsPage.ArchiveMatchesService` and `HabitsPage.DeleteMatchesService` state what the page and the demo store would agree on if the page were wired to the demo store, not a behaviour of the page as shipped.
- The server-side guard `typeof window === 'undefined'` is left out: storage is always present.
- JSON serialisation to and from storage is treated as the identity. Dates are kept as integer milliseconds, not ISO strings.
- `MockData.LookupDate`: the `|| null` case for an empty stored string cannot arise, because stored dates are integers.
- async/await, React state, memoisation, loading flags, console logging and all rendering are left out. Each handler's effect is a function from the page state and the service's answer.
- Time zones and daylight saving are left out. Local-time `isSameDay`, `getMonth`, `getFullYear`, `setDate` and `new Date(y, m, d)` are modelled with the same UTC day, month and year as `toISOString`. One day is always 86 400 000 ms, so a loop stepping `setDate(+1)` becomes adding one day in milliseconds.
- Each operation's several `new Date()` calls are collapsed into one `now` (or `today`) parameter.
- Completion rates are integer pairs `(completed, total)`. "Rate > 0" is `completed > 0 && total > 0`. No floating point is modelled.
- The bucket map keys are day numbers, not `YYYY-MM-DD` strings. The map's `{ completed, total }` objects are stated counter by counter (`CompletedAt`, `TotalAt`) rather than as object values.
- Frequency and category values outside the backend's enumerations cannot be represented.
- `MockData.GenerateMockHabits`: its contract covers ids, streaks, completion and archive flags and the presence of `last_completed`. Titles, descriptions, times and dates are in the body only.
- `MockHabitsService.NewHabit`: the contract says `time_of_day` and `reminder_time` are present. That an absent value becomes `""` is in the body only.
- `MockHabitsService.UpdatedHabit`: the contract names id, timestamps, streak, `completed`, `is_archived`, `last_completed`, title, category and frequency. Description, time of day and reminder time are overwritten the same way but not restated.
- `HabitsPage.HandleHabitUpdate`: the contract states only the shape of the list. The full result, including the error message, is `HabitsPage.AfterUpdate`'s contract.
