# Water tracker: a Dafny model of its persistence, intake state and statistics

The Android app logs drinks of water (amount in ml, time in epoch milliseconds), keeps a daily
goal, shows a history list and a few statistics. Apart from rendering, its logic sits in
`MainActivity.kt`. This project models that logic in Dafny and proves properties of the model:

- **Persistence** (`preferences.dfy`, `persistence.dfy`). The key-value store is a
  `map<Key, int>`. `Key` has one constructor per key family: `history_size`,
  `entry_{i}_amount`, `entry_{i}_timestamp`, `current_water` and `daily_goal`. A missing key reads
  as the caller's default. `saveWaterHistory` is a loop that fills an editor and then applies it.
  `loadWaterHistory` is a loop that reads indices `0 until history_size`, keeps the entries with
  a positive amount and a positive timestamp, and then sorts the list newest first.
- **History list operations** (`entries.dfy`). `remove(element)` is `indexOf` followed by a
  removal at that index. `sortByDescending { it.timestamp }` is a stable sort, modelled as an
  insertion sort. The model proves that this is the only newest-first ordering that keeps entries
  with equal timestamps in their original order.
- **Intake state** (`tracker.dfy`). The remembered state of `WaterTrackerApp` is a class. Its
  fields are the current intake, the daily goal, the history list and the goal dialog. The
  dialog is hidden, or shown with the text in its field. Add, remove, the dialog's
  open/edit/confirm/dismiss, and the effect that stores both scalars are methods. Each method is
  tied to a pure transition on `AppState`, and the lemmas are stated about those transitions.
  The clock is a parameter `now`.
- **Kotlin `Int` arithmetic and text** (`kotlin_int.dfy`, `int_text.dfy`). Additions wrap around
  at 32 bits, `/` rounds toward zero, and `Int.toString()` / `String.toIntOrNull()` are modelled
  over ASCII decimal text.
- **Statistics** (`statistics.dfy`). Today's entries, the weekly total (the amounts strictly after
  a cutoff, summed as `Int`s), the daily average `weeklyTotal / 7`, and the per-intake average,
  which is computed only for a non-empty day. The calendar tests are a predicate `isToday` and a
  cutoff timestamp `weekAgo`.

Some behaviours of the code are easy to misread. The model follows the code:

- The load drops every entry whose timestamp is not positive, not only a zero timestamp.
- The save/load round trip returns the saved list only when every entry is loadable.
- Removing an entry that is not in the list still lowers the intake.
- The add and remove handlers (MainActivity.kt:219, 230) update the intake step by step so that
  it equals the sum of the history. That equality does not survive a restart that falls between
  the two writes: the history is saved inside the handler, but the intake is stored by a later
  effect.
- The statistics card for today shows the intake counter `currentWater`, not the sum of today's entries.

## Model

| member | source | states |
|---|---|---|
| `KotlinInt.Wrap` | watertracker/app/src/main/java/com/example/watertracker/MainActivity.kt:219 | the result of `currentWater += amount` is an `Int`, agrees with the exact sum modulo 2^32, and equals it when the sum fits |
| `KotlinInt.MaxOf` | watertracker/app/src/main/java/com/example/watertracker/MainActivity.kt:230 | `maxOf(0, x)` is at least both arguments and is one of them |
| `KotlinInt.Div` | watertracker/app/src/main/java/com/example/watertracker/MainActivity.kt:592 | `Int` division rounds toward zero: remainder in `[0, b)` for a non-negative dividend and in `(-b, 0]` for a negative one; the quotient has the dividend's sign |
| `IntText.NatToDigits` | watertracker/app/src/main/java/com/example/watertracker/MainActivity.kt:670 | the rendering of a natural number is a non-empty string of digits whose value is the number, beginning with `0` only for zero |
| `IntText.IntToString` | watertracker/app/src/main/java/com/example/watertracker/MainActivity.kt:670 | `currentGoal.toString()` starts with `-` exactly for a negative number and is all digits otherwise |
| `IntText.ToIntOrNull` | watertracker/app/src/main/java/com/example/watertracker/MainActivity.kt:690 | `toIntOrNull` yields only `Int` values, only for an optional `+`/`-` followed by at least one digit (a lone sign gives `null`), and then the digits' value, negated after `-` |
| `IntText.ParsesSignedDigits` | watertracker/app/src/main/java/com/example/watertracker/MainActivity.kt:690 | every optional sign followed by at least one digit parses to its signed value when that value fits in an `Int` and to `null` otherwise; leading zeros and `+` are accepted, so `+2500` and `02500` both give 2500 |
| `IntText.ParsesOwnRendering` | watertracker/app/src/main/java/com/example/watertracker/MainActivity.kt:670-690 | parsing the text that `toString()` wrote gives back the same `Int` |
| `Preferences.SharedPreferences.Apply` | watertracker/app/src/main/java/com/example/watertracker/MainActivity.kt:734 | `apply()` commits every pending write at once; keys not written keep their values |
| `Entries.IndexOf` | watertracker/app/src/main/java/com/example/watertracker/MainActivity.kt:229 | the position found holds the entry and no earlier position does; -1 exactly when the entry is absent |
| `Entries.RemoveFirstRemovesOneCopy` | watertracker/app/src/main/java/com/example/watertracker/MainActivity.kt:229 | `remove(entry)`, modelled by `Entries.RemoveFirst`, takes away exactly one copy of the entry when there is one (as multisets) and leaves the list unchanged otherwise |
| `Entries.RemoveFirstShifts` | watertracker/app/src/main/java/com/example/watertracker/MainActivity.kt:229 | entries before the first copy keep their places, and later ones move up by one: only the first equal entry is removed and the order is kept |
| `Entries.RemoveFirstTotal` | watertracker/app/src/main/java/com/example/watertracker/MainActivity.kt:229-230 | removing an entry that is present lowers the list's total by exactly its amount |
| `Entries.RemoveFirstKeepsNewestFirst` | watertracker/app/src/main/java/com/example/watertracker/MainActivity.kt:229 | removal keeps a newest-first list newest first |
| `Entries.InsertByTimestamp` | watertracker/app/src/main/java/com/example/watertracker/MainActivity.kt:749 | one insertion step of the sort adds exactly the inserted entry (as multisets) |
| `Entries.SortByDescendingTimestamp` | watertracker/app/src/main/java/com/example/watertracker/MainActivity.kt:749 | the sorted list is newest first and a permutation of its input |
| `Entries.SortIsStable` | watertracker/app/src/main/java/com/example/watertracker/MainActivity.kt:749 | for every timestamp, the entries stamped with it appear in the sorted list in their original order |
| `Entries.SortKeepsNewestFirst` | watertracker/app/src/main/java/com/example/watertracker/MainActivity.kt:749 | a list that is already newest first comes out unchanged |
| `Entries.StableNewestFirstIsUnique` | watertracker/app/src/main/java/com/example/watertracker/MainActivity.kt:749 | two newest-first lists with the same entries per timestamp, in the same order, are equal |
| `Entries.SortIsTheStableOrdering` | watertracker/app/src/main/java/com/example/watertracker/MainActivity.kt:749 | any newest-first list that keeps the per-timestamp order of the input is the sort's result, so the model does not depend on which stable sort the library uses |
| `Persistence.PendingWritesContents` | watertracker/app/src/main/java/com/example/watertracker/MainActivity.kt:726-732 | the editor holds `history_size` = size and both keys of each index put so far, and no other key |
| `Persistence.SavedContents` | watertracker/app/src/main/java/com/example/watertracker/MainActivity.kt:725-735 | after a save, `history_size` is the list's size and index `i` holds entry `i`; every other key is unchanged, including stale keys at indices at or above the size |
| `Persistence.SavedReadsBack` | watertracker/app/src/main/java/com/example/watertracker/MainActivity.kt:727-731 | reading a saved store through `Preferences.Get` (`getInt`/`getLong` with default 0) and `Persistence.EntryAt` gives the list's size as the count and entry `i` at each index below it |
| `Persistence.SavedLeavesOtherKeys` | watertracker/app/src/main/java/com/example/watertracker/MainActivity.kt:725-735 | a save leaves every key it does not write (for one, `current_water`) reading as before through `Preferences.Get` |
| `Persistence.SaveWaterHistory` | watertracker/app/src/main/java/com/example/watertracker/MainActivity.kt:725-735 | the save loop plus `apply()` leaves the store equal to `Persistence.Saved` of the old store and the list |
| `Persistence.KeptBelow` | watertracker/app/src/main/java/com/example/watertracker/MainActivity.kt:740-747 | the loop keeps no more entries than the indices it visits, and only loadable ones |
| `Persistence.LoadWaterHistory` | watertracker/app/src/main/java/com/example/watertracker/MainActivity.kt:737-750 | the result is `Persistence.Loaded`, the sorted concatenation of the given list and the stored entries: newest first and a permutation of them |
| `Persistence.KeptBelowMembers` | watertracker/app/src/main/java/com/example/watertracker/MainActivity.kt:740-747 | membership: an entry is kept exactly when some visited index holds it (`Persistence.EntryAt`) and its amount and timestamp are positive (`Persistence.Loadable`) |
| `Persistence.EntriesBelowAt` | watertracker/app/src/main/java/com/example/watertracker/MainActivity.kt:741-742 | position `i` of the raw reads `Persistence.EntriesBelow` is the entry read at index `i` with default 0 |
| `Persistence.KeptBelowIsFiltered` | watertracker/app/src/main/java/com/example/watertracker/MainActivity.kt:740-747 | the loop keeps, in index order, one copy of the entry at each visited index that is loadable, and nothing else |
| `Persistence.StoredEntriesMembers` | watertracker/app/src/main/java/com/example/watertracker/MainActivity.kt:738-747 | membership: an entry is among `Persistence.StoredEntries`, the entries a load takes from the store, exactly when some index `i` with `0 <= i < history_size` holds it and it is loadable; missing keys read as 0 and are dropped |
| `Persistence.StoredEntriesAreFiltered` | watertracker/app/src/main/java/com/example/watertracker/MainActivity.kt:738-747 | from any store, a load takes the loadable entries among indices `0 until history_size`, each once and in index order, which fixes the history's size, total and the order of equal timestamps after the stable sort |
| `Persistence.KeptBelowFrame` | watertracker/app/src/main/java/com/example/watertracker/MainActivity.kt:740-747 | the loop's result depends only on the keys of the indices it visits |
| `Persistence.LoadReadsOnlyStoredIndices` | watertracker/app/src/main/java/com/example/watertracker/MainActivity.kt:738-747 | two stores that agree on `history_size` and on the keys of the indices below it load the same entries |
| `Persistence.KeepLoadableOfLoadable` | watertracker/app/src/main/java/com/example/watertracker/MainActivity.kt:744 | the load's filter keeps a list of loadable entries whole |
| `Persistence.KeptBelowSaved` | watertracker/app/src/main/java/com/example/watertracker/MainActivity.kt:725-747 | after a save, the first `n` indices give back the loadable entries among the first `n` saved |
| `Persistence.StoredEntriesAfterSave` | watertracker/app/src/main/java/com/example/watertracker/MainActivity.kt:725-747 | after a save a load reads back the saved list's loadable entries in order, whatever the store held before: stale keys are never read |
| `Persistence.SaveLoadRoundTrip` | watertracker/app/src/main/java/com/example/watertracker/MainActivity.kt:725-750 | saving loadable entries and loading them into an empty list gives a newest-first permutation of them, and the list itself when it was already newest first |
| `Tracker.GoalFromText` | watertracker/app/src/main/java/com/example/watertracker/MainActivity.kt:690-691 | the dialog accepts a goal only when the text parses to an `Int` above zero, and then accepts exactly that value |
| `Tracker.FreshInstallDefaults` | watertracker/app/src/main/java/com/example/watertracker/MainActivity.kt:141-154 | on an empty store the app starts with intake 0, goal 2000, an empty history and the dialog hidden |
| `Tracker.InitialHistoryIsOrdered` | watertracker/app/src/main/java/com/example/watertracker/MainActivity.kt:150-154 | the history loaded at start-up is newest first and holds only loadable entries |
| `Tracker.AddRecordsDrink` | watertracker/app/src/main/java/com/example/watertracker/MainActivity.kt:218-220 | adding raises the intake by exactly the amount when no overflow occurs; `(amount, now)` becomes element 0 with the old entries after it in order; goal and dialog unchanged |
| `Tracker.AddKeepsTotal` | watertracker/app/src/main/java/com/example/watertracker/MainActivity.kt:219-220 | if the intake equals the history's total before an add without overflow, it does after |
| `Tracker.RemoveClampsAtZero` | watertracker/app/src/main/java/com/example/watertracker/MainActivity.kt:229-230 | after a removal the intake is never negative; when the subtraction does not overflow, it is the old intake minus the amount when that is non-negative, and 0 when that is negative; exactly one copy leaves the list, or none when the entry is absent |
| `Tracker.RemoveKeepsTotal` | watertracker/app/src/main/java/com/example/watertracker/MainActivity.kt:229-230 | removing an entry that is present from a history of non-negative amounts whose total equals the intake leaves the clamp inactive and the equality intact |
| `Tracker.AddKeepsStorable` | watertracker/app/src/main/java/com/example/watertracker/MainActivity.kt:220 | a positive amount added at a positive time no earlier than the newest entry keeps the history newest first and loadable |
| `Tracker.RemoveKeepsStorable` | watertracker/app/src/main/java/com/example/watertracker/MainActivity.kt:229 | a removal keeps the history newest first and loadable |
| `Tracker.ReopenRestoresState` | watertracker/app/src/main/java/com/example/watertracker/MainActivity.kt:141-161 | after the history is saved and both scalars are written, start-up restores the intake, the goal and the history exactly |
| `Tracker.RestartBeforeScalarWrite` | watertracker/app/src/main/java/com/example/watertracker/MainActivity.kt:142-161 | a start-up after an add's history save but before the scalar write sees the new entry with the old intake, which then falls short of the history's total by the amount |
| `Tracker.ConfirmAcceptsOnlyPositiveInts` | watertracker/app/src/main/java/com/example/watertracker/MainActivity.kt:689-694 | confirm sets the goal to the parsed value and closes the dialog exactly when the text parses to an `Int` above zero; otherwise the state is unchanged |
| `Tracker.ConfirmUntouchedGoal` | watertracker/app/src/main/java/com/example/watertracker/MainActivity.kt:670-694 | for an `Int` goal and a hidden dialog, opening the dialog and confirming at once brings back the state before opening when the goal is positive; a non-positive goal is left and the dialog stays open |
| `Tracker.OpenGoalDialogIsIdempotent` | watertracker/app/src/main/java/com/example/watertracker/MainActivity.kt:178 | after the settings button the dialog is shown; pressing it again changes nothing; a shown dialog keeps its text; only the dialog changes |
| `Tracker.GoalStaysPositive` | watertracker/app/src/main/java/com/example/watertracker/MainActivity.kt:218-250 | a positive goal stays positive through every transition |
| `Tracker.WaterTrackerApp.constructor` | watertracker/app/src/main/java/com/example/watertracker/MainActivity.kt:141-154 | start-up state `Tracker.Initial`: `current_water` (default 0), `daily_goal` (default 2000), the history loaded into an empty list, the dialog hidden |
| `Tracker.WaterTrackerApp.AddWater` | watertracker/app/src/main/java/com/example/watertracker/MainActivity.kt:218-222 | the new state is `Tracker.Added` of the old one, and the store is the old store with the new history saved |
| `Tracker.WaterTrackerApp.RemoveEntry` | watertracker/app/src/main/java/com/example/watertracker/MainActivity.kt:228-232 | the new state is `Tracker.Removed` of the old one, and the store is the old store with the new history saved |
| `Tracker.WaterTrackerApp.OpenGoalDialog` | watertracker/app/src/main/java/com/example/watertracker/MainActivity.kt:178 | the new state is `Tracker.GoalDialogOpened` of the old one: a hidden dialog opens with the current goal's `toString()` text; a dialog already shown is left as it is, with its typed text |
| `Tracker.WaterTrackerApp.EditGoalText` | watertracker/app/src/main/java/com/example/watertracker/MainActivity.kt:681 | the new state is `Tracker.GoalTextEdited` of the old one: typing replaces the dialog's text and nothing else |
| `Tracker.WaterTrackerApp.ConfirmGoal` | watertracker/app/src/main/java/com/example/watertracker/MainActivity.kt:689-694 | the confirm button performs `Tracker.GoalConfirmed`: `toIntOrNull`, then the goal is set and the dialog closed only for a value above zero |
| `Tracker.WaterTrackerApp.DismissGoalDialog` | watertracker/app/src/main/java/com/example/watertracker/MainActivity.kt:250 | the new state is `Tracker.GoalDialogDismissed` of the old one: dismissing hides the dialog and changes nothing else |
| `Tracker.WaterTrackerApp.PersistScalars` | watertracker/app/src/main/java/com/example/watertracker/MainActivity.kt:156-161 | the store becomes `Tracker.WithScalars` of the old store and the state: the effect stores `current_water` and `daily_goal` from the current state and touches no other key |
| `Statistics.TodayEntries` | watertracker/app/src/main/java/com/example/watertracker/MainActivity.kt:557-561 | today's entries are exactly the history's entries whose timestamp is today, each with as many copies as the history holds, so the count and the divisor of the average are those of `filter` |
| `Statistics.EntriesAfter` | watertracker/app/src/main/java/com/example/watertracker/MainActivity.kt:563-566 | the weekly filter keeps exactly the entries strictly after the cutoff, each with as many copies as the history holds |
| `Statistics.CutoffSplitsTotal` | watertracker/app/src/main/java/com/example/watertracker/MainActivity.kt:563-567 | the totals after the cutoff and at or before it add up to the history's total |
| `Statistics.SumOfFromIsWrappedTotal` | watertracker/app/src/main/java/com/example/watertracker/MainActivity.kt:567 | wrapping at each `Int` addition of `sumOf` gives the wrapped exact total |
| `Statistics.SumOfAmounts` | watertracker/app/src/main/java/com/example/watertracker/MainActivity.kt:567 | `sumOf { it.amount }` is an `Int`, congruent to the exact total modulo 2^32, and equal to it when the total fits |
| `Statistics.WeeklyTotalIsExact` | watertracker/app/src/main/java/com/example/watertracker/MainActivity.kt:563-567 | with non-negative amounts and a total that fits, the weekly total `Statistics.WeeklyTotal` is the exact sum of the amounts after the cutoff, between 0 and the history's total |
| `Statistics.DailyAverage` | watertracker/app/src/main/java/com/example/watertracker/MainActivity.kt:592 | the shown average is `weeklyTotal / 7` rounded toward zero: `7 * r` is within 7 of the total, on the zero side |
| `Statistics.AveragePerIntake` | watertracker/app/src/main/java/com/example/watertracker/MainActivity.kt:605-608 | the per-intake average exists exactly when today's list is non-empty, so there is no division by zero |
| `Statistics.AverageWithinAmounts` | watertracker/app/src/main/java/com/example/watertracker/MainActivity.kt:605-608 | when the day's total fits in an `Int`, the per-intake average lies between the day's smallest and largest amount |

## Left out

- Compose rendering is not modelled: layout, colours, text, the bottom navigation and tab index (MainActivity.kt:163-240), the main and history screens' layout, and `HistoryItem`'s time formatting. None of it holds logic beyond the tab index.
- Notifications are not modelled: the channel, `sendNotification`, the permission check and the permission launcher (MainActivity.kt:49-132). They are Android platform calls.
- The five-second `Timer` reminder (MainActivity.kt:98-105) and `WaterReminderWorker.kt` are not modelled. They are background scheduling that only posts a notification.
- `build.gradle.kts` is not modelled. It is build configuration.
- The float progress values and the threshold messages are not modelled (MainActivity.kt:263, 307, 321-334, 585). They are floating-point display values.
- `Calendar` is not modelled: the day-of-year, year and `add(DAY_OF_YEAR, -7)` arithmetic depends on the time zone. The model takes a predicate `isToday` and a cutoff `weekAgo` instead; `after` is read as strictly later. The code rebuilds `weekAgo` from the clock for every entry inside the filter (MainActivity.kt:565), so its cutoff can move forward during one scan; the model uses one cutoff for the whole scan.
- The clock is a parameter: `System.currentTimeMillis()` is `now`.
- The effect that writes `current_water` and `daily_goal` is modelled as the step `PersistScalars`. When Compose runs it after a recomposition is not modelled, and neither is the asynchronous commit of `apply()`, which the model treats as immediate.
- Store values are unbounded integers. The `Int`/`Long` typing of each key, and a `ClassCastException` on a mistyped value, are not modelled. Timestamps are not bounded to 64 bits.
- `IntText.ToIntOrNull`: accepts only ASCII digits. Kotlin also accepts other Unicode decimal digits through `Character.digit`.
- `KotlinInt.Div`: requires a positive divisor. Both divisions in the statistics divide by 7 or by the size of a non-empty list. Division by zero and the `MIN_VALUE / -1` overflow are therefore not modelled.
- `Tracker.AddKeepsTotal`: assumes the add does not overflow. The wrap-around itself is modelled by `KotlinInt.Wrap`.
