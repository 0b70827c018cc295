# Muscle tracker: a verified model of the workout logic

Muscle tracker is a single-page web app for logging a gym session. The user
starts a workout, picks an exercise from a fixed catalogue, sets a weight
and a repetition count, and logs sets. Each set starts a 90-second rest
countdown, unless the iOS shortcut option is on, in which case the shortcut
is launched instead and no countdown starts. When the workout is finished,
the sets are sent to a Notion database and a summary is shown. A session
under way is written to local storage, meant to let a reload resume it; as
written, a reload does not resume it and deletes the stored copy (see
Findings).

This project models the logic of that app in Dafny and proves properties
about it:

- the workout reducer (`Workout`), over the four statuses IDLE, ACTIVE,
  REST and FINISHED;
- the rest countdown (`IntervalTimer`), as a class with a completion
  counter standing in for the beep;
- the session clock and its `H:MM:SS` / `M:SS` formatting (`SessionTimer`),
  with a parser that inverts the formatting;
- the page's rules (`Home`, `HomeWeight`), and the page as a stateful
  object whose handlers dispatch and persist (`HomePage`);
- the three pickers (`GridPicker`, `NumberPicker`, `WeightInput`); of these
  only `GridPicker` is rendered by app/page.tsx, while `WeightInput` (which
  renders `NumberPicker`) is a component of the repository that the page
  does not mount;
- the exercise catalogue (`Exercises`).

Units:

- Every weight in the app is a multiple of 0.5 kg, so weights are integer
  counts of half-kilograms (20 kg is 40, 200 kg is 400). The
  `Math.abs(a - b) < 0.01` comparisons then become equality, and
  `Number(x.toFixed(1))` becomes the identity.
- Instants are integer milliseconds, and durations are integer seconds.
- `Date.now()`, the fresh log id, the ISO timestamp and the outcome of the
  Notion sync are parameters.
- JavaScript's `%` truncates toward zero (`SessionTimer.Rem`).
  `Math.floor` by a positive divisor is Dafny's `/`.
  `Math.ceil(d / m)` is `-((-d) / m)`.

## Model

| member | source | states |
|---|---|---|
| Arrays.IndexOf | app/page.tsx:382-389 | `indexOf` / `findIndex`: −1 exactly when the value is absent, otherwise a position holding it with no earlier one |
| Exercises.FindById | constants/exercises.ts:42 | `find` returns `None` exactly when no entry has the id, otherwise an entry with that id, and no earlier entry has it |
| Exercises.GetExerciseById | constants/exercises.ts:41-43 | a catalogue entry with the id exactly when one exists; `None` (undefined) otherwise |
| Exercises.CatalogueWellFormed | constants/exercises.ts:22-36 | 13 entries, pairwise distinct ids, every part one of the six body parts |
| Exercises.LookupFindsEntry | constants/exercises.ts:41-43 | looking up any catalogue entry's id returns that entry |
| Exercises.DefaultIsBenchPress | constants/exercises.ts:23 | entry 0 is `bp`, the chest bench press, and is found by its id |
| Workout.Reduce | lib/workout-context.tsx:60-130 | total; an action without a case changes nothing; each field changes only under the actions whose case writes it |
| Workout.SettersReplaceOneField | lib/workout-context.tsx:85-101 | SET_WEIGHT, SET_REPS, CHANGE_EXERCISE and SET_SAVING each replace exactly their one field |
| Workout.LastWriteWins | lib/workout-context.tsx:91-101 | after any action sequence, weight and reps are those of the last SET_WEIGHT / SET_REPS (or RESET), else unchanged |
| Workout.LogSetAppends | lib/workout-context.tsx:103-107 | LOG_SET grows the logs by one at the end, keeps the earlier logs and the status |
| Workout.ResetFromAnyState | lib/workout-context.tsx:47-83 | RESET from any state gives the initial state: IDLE, 20 kg, 10 reps, no logs, null start and end, not saving, exercise `bp` |
| Workout.StartWorkoutFromAnyStatus | lib/workout-context.tsx:62-70 | START_WORKOUT from any status gives ACTIVE, start = now, end null, logs kept |
| Workout.FinishKeepsStart | lib/workout-context.tsx:72-80 | FINISH_WORKOUT(t) gives FINISHED, end t, start and logs kept |
| Workout.RestTransitionsUnguarded | lib/workout-context.tsx:109-119 | START_REST always gives REST and END_REST always ACTIVE, whatever the prior status |
| Workout.RestoreDataIsIgnored | lib/workout-context.tsx:127-128 | RESTORE_DATA falls through to `default` and leaves any state unchanged |
| Workout.EditingKeepsSession | lib/workout-context.tsx:85-107 | any run of setters and LOG_SET keeps status and session times and appends exactly the logged sets |
| Workout.StartThenFinish | lib/workout-context.tsx:62-80 | START_WORKOUT, any setters and LOG_SETs, then FINISH_WORKOUT(t): FINISHED, start kept, end t, logs appended |
| Workout.RunConcat | lib/workout-context.tsx:60-130 | running two action sequences in turn equals running their concatenation |
| Workout.ReduceWithRestore | lib/workout-context.tsx:60-130 | the corrected reducer: RESTORE_DATA replaces the state by the snapshot; every other action as before |
| IntervalTimer.Ticked | hooks/use-interval-timer.ts:42-54 | a tick keeps the total; it beeps exactly when running with at most 1 second left, and then stops at 0; otherwise it counts down by one |
| IntervalTimer.CountdownFrom | hooks/use-interval-timer.ts:42-54 | k ≥ 1 ticks from k seconds running end at 0, stopped, with exactly one more beep |
| IntervalTimer.QuietStaysQuiet | hooks/use-interval-timer.ts:42 | a stopped timer or one with no time left is left unchanged by any number of ticks |
| IntervalTimer.TicksAdd | hooks/use-interval-timer.ts:42-54 | m + n ticks are m ticks followed by n ticks |
| IntervalTimer.StartThenCountdown | hooks/use-interval-timer.ts:42-74 | `start(n)`, n ≥ 1, then n or more ticks: 0 left, stopped, exactly one beep |
| IntervalTimer.OperationsKeepRange | hooks/use-interval-timer.ts:44-85 | `0 ≤ timeLeft ≤ totalTime` is kept by start, stop, addTime (non-negative arguments) and tick |
| IntervalTimer.TicksKeepTotal | hooks/use-interval-timer.ts:44-54 | ticks never change the total |
| IntervalTimer.AddAfterCompletion | hooks/use-interval-timer.ts:42-85 | `addTime` after completion puts time back but does not restart: no tick ever changes it |
| IntervalTimer.StartZeroNeverCompletes | hooks/use-interval-timer.ts:70-74 | `start(0)` leaves the timer running with no tick and no beep, ever |
| IntervalTimer.RestTimer.constructor | hooks/use-interval-timer.ts:4-6 | all three fields start at 0, 0, false |
| IntervalTimer.RestTimer.Start | hooks/use-interval-timer.ts:70-74 | `timeLeft = totalTime = seconds`, running |
| IntervalTimer.RestTimer.Stop | hooks/use-interval-timer.ts:76-80 | not running, both counters 0 |
| IntervalTimer.RestTimer.AddTime | hooks/use-interval-timer.ts:82-85 | adds the seconds to both counters, running unchanged |
| IntervalTimer.RestTimer.Tick | hooks/use-interval-timer.ts:43-54 | the state after the callback is `Ticked` of the state before; the total is kept |
| SessionTimer.Rem | hooks/use-session-timer.ts:23-24 | JavaScript `%`: the remainder differs from the dividend by a multiple of the divisor, and lies in [0, b) for a non-negative dividend and in (-b, 0] for a negative one, which determines it |
| SessionTimer.FormatTime | hooks/use-session-timer.ts:21-30 | `formatTime`: no contract of its own; its text is characterised by `ShortForm`, `LongForm` and `FormatFields` and inverted by `ParseFormatRoundTrip` |
| SessionTimer.Components | hooks/use-session-timer.ts:22-24 | `hrs*3600 + mins*60 + secs = s`, mins and secs below 60, hrs 0 exactly when s < 3600 |
| SessionTimer.ShortForm | hooks/use-session-timer.ts:29 | below an hour the text is unpadded minutes, a colon and two-digit seconds |
| SessionTimer.LongForm | hooks/use-session-timer.ts:26-27 | from an hour on the text is hours, then two-digit minutes and seconds |
| SessionTimer.FormatFields | hooks/use-session-timer.ts:21-30 | the colon-separated fields of the text are the components, with the last field two characters long |
| SessionTimer.ParseFormatRoundTrip | hooks/use-session-timer.ts:21-30 | parsing the formatted text of any s ≥ 0 gives back s |
| SessionTimer.FormatInjective | hooks/use-session-timer.ts:21-30 | two non-negative durations with the same text are equal |
| SessionTimer.Elapsed | hooks/use-session-timer.ts:7-15 | 0 for a null or zero start; otherwise the whole seconds since the start, rounded down |
| SessionTimer.Clock.constructor | hooks/use-session-timer.ts:3-4 | `elapsed` starts at 0 |
| SessionTimer.Clock.ChangeStart | hooks/use-session-timer.ts:6-10 | a falsy start zeroes `elapsed`; a truthy one leaves it until the next tick |
| SessionTimer.Clock.Tick | hooks/use-session-timer.ts:12-15 | with a truthy start, `elapsed` becomes the whole seconds since the start |
| WeightInput.GetStep | components/weight-input.tsx:12-14 | 1 kg below 20 kg, 2.5 kg from 20 kg on |
| WeightInput.Increment | components/weight-input.tsx:16-19 | always emits the weight plus its step, strictly more |
| WeightInput.Decrement | components/weight-input.tsx:21-27 | emits exactly when the weight is at least its step, and then a non-negative weight one step lower |
| WeightInput.GenerateWeightValues | components/weight-input.tsx:30-41 | the two push loops build exactly `WeightList` |
| WeightInput.WeightListShape | components/weight-input.tsx:30-41 | 93 strictly increasing values from 0 to 200 kg, 20 kg at index 20 and 22.5 kg at index 21 |
| WeightInput.WeightListMembership | components/weight-input.tsx:30-41 | a weight is listed exactly when it is on the 1 kg grid up to 20 kg or the 2.5 kg grid from 22.5 kg to 200 kg |
| WeightInput.IncrementFollowsList | components/weight-input.tsx:16-19 | increment moves every listed weight but the last to the next listed weight |
| WeightInput.DecrementLeavesList | components/weight-input.tsx:21-27 | at 20 kg, decrement emits 17.5 kg, which is not listed |
| WeightInput.DecrementOnGrid | components/weight-input.tsx:21-27 | corrected decrement: emits exactly when the weight is at least the downward step, a lower non-negative weight |
| WeightInput.DecrementOnGridFollowsList | components/weight-input.tsx:21-27 | corrected decrement moves each listed weight to the previous one, stops at 0, and undoes increment |
| NumberPicker.Range | components/number-picker.tsx:21-24 | the values the `for` loop visits, each within [min, max] |
| NumberPicker.RangeShape | components/number-picker.tsx:21-24 | the values are empty exactly when min > max; they start at min, grow by step, stay in [min, max], and the next would pass max |
| NumberPicker.RangeIncreasing | components/number-picker.tsx:21-24 | the values are strictly increasing |
| NumberPicker.GenerateValues | components/number-picker.tsx:21-24 | the `for` loop builds exactly `Range(min, max, step)` |
| NumberPicker.RoundedIndex | components/number-picker.tsx:45 | `Math.round(scrollTop / 60)`: the row whose centre is within half a row, halves rounding up |
| NumberPicker.Clamp | components/number-picker.tsx:46 | the result is a valid index, equal to the input when that already is one, else the nearer end |
| NumberPicker.ScrollIndex | components/number-picker.tsx:41-48 | always a valid index, and the rounded row whenever that is one |
| NumberPicker.InitialScrollSelectsTwoEarlier | components/number-picker.tsx:26-34 | the opening offset for row i ≥ 2 is read back by the scroll handler as row i − 2 |
| NumberPicker.DriftStep | components/number-picker.tsx:26-48 | one round of opening effect and scroll event: row i ≥ 2 moves to i − 2, rows 0 and 1 move to row 0 |
| NumberPicker.RepeatedDrift | components/number-picker.tsx:26-48 | after k rounds from row i the selection is on row max(i − 2k, 0): repeated, the drift ends on the first row |
| NumberPicker.CenteringScrollRoundTrip | components/number-picker.tsx:41-48 | the offset `60 * i` is read back as row i |
| NumberPicker.OpenedOffsetMovesSelection | components/number-picker.tsx:26-48 | as written: opening on a value at row i ≥ 2 selects a smaller value two rows earlier |
| NumberPicker.CenteredOffsetKeepsSelection | components/number-picker.tsx:26-48 | corrected: opening at `60 * i` keeps the selected value |
| NumberPicker.Picker.constructor | components/number-picker.tsx:15-24 | closed, selection = value, values = the range, nothing emitted |
| NumberPicker.Picker.ScrollEffect | components/number-picker.tsx:26-34 | while open, a selection found at row i sets the offset to `i*60 - 120`; nothing else changes |
| NumberPicker.Picker.Open | components/number-picker.tsx:52-53 | opens without resynchronising the selection, then runs the effect |
| NumberPicker.Picker.HandleScroll | components/number-picker.tsx:41-48 | the selection becomes the value at the clamped rounded row, always a member of the values |
| NumberPicker.Picker.Confirm | components/number-picker.tsx:36-39 | emits the selection once and closes |
| NumberPicker.Picker.Close | components/number-picker.tsx:100 | only closes; the selection is kept |
| NumberPicker.Picker.SetValue | components/number-picker.tsx:17 | a new `value` prop does not reach the selection |
| GridPicker.Highlighted | components/grid-picker.tsx:62 | a cell is highlighted exactly when its value equals the selection |
| GridPicker.TapsOnlySelect | components/grid-picker.tsx:17-19 | taps change only the selection, to the last tapped value, and emit nothing |
| GridPicker.TapsThenConfirm | components/grid-picker.tsx:21-24 | open, taps, confirm: exactly one emission, the last tapped value, closed |
| GridPicker.TapsThenCancel | components/grid-picker.tsx:26-29 | open, taps, cancel: nothing emitted, selection back at `value`, closed |
| GridPicker.OpenKeepsStaleSelection | components/grid-picker.tsx:14-34 | opening does not resynchronise: after a new `value`, the old selection stays highlighted until a cancel |
| GridPicker.OnlyConfirmEmits | components/grid-picker.tsx:17-29 | only a confirm emits, and then exactly one value appended |
| GridPicker.Picker.constructor | components/grid-picker.tsx:14-15 | closed, selection = value, nothing emitted |
| GridPicker.Picker.Open | components/grid-picker.tsx:34 | only opens |
| GridPicker.Picker.HandleSelect | components/grid-picker.tsx:17-19 | only the selection changes |
| GridPicker.Picker.HandleConfirm | components/grid-picker.tsx:21-24 | emits the selection and closes |
| GridPicker.Picker.HandleCancel | components/grid-picker.tsx:26-29 | selection back to `value`, closed, nothing emitted |
| GridPicker.Picker.SetValue | components/grid-picker.tsx:13-15 | a new `value` prop does not reach the selection |
| HomeWeight.ClosestIndex | app/page.tsx:386-389 | the `reduce` keeps a value at minimal distance, and no earlier value is as close |
| HomeWeight.DecreaseWeight | app/page.tsx:377-393 | the two loops and the − rule give `PreviousEntry` of the weight list |
| HomeWeight.IncreaseWeight | app/page.tsx:418-434 | the two loops and the + rule give `NextEntry` of the weight list |
| HomeWeight.PreviousEntry | app/page.tsx:382-393 | the − rule over a value list: whatever it emits is a value of the list |
| HomeWeight.NextEntry | app/page.tsx:423-434 | the + rule over a value list: whatever it emits is a value of the list |
| HomeWeight.ClosestPosition | app/page.tsx:386-389 | on a strictly increasing list, `indexOf` of the closest value is the index the reduce found |
| HomeWeight.ClosestIsFirst | app/page.tsx:386-388 | the closest is the first value exactly when the weight is at most the midpoint of the first two |
| HomeWeight.ClosestIsLast | app/page.tsx:427-429 | the closest is the last value exactly when the weight is above the midpoint of the last two |
| HomeWeight.PreviousOnList | app/page.tsx:382-384 | on a listed value at index > 0, − gives the previous value; at index 0 nothing |
| HomeWeight.NextOnList | app/page.tsx:423-425 | on a listed value, + gives the next value; at the last one nothing |
| HomeWeight.PreviousIsBelow | app/page.tsx:382-392 | whenever − changes the weight, the result is a listed value strictly below it |
| HomeWeight.NextIsAbove | app/page.tsx:423-433 | whenever + changes the weight, the result is a listed value strictly above it |
| HomeWeight.PreviousNone | app/page.tsx:382-392 | − does nothing exactly at the first value, or off the list at a weight ≤ 0 or one nearest the first value |
| HomeWeight.NextNone | app/page.tsx:423-433 | + does nothing exactly when the weight is nearest the last value |
| HomeWeight.WeightButtonsStop | app/page.tsx:377-434 | on the weight list, − stops exactly at weights ≤ 0.5 kg and + exactly from 199 kg |
| HomeWeight.DownExamples | app/page.tsx:382-384 | − at 20 kg gives 19 kg and at 22.5 kg gives 20 kg |
| HomeWeight.ClosestToOffListWeight | app/page.tsx:386-388 | 20.5 kg is nearest to 20 kg (index 20) |
| HomeWeight.OffListExample | app/page.tsx:385-392 | − at the unlisted 20.5 kg gives 19 kg, the predecessor of the closest value |
| Home.PersistEffect | app/page.tsx:60-67 | ACTIVE or REST writes the whole state; IDLE or FINISHED removes the key |
| Home.StoredFor | app/page.tsx:60-67 | after the effect the key holds the state exactly when a session is under way |
| Home.RestoreRequest | app/page.tsx:46-56 | a RESTORE_DATA dispatch exactly when the stored text parses to a snapshot whose status is ACTIVE or REST, with that snapshot |
| Home.MountWith | app/page.tsx:38-67 | with nothing to restore the page starts idle with the key removed; the key always matches the resulting state |
| Home.Mount | app/page.tsx:38-67 | the first render with the reducer as written: with nothing to restore, idle with the key removed; the key always matches the state |
| Home.MountFixed | app/page.tsx:38-67 | the first render with the corrected reducer: the same two guarantees |
| Home.MountLosesSession | app/page.tsx:38-67 | as written, a reload never restores a session, and the stored session is deleted |
| Home.MountFixedRestoresSession | app/page.tsx:38-67 | with the corrected reducer, a saved session under way comes back on reload and stays saved |
| Home.MountWithoutSession | app/page.tsx:46-67 | with nothing to restore, both versions start idle with the key removed |
| Home.ShortcutAfterRestore | app/page.tsx:40-44 | a non-empty stored flag sets `useShortcut` to whether it reads `"true"`; otherwise it is kept |
| Home.ShortcutRoundTrip | app/page.tsx:513-517 | the flag the toggle stores is read back on reload as the same flag |
| Home.NewLog | app/page.tsx:74-82 | the new log of `logSet`: no contract of its own; `AfterLogSet` states that it carries the current exercise, weight and reps |
| Home.AfterLogSet | app/page.tsx:73-84 | LOG_SET then START_REST: REST, the new log appended, nothing else changed |
| Home.RestSeconds | app/page.tsx:86-94 | the in-app timer gets 90 seconds exactly when the shortcut is off |
| Home.ConfirmFinish | app/page.tsx:105-147 | always FINISHED, not saving, end = the instant read before the sync, start kept; the alert exactly when the sync failed |
| Home.FinishIgnoresSync | app/page.tsx:105-147 | the final state is the same whether or not the sync succeeded |
| Home.CeilDiv | app/page.tsx:124 | `Math.ceil(d / m)`: the least r with d ≤ r·m |
| Home.DurationMin | app/page.tsx:124 | the session length rounded up to whole minutes, a null start read as 0 |
| Home.AfterChangeExercise | app/page.tsx:153-159 | over the page's exercise list: an unknown id changes nothing; a known one sets an entry of the list with that id, and nothing else |
| Home.FirstMatch | app/page.tsx:173 | `find`: the earliest log of the exercise, or −1 exactly when there is none |
| Home.LastMatch | app/page.tsx:173 | the latest log of the exercise, or −1 exactly when there is none |
| Home.CopyLastSet | app/page.tsx:172-178 | as written: with a log of the current exercise, weight and reps become those of the earliest such log; otherwise nothing changes |
| Home.CopyPreviousSet | app/page.tsx:172-178 | corrected: the same with the latest such log |
| Home.CopyLastSetTakesFirst | app/page.tsx:172-178 | as written: with two or more logs of the exercise, the copy takes the earliest set, not the latest |
| Home.CopyPreviousAfterLogSet | app/page.tsx:172-178 | corrected: right after logging a set, "copy previous set" leaves weight and reps as they are |
| Home.CountFor | app/page.tsx:180 | the number of logs of the exercise, at most the number of logs |
| Home.CurrentSetNumber | app/page.tsx:180 | `currentSetNumber`: at least 1 |
| Home.CountPositive | app/page.tsx:180 | the count of the exercise's logs is positive exactly when `find` finds one |
| Home.CopyShownFromSecondSet | app/page.tsx:496 | the set number exceeds 1 exactly when the copy button is shown |
| Home.SetNumberAfterLogSet | app/page.tsx:180 | logging a set raises the set number by one |
| Home.HalfKgDown | app/page.tsx:446-447 | −0.5 kg never goes below 0 and lowers by 0.5 kg from 0.5 kg on |
| Home.HalfKgUp | app/page.tsx:460-461 | +0.5 kg: the weight strictly rises |
| Home.RepsDown | app/page.tsx:473 | reps − never goes below 1 and lowers by one from 2 on |
| Home.RepsUp | app/page.tsx:488 | reps +: the count strictly rises |
| Home.SmallButtonsRoundTrip | app/page.tsx:446-488 | the ± pairs undo each other above their floors; the floors are fixed points of −; + is unbounded |
| Home.FinishedDuration | app/page.tsx:206-208 | 0 unless both session times are truthy; otherwise the whole seconds between them |
| Home.FinishedDurationIsClockAtEnd | app/page.tsx:206-245 | after finishing, the summary duration equals the session clock at the end instant, and its text reads back as that duration |
| Home.GroupIndex | app/page.tsx:212 | the card of a name, or −1 exactly when there is none |
| Home.AddLog | app/page.tsx:211-220 | one step of the grouping `reduce`; `AddNewCard` and `AddToCard` state what it keeps |
| Home.GroupByName | app/page.tsx:211-223 | the grouping `reduce` followed by `Object.values`; `GroupingCorrect` states what it builds |
| Home.NoSetsForAbsentName | app/page.tsx:211-221 | a name no log carries collects no sets |
| Home.AddNewCard | app/page.tsx:212-219 | a log under a new name adds a card and keeps the summary correct |
| Home.AddToCard | app/page.tsx:219 | a log under a known name joins its card and keeps the summary correct |
| Home.GroupingCorrect | app/page.tsx:211-223 | the cards have distinct names; each holds exactly that exercise's sets in log order; every log has a card; each card's part is the body part of the first log with its name; the cards are in the order their names were first logged |
| HomePage.Page.constructor | app/page.tsx:38-67 | the first render: state and workout key as `Home.Mount`, the shortcut flag restored, the timer idle, the exercise list the catalogue; the key matches the state |
| HomePage.Page.Persist | app/page.tsx:60-67 | the workout key is set from the state; nothing else changes |
| HomePage.Page.Dispatch | app/page.tsx:60-67 | the state becomes the reducer's answer, and the key is refreshed exactly when the state changed |
| HomePage.Page.StartWorkout | app/page.tsx:69-71 | START_WORKOUT; the session is saved |
| HomePage.Page.LogSet | app/page.tsx:73-94 | the state as `AfterLogSet`, saved; the timer starts 90 seconds when the shortcut is off, else the shortcut is launched once |
| HomePage.Page.SkipRest | app/page.tsx:96-99 | the timer is stopped and cleared; the status is ACTIVE and saved |
| HomePage.Page.ConfirmFinish | app/page.tsx:105-147 | the state as `Home.ConfirmFinish`, the key removed, the alert exactly on failure, `durationMin` from the start the handler saw |
| HomePage.Page.Reset | app/page.tsx:149-151 | back to the initial state with the key removed |
| HomePage.Page.ChangeExercise | app/page.tsx:153-159 | the state as `Home.AfterChangeExercise` over the page's list; the key kept in step |
| HomePage.Page.CopyLastSet | app/page.tsx:172-178 | the state as `Home.CopyLastSet`; the key kept in step |
| HomePage.Page.WeightDown | app/page.tsx:376-394 | SET_WEIGHT with `PreviousEntry` of the weight list when there is one, otherwise no dispatch; the key kept in step |
| HomePage.Page.WeightUp | app/page.tsx:417-435 | SET_WEIGHT with `NextEntry` of the weight list when there is one, otherwise no dispatch; the key kept in step |
| HomePage.Page.HalfKgDown | app/page.tsx:445-448 | SET_WEIGHT with the lowered weight, never negative |
| HomePage.Page.HalfKgUp | app/page.tsx:459-462 | SET_WEIGHT with a strictly larger weight |
| HomePage.Page.RepsDown | app/page.tsx:473 | SET_REPS with the lowered count, never below 1 |
| HomePage.Page.RepsUp | app/page.tsx:488 | SET_REPS with a strictly larger count |
| HomePage.Page.ToggleShortcut | app/page.tsx:513-517 | flips the flag and stores its text, which reads back as the new flag |

## Left out

- The Notion route and client (app/api/notion/route.ts, lib/notion-client.ts) are not part of this model. They are network clients; the model keeps only the sync's outcome, as a parameter of `ConfirmFinish`, and the `durationMin` field of the payload.
- The service worker and PWA helpers (lib/pwa-utils.ts, public/sw.js), the PWA effect at app/page.tsx:29-35, the layout and the styling configuration: browser and device APIs and markup.
- The Web Audio beep (hooks/use-interval-timer.ts:11-39) is counted in `beeps` instead of played.
- `setInterval` / `clearInterval` scheduling is not modelled. A tick is a method call. The model assumes that ticks arrive only while an interval is scheduled, and `Ticked` is a no-op otherwise.
- The iOS shortcut URL is counted in `launches`; its effect outside the page is not modelled.
- `alert`, `console.error`, `crypto.randomUUID` and `new Date().toISOString()` become outputs or parameters.
- Custom exercises: `getAllExercises`, `addCustomExercise` and `deleteCustomExercise` are imported by the page but not defined in constants/exercises.ts, and are not part of this model. The page's exercise list starts as the fixed catalogue and `changeExercise` searches that list. `handleAddCustomExercise` is left out.
- JSON: `JSON.stringify` followed by `JSON.parse` is taken as the identity on a state. A string that does not parse is `Unparseable`.
- Object key order in `Object.values(exerciseGroups)`: the model lists the cards in insertion order, which `GroupingCorrect` proves is the order of first appearance. JavaScript puts integer-like keys first; the catalogue's exercise names are never integer-like.
- JSX rendering, the modal visibility flags and the `isSaving` spinner are left out.
- The `async` interleaving inside `confirmFinishWorkout` is left out. The handler is one atomic step, and the intermediate SET_SAVING true is persisted and then overwritten.
- The rest of the sync payload, apart from `durationMin` (dates, logs mapping), is left out.
- Scroll offsets are whole pixels. The browser's clamping of `scrollTop` to the scrollable range is not modelled; a negative offset reads as row 0 either way. The `Picker` class runs the opening effect once per opening; its re-runs after each scroll-driven change of the selection are modelled on values by `DriftStep` and `RepeatedDrift`, which assume that each programmatic scroll produces one scroll event. The effect also re-runs on each render because `values` is a new array every time, which changes nothing once the selection is settled.
- NumberPicker.Picker.HandleScroll requires a non-empty value list. An empty list renders only padding, which cannot scroll.
- NumberPicker.GenerateValues and NumberPicker.Picker.constructor require `step > 0` or `min > max`. Otherwise the source's loop never ends.
- Floating point is not modelled: every weight is a multiple of 0.5 kg and every time an integer.
- Home.HalfKgUp states only that the weight rises; the exact amount is pinned by `Home.SmallButtonsRoundTrip`.
- Home.RepsUp states only that the count rises; the exact amount is pinned by `Home.SmallButtonsRoundTrip`.

## Findings

| source | as written | input that shows it | evidently intended | confidence | as-written member | corrected member |
|---|---|---|---|---|---|---|
| app/page.tsx:51, lib/workout-context.tsx:127-128 | the restore effect dispatches RESTORE_DATA, which the reducer has no case for, so the state stays idle and the persist effect removes the saved session | reload during an ACTIVE session | a reload resumes the saved session | not executed | Home.MountLosesSession | Home.MountFixedRestoresSession |
| app/page.tsx:172-178 | "copy previous set" uses `find`, which returns the earliest log of the exercise | two logged sets of the same exercise, 60 kg then 80 kg: the copy gives 60 kg | the most recent set is copied | not executed | Home.CopyLastSetTakesFirst | Home.CopyPreviousAfterLogSet |
| components/number-picker.tsx:26-48 | the opening offset is `i*60 - 120`, which the scroll handler reads as row i − 2; the changed selection re-runs the effect, so the drift repeats until the first row, after opening and after every scroll the user makes | open the picker on 10 kg (row 10): a scroll event at that offset selects 8 kg, and further rounds end on 0 kg (`RepeatedDrift`) | row i is centred, at offset `i*60` | not executed; the component is not rendered by app/page.tsx | NumberPicker.OpenedOffsetMovesSelection | NumberPicker.CenteredOffsetKeepsSelection |
| components/weight-input.tsx:12-14,21-27 | decrement takes its step from the current weight, so at 20 kg it steps 2.5 kg down to 17.5 kg, off the 1 kg grid | weight 20 kg, press − | 19 kg, the previous value of the weight list | not executed; the component is not rendered by app/page.tsx, and the list it builds is unused | WeightInput.DecrementLeavesList | WeightInput.DecrementOnGridFollowsList |
