/**
 * The rules of the main page (app/page.tsx): the local-storage persistence
 * and restore effects, the handlers that issue dispatch sequences, the
 * set counter and "copy previous set", the small ± buttons, and the
 * figures of the FINISHED screen.
 *
 * Local storage holds one abstract value per key. A stored workout snapshot
 * is `JSON.stringify(state)`; reading it back with `JSON.parse` either fails
 * or yields the snapshot (`Parsed`). Weights are half-kilograms, instants
 * integer milliseconds.
 */
module Home {
  import opened Wrappers
  import Exercises
  import W = Workout
  import SessionTimer

  // ---- Persistence ----

  /** What `JSON.parse` makes of the stored workout string. */
  datatype Saved = Unparseable | Parsed(snapshot: W.WorkoutState)

  /** The write the persist effect performs on the workout key. */
  datatype StorageOp = Write(snapshot: W.WorkoutState) | Remove

  /** ACTIVE or REST: a session is under way. */
  predicate InSession(s: W.WorkoutState)
  {
    s.status == W.Active || s.status == W.Rest
  }

  /** The persist effect: a session under way is saved whole; IDLE and FINISHED delete the key. */
  function PersistEffect(s: W.WorkoutState): (op: StorageOp)
    ensures op.Write? <==> InSession(s)
    ensures op.Write? ==> op.snapshot == s
  {
    if InSession(s) then Write(s)
    else Remove // the `else if` names IDLE and FINISHED, the two remaining statuses
  }

  /** The workout key after the persist effect has run on `s`. */
  function StoredFor(s: W.WorkoutState): (r: Option<Saved>)
    ensures r.Some? <==> InSession(s)
    ensures r.Some? ==> r.value == Parsed(s)
  {
    match PersistEffect(s)
    case Write(snapshot) => Some(Parsed(snapshot))
    case Remove => None
  }

  /**
   * The restore effect's decision on the stored workout (`None` for a
   * missing or empty key): a RESTORE_DATA dispatch exactly when the string
   * parses to a snapshot whose status is ACTIVE or REST.
   */
  function RestoreRequest(saved: Option<Saved>): (r: Option<W.Action>)
    ensures r.Some? <==> saved.Some? && saved.value.Parsed? && InSession(saved.value.snapshot)
    ensures r.Some? ==> r.value == W.RestoreData(saved.value.snapshot)
  {
    match saved
    case None => None
    case Some(Unparseable) => None
    case Some(Parsed(data)) =>
      if data.status == W.Active || data.status == W.Rest then Some(W.RestoreData(data)) else None
  }

  /**
   * The page's first render with the stored workout `saved`, given the
   * reducer's response `reduced` to the restore request: the restore effect
   * queues its dispatch, the persist effect then runs on the initial IDLE
   * state and deletes the key, and only a state that the dispatch changed
   * is persisted again. Yields the state and the key afterwards.
   */
  function MountWith(saved: Option<Saved>, reduced: W.WorkoutState): (r: (W.WorkoutState, Option<Saved>))
    ensures RestoreRequest(saved).None? ==> r == (W.InitialState, None)
    ensures r.1 == StoredFor(r.0)
  {
    var s0 := W.InitialState;
    var stored := StoredFor(s0);
    var s1 := if RestoreRequest(saved).Some? then reduced else s0;
    if s1 == s0 then (s0, stored) else (s1, StoredFor(s1))
  }

  /** Mount with the reducer as written. */
  function Mount(saved: Option<Saved>, now: int): (r: (W.WorkoutState, Option<Saved>))
    ensures RestoreRequest(saved).None? ==> r == (W.InitialState, None)
    ensures r.1 == StoredFor(r.0)
  {
    var req := RestoreRequest(saved);
    MountWith(saved, if req.Some? then W.Reduce(W.InitialState, req.value, now) else W.InitialState)
  }

  /** Mount with the reducer that applies RESTORE_DATA. */
  function MountFixed(saved: Option<Saved>, now: int): (r: (W.WorkoutState, Option<Saved>))
    ensures RestoreRequest(saved).None? ==> r == (W.InitialState, None)
    ensures r.1 == StoredFor(r.0)
  {
    var req := RestoreRequest(saved);
    MountWith(saved, if req.Some? then W.ReduceWithRestore(W.InitialState, req.value, now) else W.InitialState)
  }

  /**
   * As written, a reload never restores a session, whatever is stored, and
   * the stored session is deleted by the first persist effect.
   */
  lemma MountLosesSession(saved: Option<Saved>, now: int)
    ensures Mount(saved, now) == (W.InitialState, None)
  {
  }

  /** A session under way that was saved and is reloaded comes back, and stays saved. */
  lemma MountFixedRestoresSession(s: W.WorkoutState, now: int)
    requires InSession(s)
    ensures MountFixed(StoredFor(s), now) == (s, StoredFor(s))
    ensures StoredFor(s) == Some(Parsed(s))
  {
    assert s.status != W.InitialState.status;
  }

  /** Nothing to restore: both versions start from the initial state with the key deleted. */
  lemma MountWithoutSession(saved: Option<Saved>, now: int)
    requires RestoreRequest(saved).None?
    ensures MountFixed(saved, now) == (W.InitialState, None)
    ensures Mount(saved, now) == (W.InitialState, None)
  {
  }

  /** `String(b)`, the text the shortcut toggle stores. */
  function BoolString(b: bool): string
  {
    if b then "true" else "false"
  }

  /** The restore effect on the shortcut flag: a non-empty stored string sets it to whether that string is `"true"`. */
  function ShortcutAfterRestore(saved: Option<string>, current: bool): (r: bool)
    ensures saved.None? || saved.value == [] ==> r == current
    ensures saved.Some? && saved.value != [] ==> (r <==> saved.value == "true")
  {
    if saved.Some? && saved.value != [] then saved.value == "true" else current
  }

  /** What the toggle stores is read back as the flag it stored. */
  lemma ShortcutRoundTrip(b: bool, current: bool)
    ensures ShortcutAfterRestore(Some(BoolString(b)), current) == b
  {
  }

  // ---- Handlers ----

  /** `logSet`'s new log: the current exercise, weight and reps, with a fresh id and timestamp. */
  function NewLog(s: W.WorkoutState, id: string, timestamp: string): W.WorkoutLog
  {
    W.WorkoutLog(id, s.currentExercise.id, s.currentExercise.name, s.currentExercise.part, s.weight, s.reps, timestamp)
  }

  /** `logSet`'s dispatches: LOG_SET with the new log, then START_REST. */
  function AfterLogSet(s: W.WorkoutState, id: string, timestamp: string, now: int): (r: W.WorkoutState)
    ensures r.status == W.Rest
    ensures r.logs == s.logs + [NewLog(s, id, timestamp)]
    ensures r == s.(status := W.Rest, logs := r.logs)
  {
    W.Reduce(W.Reduce(s, W.LogSet(NewLog(s, id, timestamp)), now), W.StartRest, now)
  }

  /** The rest `logSet` starts on the in-app timer: 90 seconds, or none when the shortcut timer is used. */
  function RestSeconds(useShortcut: bool): (r: Option<int>)
    ensures r.Some? <==> !useShortcut
    ensures r.Some? ==> r.value == 90
  {
    if useShortcut then None else Some(90)
  }

  /** The result of `confirmFinishWorkout`: the state, and whether the failure alert was shown. */
  datatype FinishOutcome = FinishOutcome(state: W.WorkoutState, alerted: bool)

  /**
   * `confirmFinishWorkout` with the sync outcome `syncOk`: SET_SAVING true,
   * the sync, SET_SAVING false, FINISH_WORKOUT at the instant read before
   * the sync. A failed sync only adds the alert.
   */
  function ConfirmFinish(s: W.WorkoutState, endTime: int, syncOk: bool): (r: FinishOutcome)
    ensures r.alerted <==> !syncOk
    ensures r.state.status == W.Finished && !r.state.isSaving
    ensures r.state.sessionData == W.SessionData(s.sessionData.start, Some(endTime))
    ensures r.state == s.(status := W.Finished, isSaving := false, sessionData := r.state.sessionData)
  {
    var saving := W.Reduce(s, W.SetSaving(true), endTime);
    var done := W.Reduce(W.Reduce(saving, W.SetSaving(false), endTime), W.FinishWorkout(endTime), endTime);
    FinishOutcome(done, !syncOk)
  }

  /** The final state does not depend on the sync outcome. */
  lemma FinishIgnoresSync(s: W.WorkoutState, endTime: int)
    ensures ConfirmFinish(s, endTime, true).state == ConfirmFinish(s, endTime, false).state
    ensures ConfirmFinish(s, endTime, false).alerted
  {
  }

  /** `start!` on a null start reads as 0 in the subtraction. */
  function StartOrZero(start: Option<int>): int
  {
    if start.Some? then start.value else 0
  }

  /** `Math.ceil(d / m)` for a positive `m`. */
  function CeilDiv(d: int, m: int): (r: int)
    requires m > 0
    ensures (r - 1) * m < d <= r * m
  {
    -((-d) / m)
  }

  /** `durationMin`: the session's length rounded up to whole minutes. */
  function DurationMin(start: Option<int>, endTime: int): (r: int)
    ensures (r - 1) * 60000 < endTime - StartOrZero(start) <= r * 60000
  {
    CeilDiv(endTime - StartOrZero(start), 60000)
  }

  /**
   * `changeExercise` over the page's exercise list: CHANGE_EXERCISE with the
   * first entry of that id, nothing for an unknown id.
   */
  function AfterChangeExercise(s: W.WorkoutState, exercises: seq<Exercises.Exercise>, exerciseId: string, now: int): (r: W.WorkoutState)
    ensures (forall i :: 0 <= i < |exercises| ==> exercises[i].id != exerciseId) ==> r == s
    ensures (exists i :: 0 <= i < |exercises| && exercises[i].id == exerciseId) ==>
      r.currentExercise.id == exerciseId && r.currentExercise in exercises
    ensures r == s.(currentExercise := r.currentExercise)
  {
    match Exercises.FindById(exercises, exerciseId)
    case Some(exercise) => W.Reduce(s, W.ChangeExercise(exercise), now)
    case None => s
  }

  // ---- Copying a set and counting sets ----

  /** `logs.find(log => log.exerciseId === id)`, as a position: the earliest matching log, or -1. */
  function FirstMatch(logs: seq<W.WorkoutLog>, id: string): (k: int)
    ensures -1 <= k < |logs|
    ensures k == -1 <==> forall i :: 0 <= i < |logs| ==> logs[i].exerciseId != id
    ensures k >= 0 ==> logs[k].exerciseId == id && forall i :: 0 <= i < k ==> logs[i].exerciseId != id
    decreases |logs|
  {
    if logs == [] then -1
    else if logs[0].exerciseId == id then 0
    else
      var k := FirstMatch(logs[1..], id);
      if k == -1 then -1 else k + 1
  }

  /** The most recent log with that exercise id, or -1. */
  function LastMatch(logs: seq<W.WorkoutLog>, id: string): (k: int)
    ensures -1 <= k < |logs|
    ensures k == -1 <==> forall i :: 0 <= i < |logs| ==> logs[i].exerciseId != id
    ensures k >= 0 ==> logs[k].exerciseId == id && forall i :: k < i < |logs| ==> logs[i].exerciseId != id
    decreases |logs|
  {
    if logs == [] then -1
    else if logs[|logs| - 1].exerciseId == id then |logs| - 1
    else LastMatch(logs[..|logs| - 1], id)
  }

  /** SET_WEIGHT then SET_REPS with the values of the log at position `k`. */
  function CopyFrom(s: W.WorkoutState, k: int, now: int): (r: W.WorkoutState)
    requires 0 <= k < |s.logs|
    ensures r == s.(weight := s.logs[k].weight, reps := s.logs[k].reps)
  {
    W.Reduce(W.Reduce(s, W.SetWeight(s.logs[k].weight), now), W.SetReps(s.logs[k].reps), now)
  }

  /** `copyLastSet` as written: copies the EARLIEST set of the current exercise. */
  function CopyLastSet(s: W.WorkoutState, now: int): (r: W.WorkoutState)
    ensures var k := FirstMatch(s.logs, s.currentExercise.id);
      r == if k == -1 then s else s.(weight := s.logs[k].weight, reps := s.logs[k].reps)
  {
    var k := FirstMatch(s.logs, s.currentExercise.id);
    if k == -1 then s else CopyFrom(s, k, now)
  }

  /** The copy the button's label promises: the most recent set of the current exercise. */
  function CopyPreviousSet(s: W.WorkoutState, now: int): (r: W.WorkoutState)
    ensures var k := LastMatch(s.logs, s.currentExercise.id);
      r == if k == -1 then s else s.(weight := s.logs[k].weight, reps := s.logs[k].reps)
  {
    var k := LastMatch(s.logs, s.currentExercise.id);
    if k == -1 then s else CopyFrom(s, k, now)
  }

  /**
   * With two or more sets of the current exercise, as written the button
   * copies the first of them, not the one just logged.
   */
  lemma CopyLastSetTakesFirst(s: W.WorkoutState, now: int)
    requires |s.logs| >= 2
    requires s.logs[0].exerciseId == s.currentExercise.id
    requires s.logs[|s.logs| - 1].exerciseId == s.currentExercise.id
    ensures CopyLastSet(s, now).weight == s.logs[0].weight
    ensures CopyLastSet(s, now).reps == s.logs[0].reps
    ensures CopyPreviousSet(s, now).weight == s.logs[|s.logs| - 1].weight
    ensures CopyPreviousSet(s, now).reps == s.logs[|s.logs| - 1].reps
  {
  }

  /** The corrected copy right after a set is logged copies that very set back. */
  lemma CopyPreviousAfterLogSet(s: W.WorkoutState, id: string, timestamp: string, now: int)
    ensures var t := AfterLogSet(s, id, timestamp, now);
      CopyPreviousSet(t, now) == t
  {
    var t := AfterLogSet(s, id, timestamp, now);
    assert t.logs[|t.logs| - 1] == NewLog(s, id, timestamp);
  }

  /** The number of logs with that exercise id. */
  function CountFor(logs: seq<W.WorkoutLog>, id: string): (n: nat)
    ensures n <= |logs|
    decreases |logs|
  {
    if logs == [] then 0
    else CountFor(logs[..|logs| - 1], id) + (if logs[|logs| - 1].exerciseId == id then 1 else 0)
  }

  /** `currentSetNumber`: one more than the sets already logged for the current exercise. */
  function CurrentSetNumber(s: W.WorkoutState): (n: int)
    ensures n >= 1
  {
    CountFor(s.logs, s.currentExercise.id) + 1
  }

  /** Some log matches exactly when the count is positive. */
  lemma {:induction false} CountPositive(logs: seq<W.WorkoutLog>, id: string)
    ensures CountFor(logs, id) > 0 <==> FirstMatch(logs, id) != -1
    decreases |logs|
  {
    if logs != [] {
      var init := logs[..|logs| - 1];
      CountPositive(init, id);
      if FirstMatch(init, id) != -1 {
        var k := FirstMatch(init, id);
        assert logs[k] == init[k];
      }
      if FirstMatch(logs, id) != -1 && logs[|logs| - 1].exerciseId != id {
        var k := FirstMatch(logs, id);
        assert init[k] == logs[k];
      }
    }
  }

  /** The copy button is shown (`logs.some(...)`) exactly from the second set of the current exercise on. */
  lemma CopyShownFromSecondSet(s: W.WorkoutState)
    ensures CurrentSetNumber(s) > 1 <==> FirstMatch(s.logs, s.currentExercise.id) != -1
  {
    CountPositive(s.logs, s.currentExercise.id);
  }

  /** Logging a set moves the set number on by one. */
  lemma SetNumberAfterLogSet(s: W.WorkoutState, id: string, timestamp: string, now: int)
    ensures CurrentSetNumber(AfterLogSet(s, id, timestamp, now)) == CurrentSetNumber(s) + 1
  {
    var t := AfterLogSet(s, id, timestamp, now);
    assert t.logs[..|t.logs| - 1] == s.logs;
  }

  // ---- The small buttons ----

  /** −0.5 kg: `Math.max(0, weight - 0.5)`. */
  function HalfKgDown(w: int): (r: int)
    ensures r >= 0
    ensures w >= 1 ==> r == w - 1
    ensures w < 1 ==> r == 0
  {
    if w - 1 > 0 then w - 1 else 0
  }

  /** +0.5 kg: no upper bound. */
  function HalfKgUp(w: int): (r: int)
    ensures r > w
  {
    w + 1
  }

  /** Reps −: `Math.max(1, reps - 1)`. */
  function RepsDown(n: int): (r: int)
    ensures r >= 1
    ensures n >= 2 ==> r == n - 1
    ensures n < 2 ==> r == 1
  {
    if n - 1 > 1 then n - 1 else 1
  }

  /** Reps +: no upper bound. */
  function RepsUp(n: int): (r: int)
    ensures r > n
  {
    n + 1
  }

  /** The ± pairs undo each other within their floors; the floors hold. */
  lemma SmallButtonsRoundTrip(w: int, n: int)
    ensures w >= 0 ==> HalfKgDown(HalfKgUp(w)) == w
    ensures w >= 1 ==> HalfKgUp(HalfKgDown(w)) == w
    ensures n >= 1 ==> RepsDown(RepsUp(n)) == n
    ensures n >= 2 ==> RepsUp(RepsDown(n)) == n
    ensures HalfKgDown(HalfKgDown(0)) == 0 && RepsDown(RepsDown(1)) == 1
  {
  }

  // ---- The FINISHED screen ----

  /** `end && start ? Math.floor((end - start) / 1000) : 0`: null or 0 on either side gives 0. */
  function FinishedDuration(sd: W.SessionData): (r: int)
    ensures !(SessionTimer.Truthy(sd.end) && SessionTimer.Truthy(sd.start)) ==> r == 0
    ensures SessionTimer.Truthy(sd.end) && SessionTimer.Truthy(sd.start) ==>
      r * 1000 <= sd.end.value - sd.start.value < r * 1000 + 1000
  {
    if SessionTimer.Truthy(sd.end) && SessionTimer.Truthy(sd.start) then (sd.end.value - sd.start.value) / 1000 else 0
  }

  /** The screen shows what the session clock read at the finishing instant, and its text reads back as that number. */
  lemma FinishedDurationIsClockAtEnd(s: W.WorkoutState, endTime: int)
    requires SessionTimer.Truthy(s.sessionData.start) && endTime != 0
    requires endTime >= s.sessionData.start.value
    ensures var d := FinishedDuration(ConfirmFinish(s, endTime, true).state.sessionData);
      && d == SessionTimer.Elapsed(s.sessionData.start, endTime)
      && d >= 0
      && SessionTimer.ParseTime(SessionTimer.FormatTime(d)) == Some(d)
  {
    var d := FinishedDuration(ConfirmFinish(s, endTime, true).state.sessionData);
    SessionTimer.ParseFormatRoundTrip(d);
  }

  /** One set as the summary lists it. */
  datatype SetEntry = SetEntry(weight: int, reps: int)

  /** One summary card: an exercise name, its body part and its sets in logging order. */
  datatype Group = Group(name: string, part: string, sets: seq<SetEntry>)

  function Entry(log: W.WorkoutLog): SetEntry
  {
    SetEntry(log.weight, log.reps)
  }

  /** The position of the card with that name, or -1. */
  function GroupIndex(groups: seq<Group>, name: string): (k: int)
    ensures -1 <= k < |groups|
    ensures k == -1 <==> forall i :: 0 <= i < |groups| ==> groups[i].name != name
    ensures k >= 0 ==> groups[k].name == name
    decreases |groups|
  {
    if groups == [] then -1
    else if groups[|groups| - 1].name == name then |groups| - 1
    else GroupIndex(groups[..|groups| - 1], name)
  }

  /** One step of the grouping `reduce`: a new card for a new name, else the set joins its card. */
  function AddLog(groups: seq<Group>, log: W.WorkoutLog): seq<Group>
  {
    var k := GroupIndex(groups, log.exerciseName);
    if k == -1 then groups + [Group(log.exerciseName, log.bodyPart, [Entry(log)])]
    else groups[k := groups[k].(sets := groups[k].sets + [Entry(log)])]
  }

  /** The grouping `reduce` over the logs, with cards in order of first appearance. */
  function GroupByName(logs: seq<W.WorkoutLog>): seq<Group>
    decreases |logs|
  {
    if logs == [] then [] else AddLog(GroupByName(logs[..|logs| - 1]), logs[|logs| - 1])
  }

  /** The sets logged under a name, in order: the reference the grouping is checked against. */
  function SetsNamed(logs: seq<W.WorkoutLog>, name: string): seq<SetEntry>
    decreases |logs|
  {
    if logs == [] then []
    else SetsNamed(logs[..|logs| - 1], name) + (if logs[|logs| - 1].exerciseName == name then [Entry(logs[|logs| - 1])] else [])
  }

  predicate DistinctNames(groups: seq<Group>)
  {
    forall i, j :: 0 <= i < j < |groups| ==> groups[i].name != groups[j].name
  }

  /** A name no log carries has no sets. */
  lemma {:induction false} NoSetsForAbsentName(logs: seq<W.WorkoutLog>, name: string)
    requires forall i :: 0 <= i < |logs| ==> logs[i].exerciseName != name
    ensures SetsNamed(logs, name) == []
    decreases |logs|
  {
    if logs != [] {
      NoSetsForAbsentName(logs[..|logs| - 1], name);
    }
  }

  /**
   * `g` is the summary of `logs`: names are distinct, each card lists exactly
   * the sets logged under its name in logging order (so none is empty), every
   * logged set has a card, each card carries the body part of the first log
   * with its name, and the cards come in the order their names first appear.
   */
  predicate SummaryOf(g: seq<Group>, logs: seq<W.WorkoutLog>)
  {
    && DistinctNames(g)
    && (forall j :: 0 <= j < |g| ==> g[j].sets == SetsNamed(logs, g[j].name) && g[j].sets != [])
    && (forall i :: 0 <= i < |logs| ==> GroupIndex(g, logs[i].exerciseName) != -1)
    && PartsFromFirstLog(g, logs)
    && FirstAppearanceOrder(g, logs)
  }

  /** The position of the first log with that name, or -1. */
  function FirstNamed(logs: seq<W.WorkoutLog>, name: string): (k: int)
    ensures -1 <= k < |logs|
    ensures k == -1 <==> forall i :: 0 <= i < |logs| ==> logs[i].exerciseName != name
    ensures k >= 0 ==> logs[k].exerciseName == name && forall i :: 0 <= i < k ==> logs[i].exerciseName != name
    decreases |logs|
  {
    if logs == [] then -1
    else
      var k := FirstNamed(logs[..|logs| - 1], name);
      if k != -1 then k
      else if logs[|logs| - 1].exerciseName == name then |logs| - 1
      else -1
  }

  /** Each card's name was logged, and its part is the body part of the first log with that name. */
  predicate PartsFromFirstLog(g: seq<Group>, logs: seq<W.WorkoutLog>)
  {
    forall j :: 0 <= j < |g| ==>
      FirstNamed(logs, g[j].name) != -1 && g[j].part == logs[FirstNamed(logs, g[j].name)].bodyPart
  }

  /** The cards follow the order in which their names were first logged. */
  predicate FirstAppearanceOrder(g: seq<Group>, logs: seq<W.WorkoutLog>)
  {
    forall j, j' :: 0 <= j < j' < |g| ==> FirstNamed(logs, g[j].name) < FirstNamed(logs, g[j'].name)
  }

  /** Appending a log leaves a name's first log where it was, or makes the new log the first. */
  lemma FirstNamedSnoc(init: seq<W.WorkoutLog>, x: W.WorkoutLog, name: string)
    ensures FirstNamed(init + [x], name) ==
      if FirstNamed(init, name) != -1 then FirstNamed(init, name)
      else if x.exerciseName == name then |init| else -1
  {
    assert (init + [x])[..|init|] == init;
  }

  lemma SetsNamedSnoc(init: seq<W.WorkoutLog>, x: W.WorkoutLog, name: string)
    ensures SetsNamed(init + [x], name) == SetsNamed(init, name) + (if x.exerciseName == name then [Entry(x)] else [])
  {
    assert (init + [x])[..|init|] == init;
  }

  /** A name without a card has no logged sets. */
  lemma AbsentNameHasNoSets(g0: seq<Group>, init: seq<W.WorkoutLog>, name: string)
    requires forall i :: 0 <= i < |init| ==> GroupIndex(g0, init[i].exerciseName) != -1
    requires GroupIndex(g0, name) == -1
    ensures forall i :: 0 <= i < |init| ==> init[i].exerciseName != name
    ensures SetsNamed(init, name) == []
  {
    forall i | 0 <= i < |init|
      ensures init[i].exerciseName != name
    {
      assert GroupIndex(g0, init[i].exerciseName) != -1;
    }
    NoSetsForAbsentName(init, name);
  }

  /** Looking a name up after appending a card: the new card if it has the name, else as before. */
  lemma GroupIndexSnoc(g0: seq<Group>, c: Group, name: string)
    ensures GroupIndex(g0 + [c], name) == if c.name == name then |g0| else GroupIndex(g0, name)
  {
    assert (g0 + [c])[..|g0|] == g0;
  }

  /** A log under a new name opens a new card at the end. */
  lemma AddNewCard(g0: seq<Group>, init: seq<W.WorkoutLog>, x: W.WorkoutLog)
    requires SummaryOf(g0, init)
    requires GroupIndex(g0, x.exerciseName) == -1
    ensures SummaryOf(AddLog(g0, x), init + [x])
  {
    var c := Group(x.exerciseName, x.bodyPart, [Entry(x)]);
    assert AddLog(g0, x) == g0 + [c];
    AbsentNameHasNoSets(g0, init, x.exerciseName);
    NewCardSets(g0, init, x, c);
    NewCardCovers(g0, init, x, c);
    NewCardFirst(g0, init, x, c);
  }

  /** The new card's name is first logged by the new log, after every earlier card's name. */
  lemma NewCardFirst(g0: seq<Group>, init: seq<W.WorkoutLog>, x: W.WorkoutLog, c: Group)
    requires PartsFromFirstLog(g0, init) && FirstAppearanceOrder(g0, init)
    requires forall i :: 0 <= i < |init| ==> init[i].exerciseName != x.exerciseName
    requires c.name == x.exerciseName && c.part == x.bodyPart
    ensures PartsFromFirstLog(g0 + [c], init + [x]) && FirstAppearanceOrder(g0 + [c], init + [x])
  {
    var g := g0 + [c];
    var logs := init + [x];
    forall j | 0 <= j < |g|
      ensures FirstNamed(logs, g[j].name) == if j < |g0| then FirstNamed(init, g0[j].name) else |init|
    {
      FirstNamedSnoc(init, x, g[j].name);
    }
    assert PartsFromFirstLog(g, logs) by {
      forall j | 0 <= j < |g|
        ensures FirstNamed(logs, g[j].name) != -1 && g[j].part == logs[FirstNamed(logs, g[j].name)].bodyPart
      {
        if j < |g0| {
          assert logs[FirstNamed(init, g0[j].name)] == init[FirstNamed(init, g0[j].name)];
        }
      }
    }
  }

  /** Cards that keep their names and parts keep their first logs when a log is appended. */
  lemma KeptCardFirsts(g0: seq<Group>, g: seq<Group>, init: seq<W.WorkoutLog>, x: W.WorkoutLog)
    requires PartsFromFirstLog(g0, init) && FirstAppearanceOrder(g0, init)
    requires |g| == |g0|
    requires forall j :: 0 <= j < |g| ==> g[j].name == g0[j].name && g[j].part == g0[j].part
    ensures PartsFromFirstLog(g, init + [x]) && FirstAppearanceOrder(g, init + [x])
  {
    var logs := init + [x];
    forall j | 0 <= j < |g|
      ensures FirstNamed(logs, g[j].name) == FirstNamed(init, g0[j].name)
      ensures logs[FirstNamed(logs, g[j].name)] == init[FirstNamed(init, g0[j].name)]
    {
      FirstNamedSnoc(init, x, g[j].name);
    }
  }

  lemma NewCardSets(g0: seq<Group>, init: seq<W.WorkoutLog>, x: W.WorkoutLog, c: Group)
    requires forall j :: 0 <= j < |g0| ==> g0[j].sets == SetsNamed(init, g0[j].name) && g0[j].sets != []
    requires forall j :: 0 <= j < |g0| ==> g0[j].name != x.exerciseName
    requires SetsNamed(init, x.exerciseName) == []
    requires c.name == x.exerciseName && c.sets == [Entry(x)]
    ensures var g := g0 + [c];
      forall j :: 0 <= j < |g| ==> g[j].sets == SetsNamed(init + [x], g[j].name) && g[j].sets != []
  {
    var g := g0 + [c];
    forall j | 0 <= j < |g|
      ensures g[j].sets == SetsNamed(init + [x], g[j].name)
    {
      SetsNamedSnoc(init, x, g[j].name);
    }
  }

  lemma NewCardCovers(g0: seq<Group>, init: seq<W.WorkoutLog>, x: W.WorkoutLog, c: Group)
    requires forall i :: 0 <= i < |init| ==> GroupIndex(g0, init[i].exerciseName) != -1
    requires c.name == x.exerciseName
    ensures var g := g0 + [c]; var logs := init + [x];
      forall i :: 0 <= i < |logs| ==> GroupIndex(g, logs[i].exerciseName) != -1
  {
    var logs := init + [x];
    forall i | 0 <= i < |logs|
      ensures GroupIndex(g0 + [c], logs[i].exerciseName) != -1
    {
      GroupIndexSnoc(g0, c, logs[i].exerciseName);
    }
  }

  /** A log under a known name joins that name's card. */
  lemma AddToCard(g0: seq<Group>, init: seq<W.WorkoutLog>, x: W.WorkoutLog)
    requires SummaryOf(g0, init)
    requires GroupIndex(g0, x.exerciseName) != -1
    ensures SummaryOf(AddLog(g0, x), init + [x])
  {
    var k := GroupIndex(g0, x.exerciseName);
    var g := g0[k := g0[k].(sets := g0[k].sets + [Entry(x)])];
    assert AddLog(g0, x) == g;
    JoinedCardKeepsNames(g0, x, k, g);
    KeptCardFirsts(g0, g, init, x);
    JoinedCardSets(g0, init, x, k, g);
    JoinedCardCovers(g0, init, x, k, g);
  }

  lemma JoinedCardKeepsNames(g0: seq<Group>, x: W.WorkoutLog, k: int, g: seq<Group>)
    requires DistinctNames(g0)
    requires 0 <= k < |g0|
    requires g == g0[k := g0[k].(sets := g0[k].sets + [Entry(x)])]
    ensures |g| == |g0| && DistinctNames(g)
    ensures forall j :: 0 <= j < |g| ==> g[j].name == g0[j].name && g[j].part == g0[j].part
  {
  }

  lemma JoinedCardSets(g0: seq<Group>, init: seq<W.WorkoutLog>, x: W.WorkoutLog, k: int, g: seq<Group>)
    requires forall j :: 0 <= j < |g0| ==> g0[j].sets == SetsNamed(init, g0[j].name) && g0[j].sets != []
    requires DistinctNames(g0)
    requires 0 <= k < |g0| && g0[k].name == x.exerciseName
    requires g == g0[k := g0[k].(sets := g0[k].sets + [Entry(x)])]
    ensures forall j :: 0 <= j < |g| ==> g[j].sets == SetsNamed(init + [x], g[j].name) && g[j].sets != []
  {
    forall j | 0 <= j < |g|
      ensures g[j].sets == SetsNamed(init + [x], g[j].name)
    {
      SetsNamedSnoc(init, x, g[j].name);
    }
  }

  lemma JoinedCardCovers(g0: seq<Group>, init: seq<W.WorkoutLog>, x: W.WorkoutLog, k: int, g: seq<Group>)
    requires forall i :: 0 <= i < |init| ==> GroupIndex(g0, init[i].exerciseName) != -1
    requires 0 <= k < |g0| && g0[k].name == x.exerciseName
    requires g == g0[k := g0[k].(sets := g0[k].sets + [Entry(x)])]
    ensures var logs := init + [x];
      forall i :: 0 <= i < |logs| ==> GroupIndex(g, logs[i].exerciseName) != -1
  {
    var logs := init + [x];
    forall i | 0 <= i < |logs|
      ensures GroupIndex(g, logs[i].exerciseName) != -1
    {
      if i < |init| {
        var j := GroupIndex(g0, init[i].exerciseName);
        assert g[j].name == logs[i].exerciseName;
      } else {
        assert g[k].name == logs[i].exerciseName;
      }
    }
  }

  /** The grouping `reduce` builds the summary of the logs. */
  lemma {:induction false} GroupingCorrect(logs: seq<W.WorkoutLog>)
    ensures SummaryOf(GroupByName(logs), logs)
    decreases |logs|
  {
    if logs != [] {
      var init := logs[..|logs| - 1];
      var x := logs[|logs| - 1];
      GroupingCorrect(init);
      assert logs == init + [x];
      if GroupIndex(GroupByName(init), x.exerciseName) == -1 {
        AddNewCard(GroupByName(init), init, x);
      } else {
        AddToCard(GroupByName(init), init, x);
      }
    }
  }
}
