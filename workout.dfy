/**
 * The workout session state machine (lib/workout-context.tsx): the state
 * record, the actions, the initial state and the reducer.
 *
 * Weights are integer counts of half-kilograms (20 kg is 40); every weight
 * the app produces is a multiple of 0.5 kg. Instants are integer
 * milliseconds. `Date.now()`, read inside the reducer by START_WORKOUT, is
 * the reducer's `now` parameter.
 */
module Workout {
  import opened Wrappers
  import Exercises

  datatype Status = Idle | Active | Rest | Finished

  /** One logged set. `id` and `timestamp` are free-form strings made by the page. */
  datatype WorkoutLog = WorkoutLog(
    id: string,
    exerciseId: string,
    exerciseName: string,
    bodyPart: string,
    weight: int,
    reps: int,
    timestamp: string)

  /** `start` and `end` are `number | null`. */
  datatype SessionData = SessionData(start: Option<int>, end: Option<int>)

  datatype WorkoutState = WorkoutState(
    status: Status,
    currentExercise: Exercises.Exercise,
    weight: int,
    reps: int,
    logs: seq<WorkoutLog>,
    sessionData: SessionData,
    isSaving: bool)

  /**
   * Everything that can reach the reducer: the ten declared action kinds,
   * RESTORE_DATA (dispatched by the page although the action union does not
   * declare it) and any other `type` tag.
   */
  datatype Action =
    | StartWorkout
    | FinishWorkout(endTime: int)
    | Reset
    | ChangeExercise(exercise: Exercises.Exercise)
    | SetWeight(weight: int)
    | SetReps(reps: int)
    | LogSet(log: WorkoutLog)
    | StartRest
    | EndRest
    | SetSaving(isSaving: bool)
    | RestoreData(data: WorkoutState)
    | Unknown(tag: string)

  /** The ten action kinds the reducer has a case for. */
  predicate Declared(a: Action)
  {
    !a.RestoreData? && !a.Unknown?
  }

  /** `initialState`: idle, first catalogue exercise, 20 kg, 10 reps, nothing logged. */
  const InitialState: WorkoutState :=
    WorkoutState(Idle, Exercises.Catalogue[0], 40, 10, [], SessionData(None, None), false)

  /**
   * `workoutReducer`. Total and unguarded: every action is accepted in every
   * status. The ensures clauses state which actions may touch which field.
   */
  function Reduce(s: WorkoutState, a: Action, now: int): (r: WorkoutState)
    ensures !Declared(a) ==> r == s
    ensures r.status != s.status ==>
      a.StartWorkout? || a.FinishWorkout? || a.Reset? || a.StartRest? || a.EndRest?
    ensures r.currentExercise != s.currentExercise ==> a.ChangeExercise? || a.Reset?
    ensures r.weight != s.weight ==> a.SetWeight? || a.Reset?
    ensures r.reps != s.reps ==> a.SetReps? || a.Reset?
    ensures r.logs != s.logs ==> a.LogSet? || a.Reset?
    ensures r.sessionData != s.sessionData ==> a.StartWorkout? || a.FinishWorkout? || a.Reset?
    ensures r.isSaving != s.isSaving ==> a.SetSaving? || a.Reset?
  {
    match a
    case StartWorkout =>
      s.(status := Active, sessionData := SessionData(Some(now), None))
    case FinishWorkout(endTime) =>
      s.(status := Finished, sessionData := s.sessionData.(end := Some(endTime)))
    case Reset => InitialState
    case ChangeExercise(exercise) => s.(currentExercise := exercise)
    case SetWeight(weight) => s.(weight := weight)
    case SetReps(reps) => s.(reps := reps)
    case LogSet(log) => s.(logs := s.logs + [log])
    case StartRest => s.(status := Rest)
    case EndRest => s.(status := Active)
    case SetSaving(isSaving) => s.(isSaving := isSaving)
    case RestoreData(_) => s
    case Unknown(_) => s
  }

  /** A dispatch: the action and the clock reading at the moment it is reduced. */
  datatype Event = Event(action: Action, now: int)

  /** The state after reducing the events in order, as `useReducer` does. */
  function Run(s: WorkoutState, events: seq<Event>): WorkoutState
    decreases |events|
  {
    if events == [] then s
    else Run(Reduce(s, events[0].action, events[0].now), events[1..])
  }

  /** SET_WEIGHT, SET_REPS, CHANGE_EXERCISE and SET_SAVING replace their one field and nothing else. */
  lemma SettersReplaceOneField(s: WorkoutState, now: int, w: int, n: int, e: Exercises.Exercise, b: bool)
    ensures Reduce(s, SetWeight(w), now) == s.(weight := w)
    ensures Reduce(s, SetReps(n), now) == s.(reps := n)
    ensures Reduce(s, ChangeExercise(e), now) == s.(currentExercise := e)
    ensures Reduce(s, SetSaving(b), now) == s.(isSaving := b)
  {
  }

  /** The weight a dispatch sequence leaves: that of its last SET_WEIGHT or RESET, else `w`. */
  function LastWeight(events: seq<Event>, w: int): int
    decreases |events|
  {
    if events == [] then w
    else
      var a := events[0].action;
      LastWeight(events[1..], if a.SetWeight? then a.weight else if a.Reset? then InitialState.weight else w)
  }

  /** The reps a dispatch sequence leaves: that of its last SET_REPS or RESET, else `n`. */
  function LastReps(events: seq<Event>, n: int): int
    decreases |events|
  {
    if events == [] then n
    else
      var a := events[0].action;
      LastReps(events[1..], if a.SetReps? then a.reps else if a.Reset? then InitialState.reps else n)
  }

  /** Last write wins: weight and reps never accumulate, whatever else is dispatched in between. */
  lemma {:induction false} LastWriteWins(s: WorkoutState, events: seq<Event>)
    ensures Run(s, events).weight == LastWeight(events, s.weight)
    ensures Run(s, events).reps == LastReps(events, s.reps)
    decreases |events|
  {
    if events != [] {
      LastWriteWins(Reduce(s, events[0].action, events[0].now), events[1..]);
    }
  }

  /** LOG_SET appends at the end: one more log, earlier logs and the status untouched. */
  lemma LogSetAppends(s: WorkoutState, log: WorkoutLog, now: int)
    ensures var r := Reduce(s, LogSet(log), now);
      && |r.logs| == |s.logs| + 1
      && r.logs[..|s.logs|] == s.logs
      && r.logs[|s.logs|] == log
      && r.status == s.status
  {
  }

  /** RESET from any state yields the documented initial state. */
  lemma ResetFromAnyState(s: WorkoutState, now: int)
    ensures var r := Reduce(s, Reset, now);
      && r == InitialState
      && r.status == Idle && r.weight == 40 && r.reps == 10 && r.logs == []
      && r.sessionData == SessionData(None, None) && !r.isSaving
      && r.currentExercise.id == "bp"
  {
  }

  /** START_WORKOUT, accepted in every status, starts the clock at `now` and keeps the logs. */
  lemma StartWorkoutFromAnyStatus(s: WorkoutState, now: int)
    ensures var r := Reduce(s, StartWorkout, now);
      && r.status == Active
      && r.sessionData == SessionData(Some(now), None)
      && r.logs == s.logs
  {
  }

  /** FINISH_WORKOUT(t) finishes with end `t` and keeps the start. */
  lemma FinishKeepsStart(s: WorkoutState, t: int, now: int)
    ensures var r := Reduce(s, FinishWorkout(t), now);
      && r.status == Finished
      && r.sessionData == SessionData(s.sessionData.start, Some(t))
      && r.logs == s.logs
  {
  }

  /** START_REST always yields REST and END_REST always yields ACTIVE, whatever the prior status. */
  lemma RestTransitionsUnguarded(s: WorkoutState, now: int)
    ensures Reduce(s, StartRest, now) == s.(status := Rest)
    ensures Reduce(s, EndRest, now) == s.(status := Active)
  {
  }

  /** RESTORE_DATA, having no case, falls to `default` and leaves the state unchanged. */
  lemma RestoreDataIsIgnored(s: WorkoutState, snapshot: WorkoutState, now: int)
    ensures Reduce(s, RestoreData(snapshot), now) == s
  {
  }

  /** The actions a user issues while a session runs, other than status changes. */
  predicate Editing(a: Action)
  {
    a.ChangeExercise? || a.SetWeight? || a.SetReps? || a.LogSet? || a.SetSaving?
  }

  /** The logs the LOG_SET events of a sequence carry, in order. */
  function LoggedBy(events: seq<Event>): seq<WorkoutLog>
    decreases |events|
  {
    if events == [] then []
    else (if events[0].action.LogSet? then [events[0].action.log] else []) + LoggedBy(events[1..])
  }

  /** Editing actions keep the status and the session bounds, and append exactly their logs. */
  lemma {:induction false} EditingKeepsSession(s: WorkoutState, events: seq<Event>)
    requires forall i :: 0 <= i < |events| ==> Editing(events[i].action)
    ensures Run(s, events).status == s.status
    ensures Run(s, events).sessionData == s.sessionData
    ensures Run(s, events).logs == s.logs + LoggedBy(events)
    decreases |events|
  {
    if events != [] {
      var s' := Reduce(s, events[0].action, events[0].now);
      EditingKeepsSession(s', events[1..]);
    }
  }

  /**
   * START_WORKOUT, then any interleaving of exercise, weight, reps, saving
   * and LOG_SET dispatches, then FINISH_WORKOUT(t): the session is finished,
   * started at the START_WORKOUT clock reading, ended at `t`, and holds
   * the earlier logs followed by every logged set.
   */
  lemma {:induction false} StartThenFinish(s: WorkoutState, start: int, middle: seq<Event>, t: int, now: int)
    requires forall i :: 0 <= i < |middle| ==> Editing(middle[i].action)
    ensures var r := Run(s, [Event(StartWorkout, start)] + middle + [Event(FinishWorkout(t), now)]);
      && r.status == Finished
      && r.sessionData == SessionData(Some(start), Some(t))
      && r.logs == s.logs + LoggedBy(middle)
  {
    var s1 := Reduce(s, StartWorkout, start);
    EditingKeepsSession(s1, middle);
    RunConcat(s1, middle, [Event(FinishWorkout(t), now)]);
    assert ([Event(StartWorkout, start)] + middle + [Event(FinishWorkout(t), now)])[1..]
      == middle + [Event(FinishWorkout(t), now)];
  }

  /** Running two sequences one after the other is running their concatenation. */
  lemma {:induction false} RunConcat(s: WorkoutState, xs: seq<Event>, ys: seq<Event>)
    ensures Run(s, xs + ys) == Run(Run(s, xs), ys)
    decreases |xs|
  {
    if xs != [] {
      assert (xs + ys)[1..] == xs[1..] + ys;
      RunConcat(Reduce(s, xs[0].action, xs[0].now), xs[1..], ys);
    } else {
      assert xs + ys == ys;
    }
  }

  /**
   * The reducer with the RESTORE_DATA case the page expects: the snapshot
   * replaces the whole state. Every other action behaves as in `Reduce`.
   */
  function ReduceWithRestore(s: WorkoutState, a: Action, now: int): (r: WorkoutState)
    ensures a.RestoreData? ==> r == a.data
    ensures !a.RestoreData? ==> r == Reduce(s, a, now)
  {
    if a.RestoreData? then a.data else Reduce(s, a, now)
  }
}
