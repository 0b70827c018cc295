/**
 * The main page as a stateful component (app/page.tsx): the workout state
 * held by the reducer, the shortcut flag, the two local-storage keys, the
 * rest timer the page drives, and the handlers that issue dispatches.
 *
 * A dispatch that changes the state re-renders the page, and the persist
 * effect then runs on the new state; a dispatch the reducer answers with the
 * same state does not re-run it. `Date.now()`, the fresh log id and
 * timestamp, and the sync outcome are parameters. Opening the iOS shortcut
 * URL is counted in `launches`.
 */
module HomePage {
  import opened Wrappers
  import W = Workout
  import Exercises
  import Home
  import HomeWeight
  import WeightInput
  import IntervalTimer

  class Page {
    var state: W.WorkoutState
    /** The exercise list the picker offers. */
    var exercises: seq<Exercises.Exercise>
    var useShortcut: bool
    /** The workout key: the parsed view of what is stored, `None` when absent. */
    var storedWorkout: Option<Home.Saved>
    /** The shortcut key. */
    var storedShortcut: Option<string>
    /** How often the shortcut URL was opened. */
    var launches: nat
    /** The rest countdown of `useIntervalTimer`. */
    const timer: IntervalTimer.RestTimer

    /** After every render the workout key reflects the state. */
    ghost predicate Valid()
      reads this
    {
      storedWorkout == Home.StoredFor(state)
    }

    /**
     * First render and its effects, with `savedWorkout` and `savedShortcut`
     * in storage: the persist effect runs on the initial state, then the
     * restore effect's flag update and dispatch take effect.
     */
    constructor (savedWorkout: Option<Home.Saved>, savedShortcut: Option<string>, now: int)
      ensures (state, storedWorkout) == Home.Mount(savedWorkout, now)
      ensures useShortcut == Home.ShortcutAfterRestore(savedShortcut, false)
      ensures storedShortcut == savedShortcut && launches == 0
      ensures exercises == Exercises.Catalogue
      ensures Valid()
      ensures fresh(timer) && timer.State() == IntervalTimer.TimerState(0, 0, false, 0)
    {
      var restTimer := new IntervalTimer.RestTimer();
      state := W.InitialState;
      exercises := Exercises.Catalogue;
      useShortcut := false;
      storedWorkout := savedWorkout;
      storedShortcut := savedShortcut;
      launches := 0;
      timer := restTimer;
      new;
      Persist();
      var flag := Home.ShortcutAfterRestore(savedShortcut, false);
      var request := Home.RestoreRequest(savedWorkout);
      useShortcut := flag;
      if request.Some? {
        Dispatch(request.value, now);
      }
    }

    /** The persist effect on the current state. */
    method Persist()
      modifies this
      ensures Valid()
      ensures state == old(state) && exercises == old(exercises) && useShortcut == old(useShortcut)
      ensures storedShortcut == old(storedShortcut) && launches == old(launches)
    {
      match Home.PersistEffect(state)
      case Write(snapshot) => storedWorkout := Some(Home.Parsed(snapshot));
      case Remove => storedWorkout := None;
    }

    /** `dispatch(a)`, followed by the persist effect when the state changed. */
    method Dispatch(a: W.Action, now: int)
      modifies this
      ensures state == W.Reduce(old(state), a, now)
      ensures state != old(state) ==> Valid()
      ensures state == old(state) ==> storedWorkout == old(storedWorkout)
      ensures exercises == old(exercises) && useShortcut == old(useShortcut) && storedShortcut == old(storedShortcut) && launches == old(launches)
    {
      var next := W.Reduce(state, a, now);
      if next != state {
        state := next;
        Persist();
      }
    }

    /** `startWorkout`. */
    method StartWorkout(now: int)
      requires Valid()
      modifies this
      ensures Valid()
      ensures state == W.Reduce(old(state), W.StartWorkout, now)
      ensures storedWorkout == Some(Home.Parsed(state))
      ensures exercises == old(exercises) && useShortcut == old(useShortcut) && storedShortcut == old(storedShortcut) && launches == old(launches)
    {
      Dispatch(W.StartWorkout, now);
    }

    /**
     * `logSet`: LOG_SET and START_REST, then either the shortcut URL is
     * opened or the in-app timer starts its rest.
     */
    method LogSet(id: string, timestamp: string, now: int)
      requires Valid()
      modifies this, timer
      ensures Valid()
      ensures state == Home.AfterLogSet(old(state), id, timestamp, now)
      ensures storedWorkout == Some(Home.Parsed(state))
      ensures exercises == old(exercises) && useShortcut == old(useShortcut) && storedShortcut == old(storedShortcut)
      ensures Home.RestSeconds(useShortcut).Some? ==>
        timer.State() == IntervalTimer.Started(old(timer.State()), Home.RestSeconds(useShortcut).value)
        && launches == old(launches)
      ensures Home.RestSeconds(useShortcut).None? ==>
        timer.State() == old(timer.State()) && launches == old(launches) + 1
    {
      var newLog := Home.NewLog(state, id, timestamp);
      Dispatch(W.LogSet(newLog), now);
      Dispatch(W.StartRest, now);
      if useShortcut {
        launches := launches + 1;
      } else {
        timer.Start(90);
      }
    }

    /** `skipRest`: the countdown is stopped and cleared, and the session is active again. */
    method SkipRest(now: int)
      requires Valid()
      modifies this, timer
      ensures Valid()
      ensures state == W.Reduce(old(state), W.EndRest, now) && state.status == W.Active
      ensures storedWorkout == Some(Home.Parsed(state))
      ensures timer.State() == IntervalTimer.Stopped(old(timer.State()))
      ensures exercises == old(exercises) && useShortcut == old(useShortcut) && storedShortcut == old(storedShortcut) && launches == old(launches)
    {
      timer.Stop();
      Dispatch(W.EndRest, now);
    }

    /**
     * `confirmFinishWorkout` with the end instant read before the sync and
     * the sync's outcome. Returns whether the failure alert was shown and
     * the `durationMin` sent, computed from the start the handler saw.
     */
    method ConfirmFinish(endTime: int, syncOk: bool) returns (alerted: bool, durationMin: int)
      requires Valid()
      modifies this
      ensures Valid()
      ensures state == Home.ConfirmFinish(old(state), endTime, syncOk).state
      ensures alerted == Home.ConfirmFinish(old(state), endTime, syncOk).alerted
      ensures durationMin == Home.DurationMin(old(state).sessionData.start, endTime)
      ensures storedWorkout == None
      ensures exercises == old(exercises) && useShortcut == old(useShortcut) && storedShortcut == old(storedShortcut) && launches == old(launches)
    {
      var start := state.sessionData.start;
      Dispatch(W.SetSaving(true), endTime);
      durationMin := Home.CeilDiv(endTime - Home.StartOrZero(start), 60000);
      alerted := !syncOk;
      Dispatch(W.SetSaving(false), endTime);
      Dispatch(W.FinishWorkout(endTime), endTime);
    }

    /** `resetWorkout`: back to the initial state, and the key is deleted. */
    method Reset(now: int)
      requires Valid()
      modifies this
      ensures Valid()
      ensures state == W.InitialState && storedWorkout == None
      ensures exercises == old(exercises) && useShortcut == old(useShortcut) && storedShortcut == old(storedShortcut) && launches == old(launches)
    {
      Dispatch(W.Reset, now);
    }

    /** `changeExercise` with an id from the exercise list. */
    method ChangeExercise(exerciseId: string, now: int)
      requires Valid()
      modifies this
      ensures Valid()
      ensures state == Home.AfterChangeExercise(old(state), exercises, exerciseId, now)
      ensures exercises == old(exercises) && useShortcut == old(useShortcut) && storedShortcut == old(storedShortcut) && launches == old(launches)
    {
      var found := Exercises.FindById(exercises, exerciseId);
      if found.Some? {
        Dispatch(W.ChangeExercise(found.value), now);
      }
    }

    /** `copyLastSet`: SET_WEIGHT and SET_REPS from the log `find` returns, if any. */
    method CopyLastSet(now: int)
      requires Valid()
      modifies this
      ensures Valid()
      ensures state == Home.CopyLastSet(old(state), now)
      ensures exercises == old(exercises) && useShortcut == old(useShortcut) && storedShortcut == old(storedShortcut) && launches == old(launches)
    {
      var k := Home.FirstMatch(state.logs, state.currentExercise.id);
      if k != -1 {
        var log := state.logs[k];
        Dispatch(W.SetWeight(log.weight), now);
        Dispatch(W.SetReps(log.reps), now);
      }
    }

    /** The large − button beside the weight grid. */
    method WeightDown(now: int)
      requires Valid()
      modifies this
      ensures Valid()
      ensures var r := HomeWeight.PreviousEntry(WeightInput.WeightList(), old(state).weight);
        state == if r.Some? then W.Reduce(old(state), W.SetWeight(r.value), now) else old(state)
      ensures exercises == old(exercises) && useShortcut == old(useShortcut) && storedShortcut == old(storedShortcut) && launches == old(launches)
    {
      var r := HomeWeight.DecreaseWeight(state.weight);
      if r.Some? {
        Dispatch(W.SetWeight(r.value), now);
      }
    }

    /** The large + button beside the weight grid. */
    method WeightUp(now: int)
      requires Valid()
      modifies this
      ensures Valid()
      ensures var r := HomeWeight.NextEntry(WeightInput.WeightList(), old(state).weight);
        state == if r.Some? then W.Reduce(old(state), W.SetWeight(r.value), now) else old(state)
      ensures exercises == old(exercises) && useShortcut == old(useShortcut) && storedShortcut == old(storedShortcut) && launches == old(launches)
    {
      var r := HomeWeight.IncreaseWeight(state.weight);
      if r.Some? {
        Dispatch(W.SetWeight(r.value), now);
      }
    }

    /** −0.5 kg: never below zero. */
    method HalfKgDown(now: int)
      requires Valid()
      modifies this
      ensures Valid()
      ensures state == W.Reduce(old(state), W.SetWeight(Home.HalfKgDown(old(state).weight)), now)
      ensures state.weight >= 0
      ensures exercises == old(exercises) && useShortcut == old(useShortcut) && storedShortcut == old(storedShortcut) && launches == old(launches)
    {
      Dispatch(W.SetWeight(Home.HalfKgDown(state.weight)), now);
    }

    /** +0.5 kg. */
    method HalfKgUp(now: int)
      requires Valid()
      modifies this
      ensures Valid()
      ensures state == W.Reduce(old(state), W.SetWeight(Home.HalfKgUp(old(state).weight)), now)
      ensures state.weight > old(state.weight)
      ensures exercises == old(exercises) && useShortcut == old(useShortcut) && storedShortcut == old(storedShortcut) && launches == old(launches)
    {
      Dispatch(W.SetWeight(Home.HalfKgUp(state.weight)), now);
    }

    /** Reps −: never below one. */
    method RepsDown(now: int)
      requires Valid()
      modifies this
      ensures Valid()
      ensures state == W.Reduce(old(state), W.SetReps(Home.RepsDown(old(state).reps)), now)
      ensures state.reps >= 1
      ensures exercises == old(exercises) && useShortcut == old(useShortcut) && storedShortcut == old(storedShortcut) && launches == old(launches)
    {
      Dispatch(W.SetReps(Home.RepsDown(state.reps)), now);
    }

    /** Reps +. */
    method RepsUp(now: int)
      requires Valid()
      modifies this
      ensures Valid()
      ensures state == W.Reduce(old(state), W.SetReps(Home.RepsUp(old(state).reps)), now)
      ensures state.reps > old(state.reps)
      ensures exercises == old(exercises) && useShortcut == old(useShortcut) && storedShortcut == old(storedShortcut) && launches == old(launches)
    {
      Dispatch(W.SetReps(Home.RepsUp(state.reps)), now);
    }

    /** The shortcut toggle: flips the flag and stores it as text. */
    method ToggleShortcut()
      modifies this
      ensures useShortcut == !old(useShortcut)
      ensures storedShortcut == Some(Home.BoolString(useShortcut))
      ensures Home.ShortcutAfterRestore(storedShortcut, false) == useShortcut
      ensures state == old(state) && exercises == old(exercises) && storedWorkout == old(storedWorkout) && launches == old(launches)
    {
      var newValue := !useShortcut;
      useShortcut := newValue;
      storedShortcut := Some(Home.BoolString(newValue));
      Home.ShortcutRoundTrip(newValue, false);
    }
  }
}
