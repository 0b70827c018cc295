/**
 * The rest countdown (hooks/use-interval-timer.ts). The hook's three state
 * fields are the fields of `RestTimer`; the beep played on completion is
 * counted in `beeps` instead of sounded. One `Tick` is one firing of the
 * one-second interval, which the hook schedules only while the timer is
 * running with time left.
 */
module IntervalTimer {

  /** The timer's observable state: the hook's three fields and the beeps played so far. */
  datatype TimerState = TimerState(timeLeft: int, totalTime: int, isRunning: bool, beeps: nat)

  /** The hook keeps an interval scheduled exactly while this holds. */
  predicate Ticking(t: TimerState)
  {
    t.isRunning && t.timeLeft > 0
  }

  /** `start(seconds)`. */
  function Started(t: TimerState, seconds: int): TimerState
  {
    TimerState(seconds, seconds, true, t.beeps)
  }

  /** `stop()`. */
  function Stopped(t: TimerState): TimerState
  {
    TimerState(0, 0, false, t.beeps)
  }

  /** `addTime(seconds)`: both counters grow, running is untouched. */
  function Extended(t: TimerState, seconds: int): TimerState
  {
    t.(timeLeft := t.timeLeft + seconds, totalTime := t.totalTime + seconds)
  }

  /**
   * One firing of the interval: with one second or less left the timer
   * lands on 0, stops and beeps; otherwise it counts down by one. When no
   * interval is scheduled nothing happens.
   */
  function Ticked(t: TimerState): (r: TimerState)
    ensures r.totalTime == t.totalTime
    ensures r.beeps == t.beeps + 1 <==> Ticking(t) && t.timeLeft <= 1
    ensures r.beeps != t.beeps ==> r.beeps == t.beeps + 1 && r.timeLeft == 0 && !r.isRunning
    ensures Ticking(t) && t.timeLeft > 1 ==> r.timeLeft == t.timeLeft - 1 && r.isRunning
  {
    if !Ticking(t) then t
    else if t.timeLeft <= 1 then t.(timeLeft := 0, isRunning := false, beeps := t.beeps + 1)
    else t.(timeLeft := t.timeLeft - 1)
  }

  /** The state after `n` seconds of interval firings. */
  function Ticks(t: TimerState, n: nat): TimerState
    decreases n
  {
    if n == 0 then t else Ticks(Ticked(t), n - 1)
  }

  /** A running countdown with `k >= 1` seconds left reaches 0 after `k` ticks and beeps once. */
  lemma {:induction false} CountdownFrom(k: int, total: int, b: nat)
    requires k >= 1
    ensures Ticks(TimerState(k, total, true, b), k) == TimerState(0, total, false, b + 1)
  {
    if k > 1 {
      CountdownFrom(k - 1, total, b);
    }
  }

  /** Once no interval is scheduled, further seconds change nothing. */
  lemma {:induction false} QuietStaysQuiet(t: TimerState, n: nat)
    requires !Ticking(t)
    ensures Ticks(t, n) == t
    decreases n
  {
    if n > 0 {
      QuietStaysQuiet(Ticked(t), n - 1);
    }
  }

  /** `m` ticks and then `n` more are `m + n` ticks. */
  lemma {:induction false} TicksAdd(t: TimerState, m: nat, n: nat)
    ensures Ticks(t, m + n) == Ticks(Ticks(t, m), n)
    decreases m
  {
    if m > 0 {
      TicksAdd(Ticked(t), m - 1, n);
    }
  }

  /**
   * `start(n)` with `n >= 1`: after `n` ticks the timer shows 0, is stopped
   * and has beeped once; any number of further ticks beeps no more.
   */
  lemma StartThenCountdown(t: TimerState, n: int, extra: nat)
    requires n >= 1
    ensures Ticks(Started(t, n), n) == TimerState(0, n, false, t.beeps + 1)
    ensures Ticks(Started(t, n), n + extra) == TimerState(0, n, false, t.beeps + 1)
  {
    CountdownFrom(n, n, t.beeps);
    TicksAdd(Started(t, n), n, extra);
    QuietStaysQuiet(TimerState(0, n, false, t.beeps + 1), extra);
  }

  /** `0 <= timeLeft <= totalTime`, the fraction the REST screen's progress bar shows. */
  predicate InRange(t: TimerState)
  {
    0 <= t.timeLeft <= t.totalTime
  }

  /** All four operations keep the counters in range for non-negative arguments. */
  lemma OperationsKeepRange(t: TimerState, seconds: int)
    requires InRange(t)
    requires seconds >= 0
    ensures InRange(Started(t, seconds))
    ensures InRange(Stopped(t))
    ensures InRange(Extended(t, seconds))
    ensures InRange(Ticked(t))
  {
  }

  /** Ticks never change `totalTime`. */
  lemma {:induction false} TicksKeepTotal(t: TimerState, n: nat)
    ensures Ticks(t, n).totalTime == t.totalTime
    decreases n
  {
    if n > 0 {
      TicksKeepTotal(Ticked(t), n - 1);
    }
  }

  /**
   * After completion, `addTime` puts time back on the clock but does not
   * restart it: no interval is scheduled, so the time never runs down.
   */
  lemma AddAfterCompletion(total: int, b: nat, seconds: int, n: nat)
    requires seconds > 0
    ensures var t := Extended(TimerState(0, total, false, b), seconds);
      && t.timeLeft > 0 && !t.isRunning && Ticks(t, n) == t
  {
    QuietStaysQuiet(Extended(TimerState(0, total, false, b), seconds), n);
  }

  /** `start(0)` leaves the timer running with nothing to count: no tick, no beep, ever. */
  lemma StartZeroNeverCompletes(t: TimerState, n: nat)
    ensures Started(t, 0).isRunning
    ensures Ticks(Started(t, 0), n) == Started(t, 0)
  {
    QuietStaysQuiet(Started(t, 0), n);
  }

  /** The hook's state, updated in place by its callbacks. */
  class RestTimer {
    var timeLeft: int
    var totalTime: int
    var isRunning: bool
    var beeps: nat

    function State(): TimerState
      reads this
    {
      TimerState(timeLeft, totalTime, isRunning, beeps)
    }

    /** `useState(0)`, `useState(0)`, `useState(false)`. */
    constructor ()
      ensures State() == TimerState(0, 0, false, 0)
    {
      timeLeft, totalTime, isRunning, beeps := 0, 0, false, 0;
    }

    method Start(seconds: int)
      modifies this
      ensures State() == Started(old(State()), seconds)
      ensures timeLeft == seconds && totalTime == seconds && isRunning
    {
      timeLeft := seconds;
      totalTime := seconds;
      isRunning := true;
    }

    method Stop()
      modifies this
      ensures State() == Stopped(old(State()))
      ensures timeLeft == 0 && totalTime == 0 && !isRunning
    {
      isRunning := false;
      timeLeft := 0;
      totalTime := 0;
    }

    method AddTime(seconds: int)
      modifies this
      ensures State() == Extended(old(State()), seconds)
      ensures timeLeft == old(timeLeft) + seconds && isRunning == old(isRunning)
    {
      timeLeft := timeLeft + seconds;
      totalTime := totalTime + seconds;
    }

    /** One firing of the interval callback (a no-op when none is scheduled). */
    method Tick()
      modifies this
      ensures State() == Ticked(old(State()))
      ensures totalTime == old(totalTime)
    {
      if isRunning && timeLeft > 0 {
        if timeLeft <= 1 {
          isRunning := false;
          beeps := beeps + 1;
          timeLeft := 0;
        } else {
          timeLeft := timeLeft - 1;
        }
      }
    }
  }
}
