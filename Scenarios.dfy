/** Runs of the firmware from power-on: sequences of interrupts and
    foreground-loop iterations performed on a fresh StopWatch, with what the
    display then shows. */
module Scenarios {
  import opened Clock
  import Control
  import Watch

  /** One second with no button held: the compare-match interrupt, then one
      iteration of the loop. */
  method OneSecond(w: Watch.StopWatch)
    modifies w
    ensures w.State() == Control.Second(old(w.State()))
  {
    w.TimerCompare();
    w.LoopStep(Control.NoButtons, Control.Idle);
  }

  /** `n` compare-match interrupts, each followed by one loop iteration, from
      power-on: the watch shows `n` seconds modulo one day. */
  method RunFromPowerOn(n: nat) returns (shown: Time)
    ensures ValidTime(shown)
    ensures TotalSeconds(shown) == n % 86400
    ensures shown == FromTotal(n % 86400)
  {
    var w := new Watch.StopWatch();
    var i := 0;
    while i < n
      invariant 0 <= i <= n
      invariant Control.Running(w.State()) && w.State().mode == 0
      invariant w.State().time == Elapsed(i)
    {
      ghost var before := w.State();
      OneSecond(w);
      Control.SecondOfIncrement(before);
      i := i + 1;
    }
    shown := w.State().time;
    ElapsedIsModuloDay(n);
  }

  /** Press the increment button of field `f` once in each of `n` loop
      iterations while paused: the field climbs by one per press until it
      reaches its ceiling, and nothing else changes. */
  method PressUp(w: Watch.StopWatch, f: Field, n: nat)
    requires w.Valid() && w.isPaused
    modifies w
    ensures w.State() == old(w.State()).(time := Raised(old(w.Now()), f, n))
    ensures w.Valid()
  {
    var i := 0;
    ghost var start := w.State();
    while i < n
      invariant 0 <= i <= n
      invariant w.State() == start.(time := Raised(start.time, f, i))
      invariant w.Valid() && w.isPaused
    {
      ghost var before := w.State();
      w.LoopStep(Control.PressOnly(Adjustment(f, true)), Control.Idle);
      Control.SingleButton(before.time, Adjustment(f, true));
      RaisedStep(start.time, f, i);
      i := i + 1;
    }
  }

  /** The user pauses at power-on, sets `start` with the adjustment
      buttons, switches to Countdown mode with the mode button and resumes. */
  method SetCountdown(start: Time) returns (w: Watch.StopWatch)
    requires ValidTime(start)
    ensures fresh(w)
    ensures Control.Running(w.State()) && w.State().mode == 1 && w.State().buzzes == 0
    ensures w.Now() == start
  {
    w := new Watch.StopWatch();
    w.Pause();
    PressUp(w, Hours, start.hours as nat);
    PressUp(w, Minutes, start.minutes as nat);
    PressUp(w, Seconds, start.seconds as nat);
    assert w.Now() == start;
    w.LoopStep(Control.NoButtons.(mode := Control.Held), Control.Idle);
    w.Resume();
  }

  /** `n` seconds of a running, silent countdown that started at `start`,
      while `start` holds at least `n` seconds: each second is one
      Countdown tick and none sounds the buzzer. */
  method RunCountdown(w: Watch.StopWatch, start: Time, n: nat)
    requires ValidTime(start) && n <= TotalSeconds(start)
    requires Control.Running(w.State()) && w.State().mode == 1 && w.State().buzzes == 0
    requires w.Now() == start
    modifies w
    ensures Control.Running(w.State()) && w.State().mode == 1 && w.State().buzzes == 0
    ensures w.Now() == CountedDown(start, n)
  {
    var i := 0;
    while i < n
      invariant 0 <= i <= n
      invariant Control.Running(w.State()) && w.State().mode == 1 && w.State().buzzes == 0
      invariant w.State().time == CountedDown(start, i)
    {
      ghost var before := w.State();
      CountdownReachesMidnight(start, i);
      OneSecond(w);
      Control.SecondOfCountdown(before);
      i := i + 1;
    }
  }

  /** A countdown set to `start`, then run for `n` seconds. Up to as many
      seconds as `start` holds, each second takes one second off the
      reading while the buzzer stays silent and the timer keeps running;
      the second after that finds 00:00:00, sounds the buzzer once and
      stops the timer. */
  method CountdownFrom(start: Time, n: nat) returns (shown: Time, buzzes: nat, stopped: bool)
    requires ValidTime(start) && n <= TotalSeconds(start) + 1
    ensures n <= TotalSeconds(start) ==>
      ShowsRemaining(shown, TotalSeconds(start) - n) && buzzes == 0 && !stopped
    ensures n <= TotalSeconds(start) ==> shown == CountedDown(start, n)
    ensures n == TotalSeconds(start) ==> IsMidnight(shown)
    ensures n == TotalSeconds(start) + 1 ==> IsMidnight(shown) && buzzes == 1 && stopped
  {
    var w := SetCountdown(start);
    var total := TotalSeconds(start);
    if n <= total {
      RunCountdown(w, start, n);
      CountedDownRemaining(start, n);
      CountdownReachesMidnight(start, n);
    } else {
      RunCountdown(w, start, total);
      CountdownReachesMidnight(start, total);
      ghost var before := w.State();
      OneSecond(w);
      Control.SecondOfCountdown(before);
    }
    shown, buzzes, stopped := w.State().time, w.State().buzzes, !w.State().timerRunning;
  }

  /** A compare match that is pending when Pause is pressed is neither
      consumed nor lost while paused: the reading stays at 00:00:00, and the
      first loop iteration after Resume applies it without a new compare
      match. */
  method PendingTickAcrossPause(steps: nat) returns (whilePaused: Time, afterResume: Time)
    ensures IsMidnight(whilePaused)
    ensures afterResume == Time(0, 0, 1)
  {
    var w := new Watch.StopWatch();
    w.TimerCompare();
    w.Pause();
    var i := 0;
    while i < steps
      invariant 0 <= i <= steps
      invariant w.State() == Control.OnPause(Control.OnCompare(Control.PowerOn()))
    {
      w.LoopStep(Control.NoButtons, Control.Idle);
      i := i + 1;
    }
    whilePaused := w.Now();
    w.Resume();
    w.LoopStep(Control.NoButtons, Control.Idle);
    afterResume := w.Now();
  }

  /** Two compare matches before one loop iteration advance the watch by a
      single second. */
  method TwoComparesOneTick() returns (shown: Time)
    ensures shown == Time(0, 0, 1)
  {
    var w := new Watch.StopWatch();
    w.TimerCompare();
    w.TimerCompare();
    w.LoopStep(Control.NoButtons, Control.Idle);
    w.LoopStep(Control.NoButtons, Control.Idle);
    shown := w.Now();
  }
}
