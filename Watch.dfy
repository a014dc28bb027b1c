/** The firmware's shared state as one object whose fields the interrupt
    service routines and the foreground routines of `main.c` update in
    place. Each method does what its C routine does, statement by
    statement, and is proved against a function of module Control or
    Clock: `Reset`, `Pause`, `Resume` and `TimerCompare` against
    `Control.OnReset`, `OnPause`, `OnResume` and `OnCompare`; `Count`,
    `ToggleMode`, `AdjustTime` and `LoopStep` against the `Control`
    function of the same name; `CountUp` and `CountDown` against
    `Clock.IncrementTick` and `Clock.CountdownTick`; `AdjustButton`
    against `Control.Apply`. `Buzzer` counts one activation. */
module Watch {
  import opened Clock
  import Control

  class StopWatch {
    /** The globals of `main.c`. */
    var seconds: uint8
    var minutes: uint8
    var hours: uint8
    var mode: uint8
    var timerFlag: bool
    var isPaused: bool
    /** The clock-select bits of TCCR1B (not all clear) and TCNT1. */
    var timerRunning: bool
    var counter: nat
    /** PD4, PD5 and the number of times PD0 was pulsed. */
    var incrementLed: bool
    var countdownLed: bool
    var buzzes: nat

    function Now(): Time
      reads this
    {
      Time(hours, minutes, seconds)
    }

    function State(): Control.State
      reads this
    {
      Control.State(Now(), mode, timerFlag, isPaused, timerRunning, counter,
                    incrementLed, countdownLed, buzzes)
    }

    ghost predicate Valid()
      reads this
    {
      Control.Valid(State())
    }

    /** The globals' initialisers, `configure_IO_pins()` (Increment LED on,
        Countdown LED and buzzer off) and `TIMER1_COMP_INIT()` (timer
        started, counter zero). */
    constructor ()
      ensures State() == Control.PowerOn()
      ensures Valid()
    {
      seconds, minutes, hours, mode := 0, 0, 0, 0;
      timerFlag, isPaused := false, false;
      timerRunning, counter := true, 0;
      incrementLed, countdownLed, buzzes := true, false, 0;
    }

    /** ISR(INT0_vect). */
    method Reset()
      modifies this`counter, this`seconds, this`minutes, this`hours
      ensures State() == Control.OnReset(old(State()))
    {
      counter := 0;
      seconds := 0;
      minutes := 0;
      hours := 0;
    }

    /** ISR(INT1_vect). */
    method Pause()
      modifies this`timerRunning, this`isPaused
      ensures State() == Control.OnPause(old(State()))
    {
      timerRunning := false;
      isPaused := true;
    }

    /** ISR(INT2_vect). */
    method Resume()
      modifies this`timerRunning, this`isPaused
      ensures State() == Control.OnResume(old(State()))
    {
      timerRunning := true;
      isPaused := false;
    }

    /** ISR(TIMER1_COMPA_vect). */
    method TimerCompare()
      modifies this`timerFlag
      ensures State() == Control.OnCompare(old(State()))
    {
      timerFlag := true;
    }

    /** `Buzzer()`: one pulse of PD0; the 2 s hold is not modelled. */
    method Buzzer()
      modifies this`buzzes
      ensures buzzes == old(buzzes) + 1
    {
      buzzes := buzzes + 1;
    }

    /** `count()`. */
    method Count()
      modifies this`seconds, this`minutes, this`hours, this`timerRunning, this`buzzes
      ensures State() == Control.Count(old(State()))
    {
      if mode == 0 {
        CountUp();
      } else if mode == 1 {
        CountDown();
      }
    }

    /** The Increment-mode branch of `count()`: carry at 60 seconds and 60
        minutes, wrap at 24 hours. */
    method CountUp()
      modifies this`seconds, this`minutes, this`hours
      ensures Now() == IncrementTick(old(Now()))
    {
      seconds := Inc(seconds);
      if seconds == 60 {
        seconds := 0;
        minutes := Inc(minutes);
        if minutes == 60 {
          minutes := 0;
          hours := Inc(hours);
          if hours == 24 {
            hours := 0;
          }
        }
      }
    }

    /** The Countdown-mode branch of `count()`: borrow from minutes and
        hours; at 00:00:00 stop the timer and sound the buzzer. */
    method CountDown()
      modifies this`seconds, this`minutes, this`hours, this`timerRunning, this`buzzes
      ensures Now() == CountdownTick(old(Now()))
      ensures timerRunning == (old(timerRunning) && !IsMidnight(old(Now())))
      ensures buzzes == old(buzzes) + if IsMidnight(old(Now())) then 1 else 0
    {
      if seconds == 0 {
        if minutes == 0 {
          if hours == 0 {
            timerRunning := false;
            Buzzer();
          } else {
            hours := hours - 1;
            minutes := 59;
            seconds := 59;
          }
        } else {
          minutes := minutes - 1;
          seconds := 59;
        }
      } else {
        seconds := seconds - 1;
      }
    }

    /** `toggle_mode()`. */
    method ToggleMode()
      modifies this`mode, this`incrementLed, this`countdownLed
      ensures State() == Control.ToggleMode(old(State()))
    {
      mode := Control.Toggled(mode);
      if mode == 0 {
        incrementLed := true;
        countdownLed := false;
      } else {
        countdownLed := true;
        incrementLed := false;
      }
    }

    /** One adjustment button of `adjust_time()`: act once on a confirmed
        press, within the field's bounds. */
    method AdjustButton(p: Control.Press, a: Adjustment)
      modifies this`seconds, this`minutes, this`hours
      ensures Now() == Control.Apply(old(Now()), p, a)
    {
      if Control.Confirmed(p) {
        match a.field
        case Hours =>
          if a.up { if hours < 23 { hours := hours + 1; } }
          else { if hours > 0 { hours := hours - 1; } }
        case Minutes =>
          if a.up { if minutes < 59 { minutes := minutes + 1; } }
          else { if minutes > 0 { minutes := minutes - 1; } }
        case Seconds =>
          if a.up { if seconds < 59 { seconds := seconds + 1; } }
          else { if seconds > 0 { seconds := seconds - 1; } }
      }
    }

    /** `adjust_time()`. */
    method AdjustTime(b: Control.Buttons)
      modifies this`seconds, this`minutes, this`hours, this`mode, this`incrementLed,
               this`countdownLed
      ensures State() == Control.AdjustTime(old(State()), b)
    {
      ghost var before := State();
      AdjustButton(b.hoursDown, Adjustment(Hours, false));
      AdjustButton(b.hoursUp, Adjustment(Hours, true));
      AdjustButton(b.minutesDown, Adjustment(Minutes, false));
      AdjustButton(b.minutesUp, Adjustment(Minutes, true));
      AdjustButton(b.secondsDown, Adjustment(Seconds, false));
      AdjustButton(b.secondsUp, Adjustment(Seconds, true));
      assert State() == before.(time := Control.AdjustedBy(before.time, b));
      if Control.Confirmed(b.mode) {
        ToggleMode();
      }
    }

    /** One iteration of the `while (1)` loop of `main()`; `Display()` only
        reads the state and is modelled in module Display. */
    method LoopStep(b: Control.Buttons, toggle: Control.Press)
      modifies this
      ensures State() == Control.LoopStep(old(State()), b, toggle)
    {
      if isPaused {
        AdjustTime(b);
      } else if timerFlag {
        Count();
        timerFlag := false;
      }
      if Control.Confirmed(toggle) {
        ToggleMode();
      }
    }
  }
}
