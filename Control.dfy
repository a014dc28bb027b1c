/** The time-keeping state machine of the firmware as values: the globals
    of `main.c`, the bits of the peripherals they drive, and one pure
    transition per interrupt service routine, per foreground routine and
    per iteration of the foreground loop. The class in Watch.dfy performs
    these transitions in place. */
module Control {
  import opened Clock

  /** A polled, active-low button: `low` is the first read of its pin and
      `stillLow` the read after the 30 ms debounce delay. */
  datatype Press = Press(low: bool, stillLow: bool)

  /** The firmware acts on a button only when both reads are low. */
  predicate Confirmed(p: Press) {
    p.low && p.stillLow
  }

  /** The seven buttons `adjust_time()` scans, in its order: PB0, PB1, PB3,
      PB4, PB5, PB6 and the mode button PB7. */
  datatype Buttons = Buttons(
    hoursDown: Press, hoursUp: Press,
    minutesDown: Press, minutesUp: Press,
    secondsDown: Press, secondsUp: Press,
    mode: Press)

  /** Everything the core reads or writes. `timerRunning` stands for the
      clock-select bits of TCCR1B, `counter` for TCNT1 (the model does not
      advance it), `incrementLed` and `countdownLed` for PD4 and PD5, and
      `buzzes` counts the activations of the buzzer on PD0. */
  datatype State = State(
    time: Time, mode: uint8, timerFlag: bool, isPaused: bool,
    timerRunning: bool, counter: nat,
    incrementLed: bool, countdownLed: bool, buzzes: nat)

  /** What every reachable state satisfies. */
  predicate Valid(s: State) {
    && ValidTime(s.time)
    && s.mode <= 1
    && s.incrementLed == (s.mode == 0)
    && s.countdownLed == (s.mode == 1)
    && (s.isPaused ==> !s.timerRunning)
  }

  /** The state once `main()` has configured the pins and the timer: all
      zero, Increment mode with its LED on, the timer running. */
  function PowerOn(): (s: State)
    ensures Valid(s) && IsMidnight(s.time) && s.mode == 0
    ensures s.timerRunning && !s.isPaused && !s.timerFlag && s.buzzes == 0
  {
    State(Time(0, 0, 0), 0, false, false, true, 0, true, false, 0)
  }

  /** INT0: zero the counter and the three time fields. */
  function OnReset(s: State): (r: State)
    ensures IsMidnight(r.time) && r.counter == 0
    ensures r.(time := s.time, counter := s.counter) == s
    ensures Valid(s) ==> Valid(r)
  {
    s.(time := Time(0, 0, 0), counter := 0)
  }

  /** INT1: stop the timer and mark the watch paused. */
  function OnPause(s: State): (r: State)
    ensures !r.timerRunning && r.isPaused
    ensures r.(timerRunning := s.timerRunning, isPaused := s.isPaused) == s
    ensures Valid(s) ==> Valid(r)
  {
    s.(timerRunning := false, isPaused := true)
  }

  /** INT2: restart the timer and clear the paused mark. */
  function OnResume(s: State): (r: State)
    ensures r.timerRunning && !r.isPaused
    ensures r.(timerRunning := s.timerRunning, isPaused := s.isPaused) == s
    ensures Valid(s) ==> Valid(r)
  {
    s.(timerRunning := true, isPaused := false)
  }

  /** TIMER1_COMPA: latch that a second has passed. */
  function OnCompare(s: State): (r: State)
    ensures r.timerFlag
    ensures r.(timerFlag := s.timerFlag) == s
    ensures Valid(s) ==> Valid(r)
  {
    s.(timerFlag := true)
  }

  /** `count()` reaches the timer-stop and `Buzzer()` branch. */
  predicate AlarmDue(s: State) {
    s.mode == 1 && IsMidnight(s.time)
  }

  /** `count()`: one tick in the current mode; at 00:00:00 in Countdown mode
      it stops the timer and sounds the buzzer once instead. */
  function Count(s: State): (r: State)
    ensures s.mode == 0 ==> r.time == IncrementTick(s.time)
    ensures s.mode == 1 ==> r.time == CountdownTick(s.time)
    ensures s.mode > 1 ==> r.time == s.time
    ensures r.buzzes == s.buzzes + (if AlarmDue(s) then 1 else 0)
    ensures r.timerRunning == (s.timerRunning && !AlarmDue(s))
    ensures r.(time := s.time, timerRunning := s.timerRunning, buzzes := s.buzzes) == s
    ensures Valid(s) ==> Valid(r)
  {
    if s.mode == 0 then s.(time := IncrementTick(s.time))
    else if s.mode == 1 then
      if IsMidnight(s.time) then s.(timerRunning := false, buzzes := s.buzzes + 1)
      else s.(time := CountdownTick(s.time))
    else s
  }

  /** A tick in Increment mode moves one second forward around the day. */
  lemma CountUpMovesOneSecond(s: State)
    requires Valid(s) && s.mode == 0
    ensures TotalSeconds(Count(s).time) == (TotalSeconds(s.time) + 1) % 86400
    ensures Count(s).buzzes == s.buzzes
  {
    assert Count(s).time == IncrementTick(s.time) && !AlarmDue(s);
    IncrementTickTotal(s.time);
  }

  /** A tick in Countdown mode moves one second back and raises no alarm,
      except at 00:00:00, where the reading stays and the buzzer sounds. */
  lemma CountDownMovesOneSecond(s: State)
    requires Valid(s) && s.mode == 1
    ensures TotalSeconds(s.time) > 0 ==>
      TotalSeconds(Count(s).time) == TotalSeconds(s.time) - 1 && Count(s).buzzes == s.buzzes
    ensures TotalSeconds(s.time) == 0 ==>
      Count(s).time == s.time && Count(s).buzzes == s.buzzes + 1 && !Count(s).timerRunning
  {
    assert Count(s).time == CountdownTick(s.time);
    ZeroIsMidnight(s.time);
  }

  /** Both modes together: a tick in Increment mode moves one second
      forward around the day; in Countdown mode it moves one second back and
      raises no alarm, except at 00:00:00, where the reading stays and the
      buzzer sounds. */
  lemma CountMovesOneSecond(s: State)
    requires Valid(s)
    ensures s.mode == 0 ==>
      TotalSeconds(Count(s).time) == (TotalSeconds(s.time) + 1) % 86400 && Count(s).buzzes == s.buzzes
    ensures s.mode == 1 && TotalSeconds(s.time) > 0 ==>
      TotalSeconds(Count(s).time) == TotalSeconds(s.time) - 1 && Count(s).buzzes == s.buzzes
    ensures s.mode == 1 && TotalSeconds(s.time) == 0 ==>
      Count(s).time == s.time && Count(s).buzzes == s.buzzes + 1 && !Count(s).timerRunning
  {
    if s.mode == 0 {
      CountUpMovesOneSecond(s);
    } else if s.mode == 1 {
      CountDownMovesOneSecond(s);
    }
  }

  /** `mode = !mode`. */
  function Toggled(m: uint8): (r: uint8)
    ensures r <= 1
    ensures r == 0 <==> m != 0
  {
    if m == 0 then 1 else 0
  }

  /** `toggle_mode()`: flip the mode and light the LED of the new mode. */
  function ToggleMode(s: State): (r: State)
    ensures r.mode <= 1 && (r.mode == 0 <==> s.mode != 0)
    ensures r.incrementLed == (r.mode == 0) && r.countdownLed == (r.mode == 1)
    ensures r.(mode := s.mode, incrementLed := s.incrementLed, countdownLed := s.countdownLed) == s
    ensures Valid(s) ==> Valid(r)
  {
    var m := Toggled(s.mode);
    s.(mode := m, incrementLed := m == 0, countdownLed := m != 0)
  }

  /** One button of `adjust_time()`: it acts only on a press confirmed
      after the debounce delay, and then only on its own field, by one step
      within that field's bounds. */
  function Apply(t: Time, p: Press, a: Adjustment): (r: Time)
    ensures r != t ==> Confirmed(p)
    ensures a.field != Hours ==> r.hours == t.hours
    ensures a.field != Minutes ==> r.minutes == t.minutes
    ensures a.field != Seconds ==> r.seconds == t.seconds
    ensures AtBound(t, a) ==> r == t
    ensures Confirmed(p) && !AtBound(t, a) ==>
      Get(r, a.field) as int == Get(t, a.field) as int + (if a.up then 1 else -1)
    ensures ValidTime(t) ==> ValidTime(r)
  {
    if Confirmed(p) then Adjusted(t, a) else t
  }

  /** The two buttons of field `f`, the decrement button scanned first:
      they move only that field, by at most one step, and leave it alone
      when neither press is confirmed. */
  function ButtonPair(t: Time, down: Press, up: Press, f: Field): (r: Time)
    ensures f != Hours ==> r.hours == t.hours
    ensures f != Minutes ==> r.minutes == t.minutes
    ensures f != Seconds ==> r.seconds == t.seconds
    ensures !Confirmed(down) && !Confirmed(up) ==> r == t
    ensures -1 <= Get(r, f) as int - Get(t, f) as int <= 1
    ensures ValidTime(t) ==> ValidTime(r)
  {
    Apply(Apply(t, down, Adjustment(f, false)), up, Adjustment(f, true))
  }

  /** What the two buttons of a field do to it depends on that field only. */
  lemma ButtonPairIsLocal(t: Time, u: Time, down: Press, up: Press, f: Field)
    requires Get(t, f) == Get(u, f)
    ensures Get(ButtonPair(t, down, up, f), f) == Get(ButtonPair(u, down, up, f), f)
  {
  }

  /** The six adjustment buttons of `adjust_time()` in scan order. Each
      field ends as its own two buttons leave it, whatever the other
      buttons do; a field none of whose buttons is confirmed keeps its
      value. */
  function AdjustedBy(t: Time, b: Buttons): (r: Time)
    ensures r == Time(ButtonPair(t, b.hoursDown, b.hoursUp, Hours).hours,
                      ButtonPair(t, b.minutesDown, b.minutesUp, Minutes).minutes,
                      ButtonPair(t, b.secondsDown, b.secondsUp, Seconds).seconds)
    ensures !Confirmed(b.hoursDown) && !Confirmed(b.hoursUp) ==> r.hours == t.hours
    ensures !Confirmed(b.minutesDown) && !Confirmed(b.minutesUp) ==> r.minutes == t.minutes
    ensures !Confirmed(b.secondsDown) && !Confirmed(b.secondsUp) ==> r.seconds == t.seconds
    ensures ValidTime(t) ==> ValidTime(r)
  {
    var afterHours := ButtonPair(t, b.hoursDown, b.hoursUp, Hours);
    var afterMinutes := ButtonPair(afterHours, b.minutesDown, b.minutesUp, Minutes);
    ButtonPairIsLocal(afterHours, t, b.minutesDown, b.minutesUp, Minutes);
    ButtonPairIsLocal(afterMinutes, t, b.secondsDown, b.secondsUp, Seconds);
    ButtonPair(afterMinutes, b.secondsDown, b.secondsUp, Seconds)
  }

  /** `adjust_time()`: the six adjustments, then the mode button. */
  function AdjustTime(s: State, b: Buttons): (r: State)
    ensures r.time == AdjustedBy(s.time, b)
    ensures Confirmed(b.mode) ==> r == ToggleMode(s.(time := r.time))
    ensures !Confirmed(b.mode) ==> r == s.(time := r.time)
    ensures Valid(s) ==> Valid(r)
  {
    var adjusted := s.(time := AdjustedBy(s.time, b));
    if Confirmed(b.mode) then ToggleMode(adjusted) else adjusted
  }

  /** One iteration of the `while (1)` loop of `main()` after `Display()`:
      adjust while paused, else consume a pending tick, then poll the mode
      button once more. */
  function LoopStep(s: State, b: Buttons, toggle: Press): (r: State)
    ensures Valid(s) ==> Valid(r)
  {
    var after :=
      if s.isPaused then AdjustTime(s, b)
      else if s.timerFlag then Count(s).(timerFlag := false)
      else s;
    if Confirmed(toggle) then ToggleMode(after) else after
  }

  /** No button pressed. */
  const Idle: Press := Press(false, false)
  const NoButtons: Buttons := Buttons(Idle, Idle, Idle, Idle, Idle, Idle, Idle)

  /** A press that survives the debounce. */
  const Held: Press := Press(true, true)

  /** Only the button for adjustment `a` is held. */
  function PressOnly(a: Adjustment): (b: Buttons)
    ensures !Confirmed(b.mode)
  {
    match a.field
    case Hours => if a.up then NoButtons.(hoursUp := Held) else NoButtons.(hoursDown := Held)
    case Minutes => if a.up then NoButtons.(minutesUp := Held) else NoButtons.(minutesDown := Held)
    case Seconds => if a.up then NoButtons.(secondsUp := Held) else NoButtons.(secondsDown := Held)
  }

  /** One held adjustment button makes exactly its own adjustment. */
  lemma SingleButton(t: Time, a: Adjustment)
    ensures AdjustedBy(t, PressOnly(a)) == Adjusted(t, a)
  {
  }

  /** Toggling twice restores a valid mode and its LEDs. */
  lemma ToggleTwice(s: State)
    requires Valid(s)
    ensures ToggleMode(ToggleMode(s)) == s
  {
  }

  /** A step while paused never counts: the tick latch, the timer and the
      buzzer are left alone, and only the adjustment buttons and the mode
      button change anything. */
  lemma PausedStepNeverCounts(s: State, b: Buttons, toggle: Press)
    requires s.isPaused
    ensures LoopStep(s, b, toggle).timerFlag == s.timerFlag
    ensures LoopStep(s, b, toggle).timerRunning == s.timerRunning
    ensures LoopStep(s, b, toggle).buzzes == s.buzzes
    ensures LoopStep(s, b, toggle).time == AdjustedBy(s.time, b)
    ensures LoopStep(s, b, Idle) == AdjustTime(s, b)
  {
    var after := AdjustTime(s, b);
    assert LoopStep(s, b, toggle) == if Confirmed(toggle) then ToggleMode(after) else after;
  }

  /** A step while running with the latch set applies exactly one tick and
      clears the latch. This and the next lemma unfold one branch of
      `LoopStep` each; `SecondOfIncrement` and `SecondOfCountdown` state
      what a second of a running watch amounts to. */
  lemma RunningStepCountsOnce(s: State, b: Buttons, toggle: Press)
    requires !s.isPaused && s.timerFlag
    ensures var counted := Count(s).(timerFlag := false);
      LoopStep(s, b, toggle) == if Confirmed(toggle) then ToggleMode(counted) else counted
  {
  }

  /** Without a pending tick a running step changes nothing but the mode. */
  lemma RunningStepWithoutTick(s: State, b: Buttons, toggle: Press)
    requires !s.isPaused && !s.timerFlag
    ensures LoopStep(s, b, toggle) == if Confirmed(toggle) then ToggleMode(s) else s
  {
  }

  /** The debounce over a whole iteration: a press that the second read
      does not confirm, on any of the eight polls, changes nothing; the
      step is the one taken with no button pressed at all. */
  lemma UnconfirmedPressesIgnored(s: State, b: Buttons, toggle: Press)
    requires !Confirmed(b.hoursDown) && !Confirmed(b.hoursUp)
    requires !Confirmed(b.minutesDown) && !Confirmed(b.minutesUp)
    requires !Confirmed(b.secondsDown) && !Confirmed(b.secondsUp)
    requires !Confirmed(b.mode) && !Confirmed(toggle)
    ensures LoopStep(s, b, toggle) == LoopStep(s, NoButtons, Idle)
  {
    assert AdjustedBy(s.time, b) == s.time == AdjustedBy(s.time, NoButtons);
    assert AdjustTime(s, b) == s == AdjustTime(s, NoButtons);
  }

  /** The latch is one bit: any number of compare events before a step
      leaves the same state as one. */
  lemma LatchNotCounter(s: State, b: Buttons, toggle: Press)
    ensures OnCompare(OnCompare(s)) == OnCompare(s)
    ensures LoopStep(OnCompare(OnCompare(s)), b, toggle) == LoopStep(OnCompare(s), b, toggle)
  {
  }

  /** A watch that is counting: valid, not paused, the timer clocked and no
      compare match pending. */
  predicate Running(s: State) {
    Valid(s) && !s.isPaused && s.timerRunning && !s.timerFlag
  }

  /** One second of a running watch with no button held: the compare-match
      interrupt, then one loop iteration. */
  function Second(s: State): State {
    LoopStep(OnCompare(s), NoButtons, Idle)
  }

  /** In Increment mode each second applies one Increment tick and leaves
      the watch running in the same mode. */
  lemma SecondOfIncrement(s: State)
    requires Running(s) && s.mode == 0
    ensures Running(Second(s)) && Second(s).mode == 0 && Second(s).buzzes == s.buzzes
    ensures Second(s).time == IncrementTick(s.time)
  {
    RunningStepCountsOnce(OnCompare(s), NoButtons, Idle);
  }

  /** In Countdown mode each second before 00:00:00 applies one Countdown
      tick and keeps the buzzer silent; the second at 00:00:00 keeps the
      reading, sounds the buzzer once and stops the timer. */
  lemma SecondOfCountdown(s: State)
    requires Running(s) && s.mode == 1
    ensures !IsMidnight(s.time) ==>
      Running(Second(s)) && Second(s).mode == 1 && Second(s).buzzes == s.buzzes &&
      Second(s).time == CountdownTick(s.time)
    ensures IsMidnight(s.time) ==>
      Second(s).time == s.time && Second(s).buzzes == s.buzzes + 1 && !Second(s).timerRunning
  {
    RunningStepCountsOnce(OnCompare(s), NoButtons, Idle);
  }
}
