# Stop watch: a verified model of the time-keeping core

This project models the firmware of an AVR stopwatch (`Stop_Watch/main.c`).
The firmware keeps an hours:minutes:seconds reading in three `unsigned char`
globals. It counts up (Increment mode, `mode == 0`) or down (Countdown
mode, `mode == 1`) once per Timer1 compare match. It shows the reading on
six multiplexed 7-segment digits. Three external interrupts reset, pause
and resume it. While it is paused, six polled buttons adjust the fields.
A seventh button toggles the mode, and the buzzer sounds when a countdown
is at zero.

The model has five modules:

- `Clock` (Clock.dfy) holds the pure time arithmetic. Fields are a
  `uint8` newtype, and `++` wraps from 255 to 0 explicitly. It has the
  Increment carry chain of `count()` (`IncrementTick`), the Countdown
  borrow chain (`CountdownTick`), the bounded adjustments of
  `adjust_time()` (`Adjusted`), and a reference reading in seconds
  (`TotalSeconds`, `FromTotal`). The lemmas relate the ticks to that
  reference and to each other.
- `Display` (Display.dfy) holds the digit arithmetic of `Display()`. Each
  of the six steps writes `v % 10` or `v / 10` into the low nibble of
  PORTC and keeps its high nibble. It is proved that, for a valid reading,
  the six digits read back as the time they were computed from.
- `Control` (Control.dfy) is the whole state as a value: the globals, the
  timer's clock-select bits, TCNT1, the two mode LEDs and a count of
  buzzer activations. It has one pure transition per interrupt service
  routine, per foreground routine and per iteration of the foreground
  loop, and lemmas about them.
- `Watch` (Watch.dfy) is the class `StopWatch`. Its fields are the
  firmware's globals and peripheral bits. Its methods update those fields
  in place, statement by statement as the C routines do. The methods for
  the ISRs (`Reset`, `Pause`, `Resume`, `TimerCompare`) are proved to
  perform `Control.OnReset`, `OnPause`, `OnResume` and `OnCompare`; the
  methods for `count()`, `toggle_mode()`, `adjust_time()` and the loop
  iteration perform the `Control` transition of the same name. The two branches of `count()` (`CountUp`, `CountDown`) are proved
  against `IncrementTick` and `CountdownTick`, one adjustment button
  (`AdjustButton`) against `Control.Apply`, and `Buzzer` counts one
  activation.
- `Scenarios` (Scenarios.dfy) drives a fresh `StopWatch` from power-on:
  - `n` seconds in Increment mode;
  - setting a countdown with the buttons and running it to the alarm;
  - a compare match that is pending across a pause;
  - two compare matches consumed as one tick.

The interrupt vectors and the foreground loop's hardware inputs become
method parameters:

- A polled button is a `Press`: the first read of the pin and the read
  after the 30 ms debounce delay.
- An interrupt is a method call between two loop iterations.
- `Display()` only reads the state and is modelled on its own.

Three behaviours of the code are worth knowing, because a reader might
expect otherwise:

- A countdown does not raise the alarm on the tick that reaches
  00:00:00. In `count()` the tick from 00:00:01 only writes 00:00:00.
  The timer stop and `Buzzer()` come from the *next* tick, the one that
  finds all three fields at zero (main.c:164-168; `SecondOfCountdown`,
  `CountdownFrom`). Once the timer is stopped no further compare matches
  come. INT2 restarts it, and then every tick at zero sounds the buzzer
  again.
- The Pause ISR stops the timer but does not clear `Timer_Flag`
  (main.c:44-47). A compare match latched just before Pause therefore
  survives the pause: the loop does not count while `is_paused` is set
  (main.c:71-76), and the first iteration after Resume applies it
  (`PendingTickAcrossPause`).
- `adjust_time()` scans all six adjustment buttons in order, and each one
  whose press is confirmed acts in the same pass (main.c:213-263), so
  `AdjustedBy` applies all of them.

## Model

| member | source | states |
|---|---|---|
| Clock.FromTotal | Stop_Watch/main.c:28-30 | every number of seconds below one day is the reading of a valid hours:minutes:seconds value holding exactly that many seconds (that it is the only one is `TotalSecondsInjective`) |
| Clock.FieldsOfTotal | Stop_Watch/main.c:28-30 | the three fields of a valid reading are the hours, minutes modulo 60 and seconds modulo 60 of its number of seconds |
| Clock.TotalSecondsInjective | Stop_Watch/main.c:28-30 | two valid readings are equal if and only if they hold the same number of seconds |
| Clock.TotalSecondsDecomposes | Stop_Watch/main.c:28-30 | normalising the number of seconds of a valid reading gives the reading back |
| Clock.ZeroIsMidnight | Stop_Watch/main.c:164-166 | a valid reading holds no seconds if and only if all three fields are zero |
| Clock.Inc | Stop_Watch/main.c:150-156 | `++` on an `unsigned char` is addition of one modulo 256 |
| Clock.IncrementTick | Stop_Watch/main.c:148-161 | an Increment tick (seconds++, carry at 60, minutes++, carry at 60, hours++, wrap at 24) keeps a valid reading valid |
| Clock.CountdownTick | Stop_Watch/main.c:162-181 | a Countdown tick at 00:00:00 changes no field; elsewhere it takes exactly one second off; it keeps a valid reading valid |
| Clock.IncrementTickAdvances | Stop_Watch/main.c:150-160 | an Increment tick adds one second, except that 23:59:59 becomes 00:00:00 |
| Clock.IncrementTickTotal | Stop_Watch/main.c:150-160 | an Increment tick adds one second modulo 86400 |
| Clock.IncrementTickIsSuccessor | Stop_Watch/main.c:150-160 | an Increment tick gives the normal form of the next second of the day |
| Clock.CountdownTickIsPredecessor | Stop_Watch/main.c:164-180 | away from 00:00:00 a Countdown tick gives the normal form of the previous second |
| Clock.CountdownUndoesIncrement | Stop_Watch/main.c:147-182 | a Countdown tick undoes an Increment tick, except at the wrap from 23:59:59 |
| Clock.IncrementUndoesCountdown | Stop_Watch/main.c:147-182 | an Increment tick undoes a Countdown tick, except at 00:00:00 |
| Clock.IncrementWrapsAtMidnight | Stop_Watch/main.c:150-159 | 23:59:59 goes to 00:00:00 |
| Clock.IncrementTickCountsDays | Stop_Watch/main.c:150-160 | one Increment tick is one more second elapsed, and the wrap completes one more day |
| Clock.CountdownTickCounts | Stop_Watch/main.c:164-180 | no seconds left exactly at 00:00:00; before it a Countdown tick leaves one second fewer |
| Clock.ElapsedCountsDays | Stop_Watch/main.c:150-160 | after `n` Increment ticks from 00:00:00 the reading holds `n` seconds less some whole days |
| Clock.ElapsedIsModuloDay | Stop_Watch/main.c:150-160 | after `n` Increment ticks from 00:00:00 the reading is valid and is the normal form of `n` modulo 86400 |
| Clock.CountedDownRemaining | Stop_Watch/main.c:164-180 | each of the first `TotalSeconds(start)` Countdown ticks from a valid `start` takes off one second |
| Clock.CountdownReachesMidnight | Stop_Watch/main.c:164-166 | a countdown reads 00:00:00 for the first time after exactly as many ticks as its start holds seconds |
| Clock.Set | Stop_Watch/main.c:218 | writing one field sets that field and leaves the other two alone |
| Clock.Adjusted | Stop_Watch/main.c:215-263 | one guarded adjustment changes only its own field, by +1 or -1, does nothing at its bound (0 down, 23 up for hours, 59 up for minutes and seconds) and keeps a valid reading valid |
| Clock.RaisedStep | Stop_Watch/main.c:223-262 | one more confirmed press of an increment button raises its field by one more step, up to the ceiling, and keeps the reading valid |
| Clock.AdjustmentsUndo | Stop_Watch/main.c:215-263 | away from its bound an increment button and the matching decrement button undo each other |
| Display.Digits | Stop_Watch/main.c:187-208 | six digit values, each below 10 for a valid reading; their display order is fixed by `Display.Show` and `Display.ShowRoundTrip` |
| Display.LowNibble | Stop_Watch/main.c:188 | `x & 0x0F` is below 16 and, added to `x & 0xF0`, gives `x` back |
| Display.HighNibble | Stop_Watch/main.c:188 | `x & 0xF0` is a multiple of 16 that lies within 15 below `x` |
| Display.Latch | Stop_Watch/main.c:188 | `(PORTC & 0xF0) \| (d & 0x0F)` keeps the high nibble of PORTC and puts the digit's low nibble below it |
| Display.Show | Stop_Watch/main.c:185-210 | one `Display()` call writes six frames, with enables 0x20 down to 0x01, the low nibble of each the low nibble of its digit, and PORTC's high nibble never changed; `Display.ShowRoundTrip` states what they show |
| Display.Pass | Stop_Watch/main.c:187-209 | the sequence of writes selects the given enables in order, each low nibble is its digit, and the high nibble of PORTC is never changed |
| Display.TwoDigits | Stop_Watch/main.c:188-208 | for a value below 100 `v % 10` and `v / 10` are digits and `10 * (v / 10) + v % 10 == v` |
| Display.ShowRoundTrip | Stop_Watch/main.c:187-209 | the six frames of one `Display()` call read back as the valid time displayed, with enables 0x20 to 0x01 and PORTC's high nibble untouched |
| Control.PowerOn | Stop_Watch/main.c:28-33 | the initial state is valid: 00:00:00, Increment mode with its LED on and the Countdown LED off, timer running, nothing pending |
| Control.OnReset | Stop_Watch/main.c:36-41 | INT0 zeroes the time and TCNT1 and leaves mode, pause flag, tick latch and everything else unchanged |
| Control.OnPause | Stop_Watch/main.c:44-47 | INT1 stops the timer and sets the pause flag and changes nothing else (the tick latch in particular) |
| Control.OnResume | Stop_Watch/main.c:50-53 | INT2 restarts the timer and clears the pause flag and changes nothing else |
| Control.OnCompare | Stop_Watch/main.c:56-58 | the compare match sets the tick latch and changes nothing else |
| Control.Count | Stop_Watch/main.c:147-182 | `count()` applies the tick of the current mode (none for a mode other than 0 or 1), stops the timer and sounds the buzzer once exactly in Countdown mode at 00:00:00, changes nothing else and keeps the state valid |
| Control.CountMovesOneSecond | Stop_Watch/main.c:147-182 | on a valid state `count()` adds one second modulo one day in Increment mode; in Countdown mode it takes one second off without alarm, or at zero keeps the reading, sounds the buzzer once and stops the timer |
| Control.CountUpMovesOneSecond | Stop_Watch/main.c:148-161 | in Increment mode `count()` adds one second modulo one day and sounds no buzzer |
| Control.CountDownMovesOneSecond | Stop_Watch/main.c:162-181 | in Countdown mode `count()` takes one second off without alarm, or at 00:00:00 keeps the reading, sounds the buzzer once and stops the timer |
| Control.Toggled | Stop_Watch/main.c:277 | `!mode` is 0 or 1, and 0 exactly when `mode` was not 0 |
| Control.ToggleMode | Stop_Watch/main.c:276-288 | `toggle_mode()` flips the mode, lights PD4 exactly in mode 0 and PD5 exactly in mode 1, changes nothing else and keeps the state valid |
| Control.ToggleTwice | Stop_Watch/main.c:276-288 | toggling twice restores a valid state |
| Control.Apply | Stop_Watch/main.c:215-221 | a button changes the reading only on a press confirmed after the debounce delay; it changes only its own field, does nothing at the field's bound, otherwise moves it by exactly one step in its direction, and keeps a valid reading valid |
| Control.ButtonPair | Stop_Watch/main.c:215-229 | the decrement and then the increment button of one field change only that field, by at most one step, leave it alone when neither press is confirmed, and keep a valid reading valid |
| Control.ButtonPairIsLocal | Stop_Watch/main.c:215-229 | what a field's two buttons do to it depends only on that field's value, so the earlier buttons of the scan cannot affect a later field |
| Control.AdjustedBy | Stop_Watch/main.c:213-263 | after the six buttons in scan order each field is what its own two buttons make of it, whatever the other buttons do; a field none of whose buttons is confirmed keeps its value; a valid reading stays valid |
| Control.AdjustTime | Stop_Watch/main.c:213-273 | `adjust_time()` changes the time by the six adjustments, then toggles the mode on a confirmed PB7 press, and changes nothing else |
| Control.SingleButton | Stop_Watch/main.c:213-263 | with only one adjustment button held a pass makes exactly that adjustment |
| Control.LoopStep | Stop_Watch/main.c:68-86 | one iteration of the foreground loop keeps the state valid |
| Control.PausedStepNeverCounts | Stop_Watch/main.c:71-72 | while paused a loop iteration never counts: the tick latch, the timer and the buzzer stay as they were and the time changes only by the adjustments |
| Control.RunningStepCountsOnce | Stop_Watch/main.c:73-85 | while running with the latch set a loop iteration applies exactly one `count()`, clears the latch, then polls the mode button |
| Control.RunningStepWithoutTick | Stop_Watch/main.c:71-85 | while running with no tick pending a loop iteration changes nothing but, on a confirmed press, the mode |
| Control.UnconfirmedPressesIgnored | Stop_Watch/main.c:79-81 | when no poll of the iteration (the six adjustment buttons, PB7 in `adjust_time()` and PB7 in the loop) sees the pin low on both the read before and the read after the 30 ms debounce delay, the iteration is the one taken with no button pressed |
| Control.LatchNotCounter | Stop_Watch/main.c:56-58 | the latch is one bit: two compare matches before a loop iteration have the effect of one |
| Control.SecondOfIncrement | Stop_Watch/main.c:68-76 | a compare match and one loop iteration of a running Increment-mode watch apply one Increment tick and leave it running, silent and in the same mode |
| Control.SecondOfCountdown | Stop_Watch/main.c:162-168 | a compare match and one loop iteration of a running Countdown-mode watch apply one Countdown tick and keep it running and silent before 00:00:00; at 00:00:00 keep the reading, sound the buzzer once and stop the timer |
| Watch.StopWatch.constructor | Stop_Watch/main.c:28-33 | the globals' initial values, the LED state set by `configure_IO_pins()` and the timer started and zeroed by `TIMER1_COMP_INIT()` form the power-on state |
| Watch.StopWatch.Reset | Stop_Watch/main.c:36-41 | the ISR writes exactly the state `Control.OnReset` describes |
| Watch.StopWatch.Pause | Stop_Watch/main.c:44-47 | the ISR writes exactly the state `Control.OnPause` describes |
| Watch.StopWatch.Resume | Stop_Watch/main.c:50-53 | the ISR writes exactly the state `Control.OnResume` describes |
| Watch.StopWatch.TimerCompare | Stop_Watch/main.c:56-58 | the ISR writes exactly the state `Control.OnCompare` describes |
| Watch.StopWatch.Buzzer | Stop_Watch/main.c:291-295 | one activation of the buzzer, and no other field changes |
| Watch.StopWatch.Count | Stop_Watch/main.c:147-182 | the in-place `count()` reaches exactly the state `Control.Count` describes |
| Watch.StopWatch.CountUp | Stop_Watch/main.c:148-161 | the in-place carry chain leaves the reading `IncrementTick` gives |
| Watch.StopWatch.CountDown | Stop_Watch/main.c:162-181 | the in-place borrow chain leaves the reading `CountdownTick` gives, and stops the timer and sounds the buzzer exactly at 00:00:00 |
| Watch.StopWatch.ToggleMode | Stop_Watch/main.c:276-288 | the in-place `toggle_mode()` reaches exactly the state `Control.ToggleMode` describes |
| Watch.StopWatch.AdjustButton | Stop_Watch/main.c:215-263 | one button's in-place guarded `++` or `--` leaves the reading `Control.Apply` gives |
| Watch.StopWatch.AdjustTime | Stop_Watch/main.c:213-273 | the in-place `adjust_time()` reaches exactly the state `Control.AdjustTime` describes |
| Watch.StopWatch.LoopStep | Stop_Watch/main.c:68-86 | the in-place loop iteration reaches exactly the state `Control.LoopStep` describes |
| Scenarios.OneSecond | Stop_Watch/main.c:68-76 | a compare match followed by one loop iteration with no button held |
| Scenarios.RunFromPowerOn | Stop_Watch/main.c:150-160 | after `n` seconds from power-on the watch reads the valid normal form of `n` modulo 86400 |
| Scenarios.PressUp | Stop_Watch/main.c:223-229 | pressing one increment button `n` times, once per loop iteration while paused, raises its field by `n` up to its ceiling and changes nothing else |
| Scenarios.SetCountdown | Stop_Watch/main.c:213-273 | a paused watch set with the buttons, switched to Countdown mode and resumed is running in mode 1 with the chosen reading |
| Scenarios.RunCountdown | Stop_Watch/main.c:162-181 | while the countdown still holds `n` seconds, `n` seconds of a running watch leave it running, silent and in Countdown mode at `n` Countdown ticks from where it started |
| Scenarios.CountdownFrom | Stop_Watch/main.c:162-181 | a countdown set to `start` and run for `n` seconds: up to `TotalSeconds(start)` seconds it reads `n` seconds fewer than `start` (00:00:00 at the end) with the buzzer silent and the timer running; one second later the buzzer has sounded once and the timer is stopped |
| Scenarios.PendingTickAcrossPause | Stop_Watch/main.c:71-76 | a tick latched before Pause is neither applied nor lost while paused, and is applied by the first loop iteration after Resume |
| Scenarios.TwoComparesOneTick | Stop_Watch/main.c:56-58 | two compare matches before a loop iteration advance the watch by one second only |

## Left out

- Register configuration (`INT0_Init`, `INT1_Init`, `INT2_Init`, `TIMER1_COMP_INIT`, and the pin-direction and pull-up parts of `configure_IO_pins`, main.c:89-144): it holds no logic. Only its effect is kept: the timer runs, TCNT1 is zero, and the Increment LED is on while the Countdown LED and buzzer are off.
- The prescaler and `OCR1A = 15625` timing: a compare match is taken to mean one second has passed. TCNT1 is written by Reset and otherwise not advanced.
- Bit-level TCCR1B: the clock-select bits are one boolean `timerRunning`. The model does not check that the hardware raises compare matches only while the timer is clocked, so `TimerCompare` has no precondition.
- The `_delay_ms` calls and the busy-wait loops that wait for a button's release are not modelled. A button is the pair of reads around the debounce delay.
- Without the release wait, a button read as pressed in several loop iterations acts in each of them. In the source a button held down acts once, then blocks until released (for example main.c:228), so each action needs a new press. `Scenarios.PressUp` therefore stands for `n` separate presses.
- For the same reason a loop step may take a confirmed PB7 press both in `adjust_time()` and in the loop's own poll. In the source the second poll would need a new press.
- Buzzer: the 2 s blocking hold is not modelled. An activation is counted as one event.
- Interrupt preemption and races, such as a Reset landing inside `count()` or a compare match inside `adjust_time()`: each ISR is an atomic method call between loop iterations.
- The globals are not declared `volatile` (main.c:28-33), so C does not guarantee that the loop re-reads `is_paused` and `Timer_Flag` after an ISR wrote them. The model assumes every loop iteration sees the ISRs' writes.
- The multiplexing of `Display()`: the 2 ms dwell between digits and the electrical persistence are not modelled. The 7-segment decoding of a BCD nibble is outside the firmware.
- The countdown scenario sets its start with the increment buttons only, from 00:00:00. The decrement buttons are covered by `Clock.Adjusted` and `Control.SingleButton`, not by a scenario.
