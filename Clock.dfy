/** Time arithmetic of the stopwatch: the three `unsigned char` place-value
    fields, the per-tick carry (Increment mode) and borrow (Countdown mode),
    and the bounded adjustments allowed while paused. Everything here is
    pure; the class in Watch.dfy updates its fields so that they follow
    these functions. */
module Clock {

  /** The target's `unsigned char`. */
  newtype uint8 = x: int | 0 <= x < 256

  /** A clock reading: the globals `hours`, `minutes` and `seconds`. */
  datatype Time = Time(hours: uint8, minutes: uint8, seconds: uint8)

  /** 00:00:00, the reading after a reset and the end of a countdown. */
  predicate IsMidnight(t: Time) {
    t.hours == 0 && t.minutes == 0 && t.seconds == 0
  }

  /** The normal form the carries and borrows maintain. */
  predicate ValidTime(t: Time) {
    t.seconds < 60 && t.minutes < 60 && t.hours < 24
  }

  /** The reading as a number of seconds since 00:00:00. */
  function TotalSeconds(t: Time): nat {
    t.hours as int * 3600 + t.minutes as int * 60 + t.seconds as int
  }

  /** How a valid reading is normalised. */
  function FromTotal(n: nat): (t: Time)
    requires n < 86400
    ensures ValidTime(t) && TotalSeconds(t) == n
  {
    var q := n / 60;
    assert n == q * 60 + n % 60;
    assert q == (q / 60) * 60 + q % 60;
    Time((q / 60) as uint8, (q % 60) as uint8, (n % 60) as uint8)
  }

  /** The fields of a valid reading can be read back from its number of
      seconds. */
  lemma FieldsOfTotal(t: Time)
    requires ValidTime(t)
    ensures t.hours as int == TotalSeconds(t) / 3600
    ensures t.minutes as int == TotalSeconds(t) / 60 % 60
    ensures t.seconds as int == TotalSeconds(t) % 60
  {
    var n := TotalSeconds(t);
    var q := t.hours as int * 60 + t.minutes as int;
    assert n == q * 60 + t.seconds as int;
    assert n / 60 == q && n % 60 == t.seconds as int;
    assert q / 60 == t.hours as int && q % 60 == t.minutes as int;
    assert n / 3600 == t.hours as int;
  }

  /** A valid reading is determined by its number of seconds. */
  lemma TotalSecondsInjective(a: Time, b: Time)
    requires ValidTime(a) && ValidTime(b)
    ensures TotalSeconds(a) == TotalSeconds(b) <==> a == b
  {
    if TotalSeconds(a) == TotalSeconds(b) {
      FieldsOfTotal(a);
      FieldsOfTotal(b);
    }
  }

  lemma TotalSecondsDecomposes(t: Time)
    requires ValidTime(t)
    ensures FromTotal(TotalSeconds(t)) == t
  {
    TotalSecondsInjective(FromTotal(TotalSeconds(t)), t);
  }

  /** 00:00:00 is the only valid reading with no seconds. */
  lemma ZeroIsMidnight(t: Time)
    requires ValidTime(t)
    ensures TotalSeconds(t) == 0 <==> IsMidnight(t)
  {
  }

  /** `x++` on an `unsigned char`: wraps from 255 to 0. */
  function Inc(x: uint8): (r: uint8)
    ensures r as int == (x as int + 1) % 256
  {
    if x == 255 then 0 else x + 1
  }

  /** One tick of `count()` in Increment mode (mode 0): add a second,
      carrying into minutes at 60 and hours at 60, and wrap hours at 24. */
  function IncrementTick(t: Time): (r: Time)
    ensures ValidTime(t) ==> ValidTime(r)
  {
    var s := Inc(t.seconds);
    if s != 60 then Time(t.hours, t.minutes, s)
    else
      var m := Inc(t.minutes);
      if m != 60 then Time(t.hours, m, 0)
      else
        var h := Inc(t.hours);
        if h != 24 then Time(h, 0, 0) else Time(0, 0, 0)
  }

  /** One tick of `count()` in Countdown mode (mode 1): subtract a second,
      borrowing from minutes and then hours; 00:00:00 is left as it is
      (there the source stops the timer and sounds the buzzer instead). */
  function CountdownTick(t: Time): (r: Time)
    ensures IsMidnight(t) ==> r == t
    ensures !IsMidnight(t) ==> TotalSeconds(r) == TotalSeconds(t) - 1
    ensures ValidTime(t) ==> ValidTime(r)
  {
    if t.seconds != 0 then Time(t.hours, t.minutes, t.seconds - 1)
    else if t.minutes != 0 then Time(t.hours, t.minutes - 1, 59)
    else if t.hours != 0 then Time(t.hours - 1, 59, 59)
    else t
  }

  /** Increment mode adds one second, except that 23:59:59 goes to 00:00:00. */
  lemma IncrementTickAdvances(t: Time)
    requires ValidTime(t)
    ensures TotalSeconds(IncrementTick(t)) ==
      if TotalSeconds(t) == 86399 then 0 else TotalSeconds(t) + 1
  {
    if t.seconds == 59 && t.minutes == 59 && t.hours == 23 {
      assert TotalSeconds(t) == 86399;
    } else {
      assert TotalSeconds(t) < 86399;
    }
  }

  lemma DayRemainder(x: nat)
    requires x <= 86400
    ensures x % 86400 == if x == 86400 then 0 else x
  {
  }

  /** Increment mode adds one second modulo one day. */
  lemma IncrementTickTotal(t: Time)
    requires ValidTime(t)
    ensures TotalSeconds(IncrementTick(t)) == (TotalSeconds(t) + 1) % 86400
  {
    IncrementTickAdvances(t);
    DayRemainder(TotalSeconds(t) + 1);
  }

  /** Increment mode is the successor modulo one day. */
  lemma IncrementTickIsSuccessor(t: Time)
    requires ValidTime(t)
    ensures IncrementTick(t) == FromTotal((TotalSeconds(t) + 1) % 86400)
  {
    IncrementTickTotal(t);
    TotalSecondsInjective(IncrementTick(t), FromTotal((TotalSeconds(t) + 1) % 86400));
  }

  /** Countdown mode is the predecessor, except at 00:00:00. */
  lemma CountdownTickIsPredecessor(t: Time)
    requires ValidTime(t) && !IsMidnight(t)
    ensures TotalSeconds(t) > 0
    ensures CountdownTick(t) == FromTotal(TotalSeconds(t) - 1)
  {
    TotalSecondsInjective(CountdownTick(t), FromTotal(TotalSeconds(t) - 1));
  }

  /** A Countdown tick undoes an Increment tick, except at the wrap from
      23:59:59. */
  lemma CountdownUndoesIncrement(t: Time)
    requires ValidTime(t) && TotalSeconds(t) < 86399
    ensures CountdownTick(IncrementTick(t)) == t
  {
    var up := IncrementTick(t);
    IncrementTickAdvances(t);
    ZeroIsMidnight(up);
    TotalSecondsInjective(CountdownTick(up), t);
  }

  /** An Increment tick undoes a Countdown tick, except at 00:00:00. */
  lemma IncrementUndoesCountdown(t: Time)
    requires ValidTime(t) && !IsMidnight(t)
    ensures IncrementTick(CountdownTick(t)) == t
  {
    var down := CountdownTick(t);
    ZeroIsMidnight(t);
    IncrementTickAdvances(down);
    TotalSecondsInjective(IncrementTick(down), t);
  }

  lemma IncrementWrapsAtMidnight()
    ensures IncrementTick(Time(23, 59, 59)) == Time(0, 0, 0)
  {
  }

  /** `elapsed` seconds after 00:00:00 an Increment-mode watch reads `t`,
      having wrapped past midnight `days` times. */
  predicate ShowsElapsed(t: Time, days: nat, elapsed: nat) {
    ValidTime(t) && TotalSeconds(t) + 86400 * days == elapsed
  }

  /** One Increment tick is one more second elapsed; the wrap from 23:59:59
      completes one more day. */
  lemma IncrementTickCountsDays(t: Time, days: nat, elapsed: nat) returns (days': nat)
    requires ShowsElapsed(t, days, elapsed)
    ensures ShowsElapsed(IncrementTick(t), days', elapsed + 1)
  {
    IncrementTickAdvances(t);
    days' := if TotalSeconds(t) == 86399 then days + 1 else days;
  }

  /** What an Increment-mode watch reads after `elapsed` seconds: the
      elapsed time modulo one day. */
  lemma ElapsedModuloDay(t: Time, days: nat, elapsed: nat)
    requires ShowsElapsed(t, days, elapsed)
    ensures TotalSeconds(t) == elapsed % 86400
    ensures t == FromTotal(elapsed % 86400)
  {
    var x := TotalSeconds(t);
    assert elapsed == days * 86400 + x;
    assert elapsed % 86400 == x;
    TotalSecondsDecomposes(t);
  }

  /** A Countdown-mode watch reading `t` has `left` seconds to go. */
  predicate ShowsRemaining(t: Time, left: nat) {
    ValidTime(t) && TotalSeconds(t) == left
  }

  /** Before 00:00:00 a Countdown tick takes off exactly one second; with
      no seconds left the reading is 00:00:00. */
  lemma CountdownTickCounts(t: Time, left: nat)
    requires ShowsRemaining(t, left)
    ensures left == 0 <==> IsMidnight(t)
    ensures left > 0 ==> ShowsRemaining(CountdownTick(t), left - 1)
  {
    ZeroIsMidnight(t);
  }

  /** The reading `n` Increment ticks after 00:00:00. */
  function Elapsed(n: nat): Time {
    if n == 0 then Time(0, 0, 0) else IncrementTick(Elapsed(n - 1))
  }

  /** At 00:00:00 no time has elapsed. */
  lemma StartOfDay(t: Time)
    requires IsMidnight(t)
    ensures ShowsElapsed(t, 0, 0)
  {
  }

  lemma ElapsedAtStart() returns (days: nat)
    ensures ShowsElapsed(Elapsed(0), days, 0)
  {
    StartOfDay(Elapsed(0));
    days := 0;
  }

  lemma ElapsedStep(n: nat, days: nat) returns (days': nat)
    requires n > 0 && ShowsElapsed(Elapsed(n - 1), days, n - 1)
    ensures ShowsElapsed(Elapsed(n), days', n)
  {
    days' := IncrementTickCountsDays(Elapsed(n - 1), days, n - 1);
  }

  lemma {:induction false} ElapsedCountsDays(n: nat) returns (days: nat)
    ensures ShowsElapsed(Elapsed(n), days, n)
  {
    if n == 0 {
      days := ElapsedAtStart();
    } else {
      var d := ElapsedCountsDays(n - 1);
      days := ElapsedStep(n, d);
    }
  }

  /** After `n` Increment ticks from 00:00:00 the watch reads `n` seconds
      modulo one day. */
  lemma ElapsedIsModuloDay(n: nat)
    ensures ValidTime(Elapsed(n))
    ensures TotalSeconds(Elapsed(n)) == n % 86400
    ensures Elapsed(n) == FromTotal(n % 86400)
  {
    var days := ElapsedCountsDays(n);
    ElapsedModuloDay(Elapsed(n), days, n);
  }

  /** The reading `n` Countdown ticks after `start`. */
  function CountedDown(start: Time, n: nat): Time {
    if n == 0 then start else CountdownTick(CountedDown(start, n - 1))
  }

  lemma CountedDownStep(start: Time, n: nat, left: nat)
    requires n > 0 && left > 0 && ShowsRemaining(CountedDown(start, n - 1), left)
    ensures ShowsRemaining(CountedDown(start, n), left - 1)
  {
    CountdownTickCounts(CountedDown(start, n - 1), left);
  }

  /** Each of the first `TotalSeconds(start)` Countdown ticks takes off one
      second. */
  lemma {:induction false} CountedDownRemaining(start: Time, n: nat)
    requires ValidTime(start) && n <= TotalSeconds(start)
    ensures ShowsRemaining(CountedDown(start, n), TotalSeconds(start) - n)
  {
    if n > 0 {
      CountedDownRemaining(start, n - 1);
      CountedDownStep(start, n, TotalSeconds(start) - (n - 1));
    }
  }

  /** A countdown from a valid `start` first reads 00:00:00 after exactly
      `TotalSeconds(start)` ticks. */
  lemma CountdownReachesMidnight(start: Time, n: nat)
    requires ValidTime(start) && n <= TotalSeconds(start)
    ensures IsMidnight(CountedDown(start, n)) <==> n == TotalSeconds(start)
  {
    CountedDownRemaining(start, n);
    CountdownTickCounts(CountedDown(start, n), TotalSeconds(start) - n);
  }

  /** The field an adjustment button acts on. */
  datatype Field = Hours | Minutes | Seconds

  /** One of the six adjustment buttons: a field and a direction. */
  datatype Adjustment = Adjustment(field: Field, up: bool)

  function Get(t: Time, f: Field): uint8 {
    match f
    case Hours => t.hours
    case Minutes => t.minutes
    case Seconds => t.seconds
  }

  function Set(t: Time, f: Field, v: uint8): (r: Time)
    ensures Get(r, f) == v
    ensures forall g :: g != f ==> Get(r, g) == Get(t, g)
  {
    match f
    case Hours => t.(hours := v)
    case Minutes => t.(minutes := v)
    case Seconds => t.(seconds := v)
  }

  /** The largest value an increment button may produce: hours stop at 23,
      minutes and seconds at 59. */
  function Ceiling(f: Field): uint8 {
    if f == Hours then 23 else 59
  }

  /** At a bound an adjustment does nothing. */
  predicate AtBound(t: Time, a: Adjustment) {
    if a.up then Get(t, a.field) >= Ceiling(a.field) else Get(t, a.field) == 0
  }

  /** One guarded adjustment of `adjust_time()`. */
  function Adjusted(t: Time, a: Adjustment): (r: Time)
    ensures forall g :: g != a.field ==> Get(r, g) == Get(t, g)
    ensures AtBound(t, a) ==> r == t
    ensures !AtBound(t, a) ==>
      Get(r, a.field) as int == Get(t, a.field) as int + (if a.up then 1 else -1)
    ensures ValidTime(t) ==> ValidTime(r)
  {
    var v := Get(t, a.field);
    if a.up then
      if v < Ceiling(a.field) then Set(t, a.field, v + 1) else t
    else
      if v > 0 then Set(t, a.field, v - 1) else t
  }

  /** Away from its bound an increment button and the matching decrement
      button undo each other. */
  lemma AdjustmentsUndo(t: Time, f: Field)
    requires ValidTime(t)
    ensures !AtBound(t, Adjustment(f, true)) ==>
      Adjusted(Adjusted(t, Adjustment(f, true)), Adjustment(f, false)) == t
    ensures !AtBound(t, Adjustment(f, false)) ==>
      Adjusted(Adjusted(t, Adjustment(f, false)), Adjustment(f, true)) == t
  {
  }

  /** Reading `t` after `n` presses of the increment button of field `f`:
      the field climbs by one per press up to its ceiling and stays there. */
  function Raised(t: Time, f: Field, n: nat): Time
    requires ValidTime(t)
  {
    var v := Get(t, f) as int + n;
    Set(t, f, if v <= Ceiling(f) as int then v as uint8 else Ceiling(f))
  }

  /** One more press of the increment button is one more step of `Raised`. */
  lemma RaisedStep(t: Time, f: Field, n: nat)
    requires ValidTime(t)
    ensures ValidTime(Raised(t, f, n))
    ensures Adjusted(Raised(t, f, n), Adjustment(f, true)) == Raised(t, f, n + 1)
  {
  }
}
