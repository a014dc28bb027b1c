/** The digit arithmetic of `Display()`: one pass over the six multiplexed
    7-segment digits. Each step selects one digit with a PORTA enable
    pattern and writes a BCD value into the low nibble of PORTC, keeping
    PORTC's high nibble. The 2 ms dwell between steps is not modelled. */
module Display {
  import opened Clock

  /** One step of the pass: the PORTA value and the PORTC value written. */
  datatype Frame = Frame(enable: uint8, portC: uint8)

  /** PORTA patterns, from the seconds' units (PA5) to the hours' tens (PA0). */
  const Enables: seq<uint8> := [0x20, 0x10, 0x08, 0x04, 0x02, 0x01]

  /** The value each digit is computed from, in the order of `Enables`:
      `x % 10` and `x / 10` of seconds, minutes and hours. */
  function Digits(t: Time): (d: seq<uint8>)
    ensures |d| == 6
    ensures ValidTime(t) ==> forall i :: 0 <= i < 6 ==> d[i] < 10
  {
    [t.seconds % 10, t.seconds / 10, t.minutes % 10, t.minutes / 10,
     t.hours % 10, t.hours / 10]
  }

  /** `x & 0x0F`: the low nibble. */
  function LowNibble(x: uint8): (r: uint8)
    ensures r < 16
    ensures HighNibble(x) as int + r as int == x as int
  {
    x % 16
  }

  /** `x & 0xF0`: the high nibble, in place. */
  function HighNibble(x: uint8): (r: uint8)
    ensures r % 16 == 0
    ensures r <= x && x - r < 16
  {
    x / 16 * 16
  }

  /** `PORTC = (PORTC & 0xF0) | (digit & 0x0F)`; the two nibbles do not
      overlap, so the `|` is a sum. */
  function Latch(portC: uint8, digit: uint8): (r: uint8)
    ensures HighNibble(r) == HighNibble(portC)
    ensures LowNibble(r) == LowNibble(digit)
  {
    HighNibble(portC) + LowNibble(digit)
  }

  /** The six frames of one call, PORTC starting at `portC`; every write
      reads back the previous one. */
  function Pass(digits: seq<uint8>, enables: seq<uint8>, portC: uint8): (frames: seq<Frame>)
    requires |digits| == |enables|
    ensures |frames| == |digits|
    ensures forall i :: 0 <= i < |frames| ==> frames[i].enable == enables[i]
    ensures forall i :: 0 <= i < |frames| ==> LowNibble(frames[i].portC) == LowNibble(digits[i])
    ensures forall i :: 0 <= i < |frames| ==> HighNibble(frames[i].portC) == HighNibble(portC)
    decreases |digits|
  {
    if |digits| == 0 then []
    else
      var first := Latch(portC, digits[0]);
      [Frame(enables[0], first)] + Pass(digits[1..], enables[1..], first)
  }

  /** One call of `Display()` on reading `t`. */
  function Show(t: Time, portC: uint8): (frames: seq<Frame>)
    ensures |frames| == 6
    ensures forall i :: 0 <= i < 6 ==> frames[i].enable == Enables[i]
    ensures forall i :: 0 <= i < 6 ==> LowNibble(frames[i].portC) == LowNibble(Digits(t)[i])
    ensures forall i :: 0 <= i < 6 ==> HighNibble(frames[i].portC) == HighNibble(portC)
  {
    Pass(Digits(t), Enables, portC)
  }

  /** The number a pair of adjacent frames shows: tens at `i + 1`, units at `i`. */
  function Shown(frames: seq<Frame>, i: nat): (v: int)
    requires i + 1 < |frames|
    ensures 0 <= v < 256
  {
    10 * LowNibble(frames[i + 1].portC) as int + LowNibble(frames[i].portC) as int
  }

  /** What a reader of the six digits sees. */
  function Reading(frames: seq<Frame>): (t: Time)
    requires |frames| == 6
  {
    Time(Shown(frames, 4) as uint8, Shown(frames, 2) as uint8, Shown(frames, 0) as uint8)
  }

  /** A two-digit number splits into a units digit and a tens digit that
      give it back. */
  lemma TwoDigits(v: uint8)
    requires v < 100
    ensures v % 10 < 10 && v / 10 < 10
    ensures 10 * (v / 10) as int + (v % 10) as int == v as int
  {
  }

  /** For a valid reading the display shows exactly that reading, whatever
      the high nibble of PORTC was; it never touches that nibble. */
  lemma ShowRoundTrip(t: Time, portC: uint8)
    requires ValidTime(t)
    ensures Reading(Show(t, portC)) == t
    ensures forall i :: 0 <= i < 6 ==> Show(t, portC)[i].enable == Enables[i]
    ensures forall i :: 0 <= i < 6 ==> HighNibble(Show(t, portC)[i].portC) == HighNibble(portC)
  {
    var frames, d := Show(t, portC), Digits(t);
    assert forall i :: 0 <= i < 6 ==> LowNibble(frames[i].portC) == d[i];
    TwoDigits(t.seconds);
    TwoDigits(t.minutes);
    TwoDigits(t.hours);
  }
}
