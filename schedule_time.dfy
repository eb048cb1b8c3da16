/** `ScheduleTime`: a time of day as hour and minute, its second count and its 4-byte form. */
module ScheduleTimes {

  import opened Wrappers
  import opened TypedArrays
  import opened ByteUtils

  /** Neither field is range-checked: `fromInt` can produce negative hours and minutes. */
  datatype ScheduleTime = ScheduleTime(hour: int, minute: int)

  /** `toInt`: seconds since midnight; sub-minute precision does not exist. */
  function ToInt(t: ScheduleTime): int
  {
    t.hour * 3600 + t.minute * 60
  }

  function Abs(a: int): nat
  {
    if a < 0 then -a else a
  }

  /** The quotient of division truncated toward zero. */
  function TruncDiv(a: int, n: int): int
    requires n > 0
  {
    if a < 0 then -(Abs(a) / n) else a / n
  }

  /**
   * JavaScript's `a % n` for a positive divisor: the remainder of truncating
   * division, which takes the sign of the dividend (Dafny's `%` never is negative).
   */
  function JsRem(a: int, n: int): (r: int)
    requires n > 0
    ensures -n < r < n
    ensures a >= 0 ==> r >= 0
    ensures a <= 0 ==> r <= 0
    ensures a == n * TruncDiv(a, n) + r
  {
    var m := Abs(a) % n;
    assert Abs(a) == n * (Abs(a) / n) + m;
    if a < 0 then -m else m
  }

  /**
   * `fromInt`. `Math.floor(v / 3600)` for an integer `v` is Dafny's `v / 3600`
   * (division by a positive number rounds down); the minute floors the truncated
   * remainder divided by 60.
   */
  function FromInt(v: int): (t: ScheduleTime)
    ensures t.hour * 3600 <= v < t.hour * 3600 + 3600
    ensures t.minute * 60 <= JsRem(v, 3600) < t.minute * 60 + 60
  {
    ScheduleTime(v / 3600, JsRem(v, 3600) / 60)
  }

  /** `getDuration`: the time spanned from `a` to `b`, decomposed by `fromInt`. */
  function GetDuration(a: ScheduleTime, b: ScheduleTime): ScheduleTime
  {
    FromInt(ToInt(b) - ToInt(a))
  }

  /** `toByteArray`: a fresh 4-byte buffer filled by `setInt32(0, toInt(), true)`. */
  method ToByteArray(t: ScheduleTime) returns (bytes: array<byte>)
    ensures fresh(bytes)
    ensures bytes[..] == Int32LE(ToInt(t))
  {
    var intVal := ToInt(t);
    var buffer := new byte[4](_ => 0);
    SetInt32(buffer, 0, intVal);
    bytes := buffer;
  }

  /** A normal time of day (non-negative hour, minute below 60) survives `fromInt(toInt())`. */
  lemma {:induction false} FromIntOfToInt(t: ScheduleTime)
    requires t.hour >= 0 && 0 <= t.minute < 60
    ensures FromInt(ToInt(t)) == t
  {
    var v := ToInt(t);
    assert 0 <= t.minute * 60 < 3600;
    assert v / 3600 == t.hour;
    assert v % 3600 == t.minute * 60;
  }

  /** For a non-negative second count, the minute lies in [0, 59] and the hour is non-negative. */
  lemma {:induction false} FromIntNonNegative(v: int)
    requires v >= 0
    ensures FromInt(v).hour >= 0 && 0 <= FromInt(v).minute < 60
  {
  }

  /** For a non-negative count, `fromInt` then `toInt` only drops the sub-minute seconds. */
  lemma {:induction false} ToIntOfFromInt(v: int)
    requires v >= 0
    ensures ToInt(FromInt(v)) == v - v % 60
  {
    var q := v / 3600;
    var r := v % 3600;
    assert v == 3600 * q + r;
    assert JsRem(v, 3600) == r;
    assert r == 60 * (r / 60) + r % 60;
    assert v % 60 == r % 60 by {
      assert v == 60 * (60 * q + r / 60) + r % 60;
    }
  }

  /** For a negative count the truncating remainder makes the minute non-positive, in [-60, 0]. */
  lemma {:induction false} FromIntNegative(v: int)
    requires v < 0
    ensures FromInt(v).hour < 0 && -60 <= FromInt(v).minute <= 0
  {
  }

  /**
   * For a negative count that is not a whole number of hours, hour and minute are both
   * rounded down, so `toInt` lands one extra hour below `v` (minus the dropped seconds).
   */
  lemma {:induction false} ToIntOfFromIntNegative(v: int)
    requires v < 0 && v % 3600 != 0
    ensures ToInt(FromInt(v)) == v - v % 60 - 3600
  {
    MinuteOfNegative(v);
    SecondsWithinHour(v);
    var r := v % 3600;
    assert v == 3600 * (v / 3600) + r;
    assert r == 60 * (r / 60) + r % 60;
  }

  /** A whole number of hours, negative ones included, has minute 0 and survives `toInt(fromInt(v))`. */
  lemma {:induction false} ToIntOfFromIntWholeHours(v: int)
    requires v % 3600 == 0
    ensures FromInt(v) == ScheduleTime(v / 3600, 0)
    ensures ToInt(FromInt(v)) == v
  {
    assert v == 3600 * (v / 3600);
    assert Abs(v) == 3600 * Abs(v / 3600);
    assert JsRem(v, 3600) == 0;
  }

  /** Below zero, the truncating remainder is the floored one shifted down by a whole hour. */
  lemma {:induction false} MinuteOfNegative(v: int)
    requires v < 0 && v % 3600 != 0
    ensures FromInt(v) == ScheduleTime(v / 3600, (v % 3600) / 60 - 60)
  {
    var q := v / 3600;
    var r := v % 3600;
    assert JsRem(v, 3600) == r - 3600 by {
      assert Abs(v) == 3600 * (-q - 1) + (3600 - r);
    }
    assert (r - 3600) / 60 == r / 60 - 60;
  }

  /** The seconds past the minute are the same counted from midnight or from the hour. */
  lemma {:induction false} SecondsWithinHour(v: int)
    ensures v % 60 == (v % 3600) % 60
  {
    var r := v % 3600;
    assert v == 60 * (60 * (v / 3600) + r / 60) + r % 60;
  }

  /** -1800 seconds: the hour floors to -1 while the minute keeps the dividend's sign. */
  lemma FromIntExample()
    ensures FromInt(-1800) == ScheduleTime(-1, -30)
    ensures ToInt(FromInt(-1800)) == -5400
    ensures ToInt(FromInt(-1801)) == -5460
  {
  }

  /** A non-negative duration is exact and comes out as a normal time. */
  lemma {:induction false} GetDurationForward(a: ScheduleTime, b: ScheduleTime)
    requires ToInt(a) <= ToInt(b)
    ensures ToInt(GetDuration(a, b)) == ToInt(b) - ToInt(a)
    ensures GetDuration(a, b).hour >= 0 && 0 <= GetDuration(a, b).minute < 60
  {
    var diff := ScheduleTime(b.hour - a.hour, b.minute - a.minute);
    assert ToInt(diff) == ToInt(b) - ToInt(a);
    ToIntWholeMinutes(diff);
    ToIntOfFromInt(ToInt(diff));
    FromIntNonNegative(ToInt(diff));
  }

  /** `toInt` counts whole minutes only. */
  lemma {:induction false} ToIntWholeMinutes(t: ScheduleTime)
    ensures ToInt(t) % 60 == 0
  {
    assert ToInt(t) == 60 * (60 * t.hour + t.minute);
  }

  lemma GetDurationExample()
    ensures GetDuration(ScheduleTime(9, 0), ScheduleTime(10, 30)) == ScheduleTime(1, 30)
  {
  }

  /**
   * The 4 bytes of `toByteArray` are the little-endian two's complement of `toInt()`:
   * read back by `intFromByteArray` they give `toInt()` itself whenever it fits in an int32.
   */
  lemma {:induction false} ToByteArrayRoundTrip(t: ScheduleTime)
    ensures Uint32LE(Int32LE(ToInt(t))) == ToInt(t) % TWO32
    ensures IntFromByteArray(Int32LE(ToInt(t))) == Success(ToInt32(ToInt(t)))
    ensures -TWO31 <= ToInt(t) < TWO31 ==> IntFromByteArray(Int32LE(ToInt(t))) == Success(ToInt(t))
  {
    var v := ToInt(t);
    Uint32LEOfInt32LE(v);
    IntFromInt32LE(v);
    if -TWO31 <= v < TWO31 {
      IntFromInt32LEInRange(v);
    }
  }
}
