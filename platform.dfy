/** Values and arithmetic of the Kotlin/JVM platform that the app relies on:
    an Option wrapper, 32- and 64-bit integer ranges, Kotlin's truncating
    integer division, and java.time.LocalTime reduced to whole seconds. */
module Platform {

  datatype Option<+T> = None | Some(value: T)

  const TwoTo32: int := 0x1_0000_0000

  /** Minutes in a day; a minute of the day lies in [0, 1439]. */
  const MinutesPerDay: int := 1440

  /** Kotlin `Int`. */
  type Int32 = x: int | -0x8000_0000 <= x < 0x8000_0000

  /** Kotlin `Long` (also SQLite's INTEGER key range). */
  const LongMax: int := 0x7FFF_FFFF_FFFF_FFFF
  type Long = x: int | -0x8000_0000_0000_0000 <= x <= 0x7FFF_FFFF_FFFF_FFFF

  /** Two's-complement truncation to 32 bits: Kotlin's wrapping `Int`
      addition, and `Long.toInt()`. */
  function WrapInt32(x: int): (r: Int32)
    ensures (r - x) % TwoTo32 == 0
    ensures -0x8000_0000 <= x < 0x8000_0000 ==> r == x
  {
    var low := x % TwoTo32;
    if low >= 0x8000_0000 then low - TwoTo32 else low
  }

  /** Kotlin/JVM `/` on integers: rounds toward zero. */
  function Quot(a: int, b: int): (q: int)
    requires b > 0
    ensures 0 <= a ==> q == a / b
    ensures a < 0 ==> q <= 0 && -a - b < -q * b <= -a
  {
    if a >= 0 then a / b else -((-a) / b)
  }

  /** Kotlin/JVM `%` on integers: the remainder takes the sign of `a`. */
  function Rem(a: int, b: int): (r: int)
    requires b > 0
    ensures a == Quot(a, b) * b + r
    ensures 0 <= a ==> 0 <= r < b
    ensures a < 0 ==> -b < r <= 0
  {
    a - Quot(a, b) * b
  }

  datatype TimeOfDay = TimeOfDay(hour: int, minute: int, second: int)

  /** java.time.LocalTime; the nanosecond field is not modelled. */
  type LocalTime = t: TimeOfDay | 0 <= t.hour < 24 && 0 <= t.minute < 60 && 0 <= t.second < 60
    witness TimeOfDay(0, 0, 0)

  /** `LocalTime.of(hour, minute)`: `None` where the JVM throws a
      DateTimeException for a field out of range. */
  function LocalTimeOf(hour: int, minute: int): (r: Option<LocalTime>)
    ensures r.Some? <==> 0 <= hour < 24 && 0 <= minute < 60
    ensures r.Some? ==> r.value.hour == hour && r.value.minute == minute && r.value.second == 0
  {
    if 0 <= hour < 24 && 0 <= minute < 60 then Some(TimeOfDay(hour, minute, 0)) else None
  }
}
