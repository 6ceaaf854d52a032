/** The integer part of the clock-face time picker: snapping a minute-of-day
    to the quarter hour, rendering it as HH:MM, and the hour/minute split
    committed when a drag ends. The angle-to-minute geometry is floating
    point and is not part of this model. */
module TimePicker {
  import opened Platform

  const Quarter: int := 15

  /** `Int.coerceIn(lo, hi)`. */
  function CoerceIn(x: int, lo: int, hi: int): (r: int)
    requires lo <= hi
    ensures lo <= r <= hi
    ensures lo <= x <= hi ==> r == x
  {
    if x < lo then lo else if x > hi then hi else x
  }

  /** `Int.roundToQuarterHour()`: add half a quarter (Int addition, which
      wraps), divide and multiply back (division toward zero), send 1440 to
      midnight and clamp anything else into the day. */
  function RoundToQuarterHour(x: Int32): (r: int)
    ensures 0 <= r < MinutesPerDay
  {
    var up := Quot(WrapInt32(x + Quarter / 2), Quarter) * Quarter;
    if up == MinutesPerDay then 0 else CoerceIn(up, 0, MinutesPerDay - 1)
  }

  /** Inside the day, rounding is half-up to the nearest quarter hour: the
      result is a multiple of 15 at most 7 minutes from the input. */
  lemma RoundsToNearestQuarter(x: Int32)
    requires 0 <= x <= 1432
    ensures RoundToQuarterHour(x) % Quarter == 0
    ensures x - 7 <= RoundToQuarterHour(x) <= x + 7
    ensures RoundToQuarterHour(x) == (x + 7) / Quarter * Quarter
  {
  }

  /** The last minutes of the day, and the 1440 a full turn of the dial
      produces, wrap to midnight instead of being clamped to 23:59. */
  lemma LateMinutesWrapToMidnight(x: Int32)
    requires 1433 <= x <= 1447
    ensures RoundToQuarterHour(x) == 0
  {
  }

  /** Every value the picker can hold for an input within one day is a
      multiple of 15. */
  lemma RoundedIsQuarter(x: Int32)
    requires 0 <= x < MinutesPerDay
    ensures RoundToQuarterHour(x) % Quarter == 0
  {
    if x <= 1432 {
      RoundsToNearestQuarter(x);
    } else {
      LateMinutesWrapToMidnight(x);
    }
  }

  /** Rounding a rounded value changes nothing. */
  lemma RoundIdempotent(x: Int32)
    requires 0 <= x < MinutesPerDay
    ensures RoundToQuarterHour(RoundToQuarterHour(x) as Int32) == RoundToQuarterHour(x)
  {
    var r := RoundToQuarterHour(x);
    RoundedIsQuarter(x);
    assert r <= 1425;
    RoundsToNearestQuarter(r as Int32);
  }

  /** Past 1447 the result is clamped to 23:59, the one value not on a
      quarter; at the very top of the Int range the addition overflows and
      the result is midnight. */
  lemma RoundOutsideTheDay(x: Int32)
    ensures 1448 <= x <= 0x7FFF_FFF8 ==> RoundToQuarterHour(x) == MinutesPerDay - 1
    ensures 0x7FFF_FFF8 < x ==> RoundToQuarterHour(x) == 0
    ensures x < 0 ==> RoundToQuarterHour(x) == 0
  {
  }

  /** The value the dialog starts from, the initial time's hour and minute
      rounded, is a quarter hour within the day, and within 7 minutes of the
      initial time unless that is after 23:52. */
  lemma InitialOnQuarter(initial: LocalTime)
    ensures var raw := initial.hour * 60 + initial.minute;
      var r := RoundToQuarterHour(raw);
      0 <= r < MinutesPerDay && r % Quarter == 0 &&
      (raw <= 1432 ==> -7 <= r - raw <= 7)
  {
    var raw := initial.hour * 60 + initial.minute;
    RoundedIsQuarter(raw);
    if raw <= 1432 { RoundsToNearestQuarter(raw); }
  }

  function DigitChar(d: int): (c: char)
    requires 0 <= d < 10
    ensures '0' <= c <= '9'
  {
    (48 + d) as char
  }

  /** Decimal digits of a natural number, most significant first. */
  function Digits(n: nat): (s: string)
    ensures |s| >= 1
    decreases n
  {
    if n < 10 then [DigitChar(n)] else Digits(n / 10) + [DigitChar(n % 10)]
  }

  /** `"%02d"`: at least two characters, zero-padded after any sign. */
  function Pad2(n: int): string
  {
    if n < 0 then "-" + Digits(-n)
    else if n < 10 then "0" + Digits(n)
    else Digits(n)
  }

  /** `Int.toHhMm()`: hours and minutes by Kotlin's division, each
      formatted with `%02d`, joined by a colon. */
  function ToHhMm(m: Int32): string
  {
    Pad2(Quot(m, 60)) + ":" + Pad2(Rem(m, 60))
  }

  lemma Pad2TwoDigits(n: int)
    requires 0 <= n < 100
    ensures Pad2(n) == [DigitChar(n / 10), DigitChar(n % 10)]
  {
    if n >= 10 {
      assert Digits(n / 10) == [DigitChar(n / 10)];
    }
  }

  /** For a minute of the day the label is exactly five characters: two
      digits of the hour, a colon, two digits of the minute. */
  lemma HhMmLayout(m: Int32)
    requires 0 <= m < MinutesPerDay
    ensures var h, mm := m / 60, m % 60;
      ToHhMm(m) == [DigitChar(h / 10), DigitChar(h % 10), ':', DigitChar(mm / 10), DigitChar(mm % 10)]
  {
    Pad2TwoDigits(m / 60);
    Pad2TwoDigits(m % 60);
  }

  /** Distinct minutes of the day get distinct labels. */
  lemma HhMmInjective(a: Int32, b: Int32)
    requires 0 <= a < MinutesPerDay && 0 <= b < MinutesPerDay
    requires ToHhMm(a) == ToHhMm(b)
    ensures a == b
  {
    HhMmLayout(a);
    HhMmLayout(b);
    var sa, sb := ToHhMm(a), ToHhMm(b);
    assert sa[0] == sb[0] && sa[1] == sb[1] && sa[3] == sb[3] && sa[4] == sb[4];
    assert a / 60 == (a / 60 / 10) * 10 + a / 60 % 10;
    assert b / 60 == (b / 60 / 10) * 10 + b / 60 % 10;
    assert a % 60 == (a % 60 / 10) * 10 + a % 60 % 10;
    assert b % 60 == (b % 60 / 10) * 10 + b % 60 % 10;
  }

  /** The time committed when a drag ends: `LocalTime.of(minutes / 60,
      minutes % 60)`, `None` where `LocalTime.of` would throw. */
  function CommitDrag(minutes: Int32): (r: Option<LocalTime>)
    ensures r.Some? <==> 0 <= minutes < MinutesPerDay
    ensures r.Some? ==> r.value.hour * 60 + r.value.minute == minutes && r.value.second == 0
  {
    LocalTimeOf(Quot(minutes, 60), Rem(minutes, 60))
  }

  /** Whatever raw minute the dial produces (0 to 1440 inclusive), the
      value the picker holds splits into a valid time on a quarter hour. */
  lemma DragEndOnQuarter(raw: Int32)
    requires 0 <= raw <= MinutesPerDay
    ensures var m := RoundToQuarterHour(raw);
      CommitDrag(m as Int32).Some? &&
      CommitDrag(m as Int32).value.hour * 60 + CommitDrag(m as Int32).value.minute == m &&
      CommitDrag(m as Int32).value.minute % Quarter == 0
  {
    var m := RoundToQuarterHour(raw);
    if raw <= 1432 {
      RoundsToNearestQuarter(raw);
    } else {
      assert m == 0;
    }
  }
}
