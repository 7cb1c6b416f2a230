/** Firebird dates (modified Julian days) and times (100 microsecond ticks). */
module DateTime {
  import opened Common
  import opened Powers

  datatype Date = Date(year: int, month: int, day: int) {
    predicate Valid() {
      1 <= month <= 12 && 1 <= day <= DaysInMonth(year, month)
    }
  }

  datatype Clock = Clock(hour: int, minute: int, second: int, nanos: int) {
    predicate Valid() {
      0 <= hour < 24 && 0 <= minute < 60 && 0 <= second < 60 && 0 <= nanos < 1_000_000_000
    }
  }

  // ---------------------------------------------------------------------------
  // The proleptic Gregorian calendar, one day at a time
  // ---------------------------------------------------------------------------

  predicate IsLeap(y: int) {
    y % 4 == 0 && (y % 100 != 0 || y % 400 == 0)
  }

  function DaysInMonth(y: int, m: int): (n: int)
    requires 1 <= m <= 12
    ensures 28 <= n <= 31
  {
    if m == 2 then (if IsLeap(y) then 29 else 28)
    else if m == 4 || m == 6 || m == 9 || m == 11 then 30
    else 31
  }

  function NextDay(c: Date): (r: Date)
    requires c.Valid()
    ensures r.Valid()
  {
    if c.day < DaysInMonth(c.year, c.month) then c.(day := c.day + 1)
    else if c.month < 12 then Date(c.year, c.month + 1, 1)
    else Date(c.year + 1, 1, 1)
  }

  function PrevDay(c: Date): (r: Date)
    requires c.Valid()
    ensures r.Valid() && NextDay(r) == c
  {
    if 1 < c.day then c.(day := c.day - 1)
    else if 1 < c.month then Date(c.year, c.month - 1, DaysInMonth(c.year, c.month - 1))
    else Date(c.year - 1, 12, 31)
  }

  /** `c` moved by `n` days in either direction. */
  function AddDays(c: Date, n: int): (r: Date)
    requires c.Valid()
    ensures r.Valid()
    decreases Abs(n)
  {
    if n == 0 then c
    else if 0 < n then NextDay(AddDays(c, n - 1))
    else PrevDay(AddDays(c, n + 1))
  }

  predicate Before(a: Date, b: Date) {
    a.year < b.year
    || (a.year == b.year && (a.month < b.month || (a.month == b.month && a.day < b.day)))
  }

  // ---------------------------------------------------------------------------
  // Day numbers
  // ---------------------------------------------------------------------------

  const UNIX_TO_MJD_OFFSET := 40587
  const MJD_EPOCH := Date(1858, 11, 17)

  function CivilToUnixDays(y: int, m: int, d: int): int {
    var y := if m <= 2 then y - 1 else y;
    var era := if y < 0 && GoMod(y, 400) != 0 then GoDiv(y, 400) - 1 else GoDiv(y, 400);
    var yoe := y - era * 400;
    var mp := if m > 2 then m - 3 else m + 9;
    var doy := GoDiv(153 * mp + 2, 5) + d - 1;
    var doe := yoe * 365 + GoDiv(yoe, 4) - GoDiv(yoe, 100) + doy;
    era * 146097 + doe - 719468
  }

  function DateToMJD(c: Date): int {
    Wrap32(CivilToUnixDays(c.year, c.month, c.day) + UNIX_TO_MJD_OFFSET)
  }

  function MJDToDate(mjd: int): (c: Date)
    ensures c.Valid()
  {
    AddDays(MJD_EPOCH, mjd)
  }

  /** Days before 1 March of year `y`, counted from 1 March of year 0. */
  function DaysBeforeMarch(y: int): int {
    365 * y + y / 4 - y / 100 + y / 400
  }

  lemma EraForm(y: int)
    ensures var era := if y < 0 && GoMod(y, 400) != 0 then GoDiv(y, 400) - 1 else GoDiv(y, 400);
            var yoe := y - era * 400;
            0 <= yoe < 400
            && era * 146097 + yoe * 365 + GoDiv(yoe, 4) - GoDiv(yoe, 100) == DaysBeforeMarch(y)
  {
    var era := if y < 0 && GoMod(y, 400) != 0 then GoDiv(y, 400) - 1 else GoDiv(y, 400);
    assert era == y / 400;
    var yoe := y - era * 400;
    assert y / 4 == era * 100 + yoe / 4;
    assert y / 100 == era * 4 + yoe / 100;
  }

  /** Days from 1 March to the first of the month `mp` months later. */
  function MonthStart(mp: int): int {
    (153 * mp + 2) / 5
  }

  /** The year that starts in March and holds the date, and the month within it. */
  function MarchYear(c: Date): int {
    if c.month > 2 then c.year else c.year - 1
  }

  function MarchMonth(c: Date): int {
    if c.month > 2 then c.month - 3 else c.month + 9
  }

  lemma CivilForm(c: Date)
    requires c.Valid()
    ensures CivilToUnixDays(c.year, c.month, c.day)
         == DaysBeforeMarch(MarchYear(c)) + MonthStart(MarchMonth(c)) + c.day - 719469
  {
    EraForm(MarchYear(c));
  }

  lemma MonthLengths(y: int, m: int)
    requires 1 <= m <= 12 && m != 2
    ensures var c := Date(y, m, 1);
            MonthStart(MarchMonth(c)) + DaysInMonth(y, m) == MonthStart(MarchMonth(c) + 1)
  {
    if m == 1 {} else if m == 3 {} else if m == 4 {} else if m == 5 {} else if m == 6 {}
    else if m == 7 {} else if m == 8 {} else if m == 9 {} else if m == 10 {} else if m == 11 {} else {}
  }

  lemma YearLength(y: int)
    ensures DaysBeforeMarch(y) - DaysBeforeMarch(y - 1) == if IsLeap(y) then 366 else 365
  {
    var q, r := y / 400, y % 400;
    assert y / 100 == 4 * q + r / 100 && y % 100 == r % 100;
    assert y / 4 == 100 * q + r / 4 && y % 4 == r % 4;
    assert (y - 1) / 4 == (y / 4 - (if y % 4 == 0 then 1 else 0));
    assert (y - 1) / 100 == (y / 100 - (if y % 100 == 0 then 1 else 0));
    assert (y - 1) / 400 == (y / 400 - (if y % 400 == 0 then 1 else 0));
  }

  /** A day number from its three parts; `march` stands for the days before March. */
  lemma NextDayParts(c: Date, march: int, next: int)
    requires c.Valid()
    requires next == if MarchYear(NextDay(c)) == MarchYear(c) then march
                     else march + 365 + (if IsLeap(c.year) then 1 else 0)
    ensures var n := NextDay(c);
            next + MonthStart(MarchMonth(n)) + n.day == march + MonthStart(MarchMonth(c)) + c.day + 1
  {
    if c.day == DaysInMonth(c.year, c.month) && c.month != 2 {
      MonthLengths(c.year, c.month);
    }
  }

  /** The next calendar day has the next day number, in every year of either sign. */
  lemma NextDayNumber(c: Date)
    requires c.Valid()
    ensures var n := NextDay(c);
            CivilToUnixDays(n.year, n.month, n.day) == CivilToUnixDays(c.year, c.month, c.day) + 1
  {
    var n := NextDay(c);
    CivilForm(c);
    CivilForm(n);
    NextDayParts(c, DaysBeforeMarch(MarchYear(c)), DaysBeforeMarch(MarchYear(n))) by {
      YearLength(c.year);
    }
  }

  lemma {:induction false} AddDaysNumber(c: Date, n: int)
    requires c.Valid()
    ensures var r := AddDays(c, n);
            CivilToUnixDays(r.year, r.month, r.day) == CivilToUnixDays(c.year, c.month, c.day) + n
    decreases Abs(n)
  {
    if 0 < n {
      AddDaysNumber(c, n - 1);
      NextDayNumber(AddDays(c, n - 1));
    } else if n < 0 {
      AddDaysNumber(c, n + 1);
      NextDayNumber(AddDays(c, n));
    }
  }

  lemma {:induction false} MarchMonotone(y: int, y': int)
    requires y <= y'
    ensures DaysBeforeMarch(y) + 365 * (y' - y) <= DaysBeforeMarch(y')
    decreases y' - y
  {
    if y < y' {
      MarchMonotone(y, y' - 1);
      YearLength(y');
    }
  }

  /** Day numbers order valid dates as the calendar does, so they are injective. */
  lemma DayNumbersIncrease(a: Date, b: Date)
    requires a.Valid() && b.Valid()
    ensures CivilToUnixDays(a.year, a.month, a.day) < CivilToUnixDays(b.year, b.month, b.day) <==> Before(a, b)
    ensures CivilToUnixDays(a.year, a.month, a.day) == CivilToUnixDays(b.year, b.month, b.day) <==> a == b
  {
    if Before(a, b) {
      LaterIsLarger(a, b);
    } else if Before(b, a) {
      LaterIsLarger(b, a);
    }
  }

  /** The offset of a date within its March year stays below the year's length. */
  lemma WithinMarchYear(c: Date)
    requires c.Valid()
    ensures 1 <= MonthStart(MarchMonth(c)) + c.day <= if IsLeap(MarchYear(c) + 1) then 366 else 365
  {
    if c.month != 2 {
      MonthLengths(c.year, c.month);
    }
    MonthsIncrease(MarchMonth(c), if c.month == 2 then 11 else 10);
  }

  lemma MonthsIncrease(a: int, b: int)
    requires 0 <= a <= 11 && 0 <= b <= 11
    ensures a < b ==> MonthStart(a) + 30 <= MonthStart(a + 1) <= MonthStart(b)
  {
  }

  lemma LaterIsLarger(a: Date, b: Date)
    requires a.Valid() && b.Valid() && Before(a, b)
    ensures CivilToUnixDays(a.year, a.month, a.day) < CivilToUnixDays(b.year, b.month, b.day)
  {
    hide CivilToUnixDays, DaysBeforeMarch, MonthStart;
    CivilForm(a);
    CivilForm(b);
    var s, s' := MarchYear(a), MarchYear(b);
    LaterParts(a, b, DaysBeforeMarch(s), DaysBeforeMarch(s')) by {
      if s < s' {
        YearLength(s + 1);
        MarchMonotone(s + 1, s');
      }
    }
  }

  lemma LaterParts(a: Date, b: Date, march: int, march': int)
    requires a.Valid() && b.Valid() && Before(a, b)
    requires MarchYear(a) == MarchYear(b) ==> march == march'
    requires MarchYear(a) < MarchYear(b) ==> march + (if IsLeap(MarchYear(a) + 1) then 366 else 365) <= march'
    ensures march + MonthStart(MarchMonth(a)) + a.day < march' + MonthStart(MarchMonth(b)) + b.day
  {
    WithinMarchYear(a);
    WithinMarchYear(b);
    if MarchYear(a) == MarchYear(b) && MarchMonth(a) < MarchMonth(b) {
      MonthsIncrease(MarchMonth(a) + 1, MarchMonth(b));
      if a.month != 2 {
        MonthLengths(a.year, a.month);
      }
    }
  }

  /**
   * The 32-bit day number of a valid date leads back to the date exactly when
   * the day number fits; every 32-bit day number is that of the date it names.
   */
  lemma MJDRoundTrip(c: Date, mjd: int)
    requires c.Valid()
    ensures MJDToDate(DateToMJD(c)) == c <==> IsInt32(CivilToUnixDays(c.year, c.month, c.day) + UNIX_TO_MJD_OFFSET)
    ensures IsInt32(mjd) ==> DateToMJD(MJDToDate(mjd)) == mjd
  {
    hide CivilToUnixDays, AddDays, Before;
    EpochNumber();
    AddDaysNumber(MJD_EPOCH, mjd);
    var n := DateToMJD(c);
    AddDaysNumber(MJD_EPOCH, n);
    DayNumbersIncrease(MJDToDate(n), c);
  }

  lemma EpochNumber()
    ensures CivilToUnixDays(1858, 11, 17) == -UNIX_TO_MJD_OFFSET
  {
  }

  // ---------------------------------------------------------------------------
  // Times
  // ---------------------------------------------------------------------------

  const TICKS_PER_SECOND := 10000
  const TICKS_PER_DAY := 864_000_000

  function TimeToTicks(t: Clock): int
    requires t.Valid()
  {
    (t.hour * 3600 + t.minute * 60 + t.second) * TICKS_PER_SECOND + t.nanos / 100_000
  }

  /** A tick count beyond one day is carried into the date, which callers discard. */
  function TicksToTime(ticks: nat): (t: Clock)
    ensures t.Valid()
  {
    var totalMicro := ticks * 100;
    var sec := totalMicro / 1_000_000;
    var ns := (totalMicro % 1_000_000) * 1000;
    Clock(sec / 3600 % 24, (sec % 3600) / 60, sec % 60, ns)
  }

  function TruncateToTick(t: Clock): Clock {
    t.(nanos := t.nanos / 100_000 * 100_000)
  }

  /** Times survive up to one tick; tick counts survive exactly when they lie within one day. */
  lemma TicksRoundTrip(t: Clock, ticks: nat)
    requires t.Valid()
    ensures 0 <= TimeToTicks(t) < TICKS_PER_DAY
    ensures TicksToTime(TimeToTicks(t)) == TruncateToTick(t)
    ensures TimeToTicks(TicksToTime(ticks)) == ticks % TICKS_PER_DAY
  {
    var f := t.nanos / 100_000;
    ClockParts(t.hour, t.minute, t.second);
    TickParts(t.hour * 3600 + t.minute * 60 + t.second, f);
    var sec, r := ticks / TICKS_PER_SECOND, ticks % TICKS_PER_SECOND;
    TickParts(sec, r);
    DayParts(sec, r, ticks);
    assert r * 100 * 1000 / 100_000 == r;
  }

  lemma ClockParts(h: int, m: int, s: int)
    requires 0 <= h < 24 && 0 <= m < 60 && 0 <= s < 60
    ensures var n := h * 3600 + m * 60 + s;
            n / 3600 % 24 == h && n % 3600 / 60 == m && n % 60 == s && 0 <= n < 86400
  {
  }

  lemma TickParts(sec: int, f: int)
    requires 0 <= sec && 0 <= f < TICKS_PER_SECOND
    ensures var n := (sec * TICKS_PER_SECOND + f) * 100;
            n / 1_000_000 == sec && n % 1_000_000 == f * 100
  {
  }

  lemma DayParts(sec: int, r: int, ticks: nat)
    requires 0 <= sec && 0 <= r < TICKS_PER_SECOND && ticks == sec * TICKS_PER_SECOND + r
    ensures (sec / 3600 % 24 * 3600 + sec % 3600 / 60 * 60 + sec % 60) * TICKS_PER_SECOND + r == ticks % TICKS_PER_DAY
  {
    var h, x := sec / 3600, sec % 3600;
    MinuteParts(h, x);
    var v := (h % 24 * 3600 + x) * TICKS_PER_SECOND + r;
    DivModUnique(ticks, TICKS_PER_DAY, h / 24, v);
  }

  lemma MinuteParts(h: int, x: int)
    requires 0 <= x < 3600
    ensures x / 60 * 60 + (h * 3600 + x) % 60 == x
  {
    assert (h * 3600 + x) % 60 == x % 60;
  }

  /** A timestamp is a date and a time. */
  function TimestampToTime(mjd: int, ticks: nat): (Date, Clock) {
    (MJDToDate(mjd), TicksToTime(ticks))
  }

  lemma TimestampRoundTrip(c: Date, t: Clock)
    requires c.Valid() && t.Valid()
    requires IsInt32(CivilToUnixDays(c.year, c.month, c.day) + UNIX_TO_MJD_OFFSET)
    ensures 0 <= TimeToTicks(t)
    ensures TimestampToTime(DateToMJD(c), TimeToTicks(t)) == (c, TruncateToTick(t))
  {
    MJDRoundTrip(c, 0);
    TicksRoundTrip(t, 0);
  }
}
