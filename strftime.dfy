/** The `strftime`/`ctime`/`isoformat` renderings the modelled code uses,
    in the C locale. */
module Strftime {
  import opened Civil

  function Digit(d: int): (c: char)
    requires 0 <= d <= 9
    ensures '0' <= c <= '9'
  {
    (48 + d) as char
  }

  /** `%02d`. */
  function Pad2(n: int): (r: string)
    requires 0 <= n <= 99
    ensures |r| == 2
  {
    [Digit(n / 10), Digit(n % 10)]
  }

  /** `%2d`: a single digit is preceded by a space. */
  function SpacePad2(n: int): (r: string)
    requires 0 <= n <= 99
    ensures |r| == 2
  {
    if n < 10 then [' ', Digit(n)] else Pad2(n)
  }

  /** `%04d` for a year of Python's range 1..9999. */
  function Pad4(n: int): (r: string)
    requires 0 <= n <= 9999
    ensures |r| == 4
  {
    [Digit(n / 1000), Digit(n / 100 % 10), Digit(n / 10 % 10), Digit(n % 10)]
  }

  /** Decimal digits of a natural number. */
  function Decimal(n: nat): (r: string)
    ensures |r| >= 1
  {
    if n < 10 then [Digit(n)] else Decimal(n / 10) + [Digit(n % 10)]
  }

  /** A year as `%04d` writes it; years outside 0..9999 do not occur in
      Python and are written sign and digits. */
  function YearText(y: int): string {
    if 0 <= y <= 9999 then Pad4(y) else if y < 0 then "-" + Decimal(-y) else Decimal(y)
  }

  /** The twelve-hour clock hour of `%I`. */
  function Hour12(h: int): (r: int)
    requires 0 <= h < 24
    ensures 1 <= r <= 12
  {
    if h % 12 == 0 then 12 else h % 12
  }

  /** `dt.strftime("%I:%M %p")` of the local instant `local`. */
  function ClockLabel(local: int): (r: string)
    ensures |r| == 8
  {
    var h := HourOf(local);
    var p := Pad2(Hour12(h));
    var m := Pad2(MinuteOf(local));
    [p[0], p[1], ':', m[0], m[1], ' ', if h < 12 then 'A' else 'P', 'M']
  }

  /** `date.ctime()` of a day number, e.g. "Sat Jun  5 00:00:00 2021". */
  function CTime(day: int): string {
    var d := CivilFromDays(day);
    DayName(Weekday(day)) + " " + MonthName(d.month) + " " + SpacePad2(d.day)
      + " 00:00:00 " + YearText(d.year)
  }

  /** `dt.strftime("%a, %b %d")` of the local instant `local`, e.g. "Thu, May 27". */
  function BookingDate(local: int): string {
    var day := DayOf(local);
    var d := CivilFromDays(day);
    DayName(Weekday(day)) + ", " + MonthName(d.month) + " " + Pad2(d.day)
  }

  /** Offsets `isoformat` writes as `+HH:MM`: whole minutes within a day. */
  predicate MinuteOffset(offset: int) {
    -SecondsPerDay < offset < SecondsPerDay && offset % 60 == 0
  }

  /** `isoformat` of local calendar date `d`, local instant `local` (whose
      time of day is written) and UTC offset `offset`, in the form
      "2021-05-27T12:31:00+03:00". */
  function IsoText(d: Date, local: int, offset: int): (r: string)
    requires 0 <= d.year <= 9999 && 1 <= d.month <= 12 && 1 <= d.day <= 31
    requires MinuteOffset(offset)
    ensures |r| == 25
  {
    var y := Pad4(d.year);
    var mo := Pad2(d.month);
    var dd := Pad2(d.day);
    var hh := Pad2(HourOf(local));
    var mi := Pad2(MinuteOf(local));
    var ss := Pad2(TimeOfDay(local) % 60);
    var a := if offset < 0 then -offset else offset;
    var oh := Pad2(a / 3600);
    var om := Pad2(a % 3600 / 60);
    [y[0], y[1], y[2], y[3], '-', mo[0], mo[1], '-', dd[0], dd[1], 'T',
     hh[0], hh[1], ':', mi[0], mi[1], ':', ss[0], ss[1],
     if offset < 0 then '-' else '+', oh[0], oh[1], ':', om[0], om[1]]
  }

  /** `dt.isoformat()` of an aware `datetime` whose wall clock reads the
      local instant `local` at UTC offset `offset` (the instant itself is
      `local - offset`), as the calendar service returns event times. */
  function IsoFormat(local: int, offset: int): (r: string)
    requires MinuteOffset(offset)
    requires 1 <= CivilFromDays(DayOf(local)).year <= 9999
    ensures |r| == 25
  {
    IsoText(CivilFromDays(DayOf(local)), local, offset)
  }
}
