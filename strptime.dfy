/** `datetime.strptime` for the two formats the modelled code parses,
    following CPython's `_strptime`: the format becomes a regular expression
    matched case-insensitively from the start of the text (every blank in the
    format becomes `\s+`), the whole text must be consumed, and the fields
    must make a valid `datetime`; any failure raises `ValueError`.

    A directive's alternatives (for instance `1[0-2]|0[1-9]|[1-9]` for `%I`)
    are always followed here by a non-digit, so the regular expression accepts
    exactly a run of one or two digits whose value lies in the directive's
    range; `Number` states that directly. */
module Strptime {
  import opened Wrappers
  import opened Civil
  import opened Strftime

  /** The characters `\s` matches in a `str` pattern: those for which
      `str.isspace()` holds (the ASCII controls 9..13 and 28..31, the blank,
      and the Unicode separators). */
  predicate IsSpace(c: char) {
    var n := c as int;
    || 9 <= n <= 13 || 28 <= n <= 32 || n == 0x85 || n == 0xA0 || n == 0x1680
    || 0x2000 <= n <= 0x200A || n == 0x2028 || n == 0x2029 || n == 0x202F
    || n == 0x205F || n == 0x3000
  }

  predicate IsDigit(c: char) {
    '0' <= c <= '9'
  }

  function DigitValue(c: char): (v: int)
    requires IsDigit(c)
    ensures 0 <= v <= 9
  {
    c as int - '0' as int
  }

  function Lower(c: char): char {
    if 'A' <= c <= 'Z' then (c as int + 32) as char else c
  }

  /** Two characters are equal under `re.IGNORECASE` (ASCII letters). */
  predicate SameIgnoringCase(a: char, b: char) {
    Lower(a) == Lower(b)
  }

  /** The index after the run of whitespace starting at `i`. */
  function SkipSpaces(s: string, i: nat): (j: nat)
    requires i <= |s|
    ensures i <= j <= |s|
    ensures forall k :: i <= k < j ==> IsSpace(s[k])
    ensures j == |s| || !IsSpace(s[j])
    decreases |s| - i
  {
    if i < |s| && IsSpace(s[i]) then SkipSpaces(s, i + 1) else i
  }

  /** `\s+` at `i`: the index after at least one whitespace character. */
  function Spaces(s: string, i: nat): (r: Option<nat>)
    requires i <= |s|
    ensures r.Some? ==> i < r.value <= |s|
  {
    var j := SkipSpaces(s, i);
    if j > i then Some(j) else None
  }

  /** `name` occurs at `i`, ignoring case. */
  predicate NameAt(s: string, i: nat, name: string) {
    i + |name| <= |s| && forall k :: 0 <= k < |name| ==> SameIgnoringCase(s[i + k], name[k])
  }

  /** The position, from `j` on, of the first of `names` that occurs at `i`. */
  function MatchName(s: string, i: nat, names: seq<string>, j: nat): (r: Option<nat>)
    ensures r.Some? ==> j <= r.value < |names| && NameAt(s, i, names[r.value])
    ensures r.Some? ==> forall k :: j <= k < r.value ==> !NameAt(s, i, names[k])
    ensures r.None? ==> forall k :: j <= k < |names| ==> !NameAt(s, i, names[k])
    decreases |names| - j
  {
    if j >= |names| then None
    else if NameAt(s, i, names[j]) then Some(j)
    else MatchName(s, i, names, j + 1)
  }

  /** A numeric directive at `i`: one or two digits, not followed by a third,
      with value in `lo..hi`; gives the value and the index after it. */
  function Number(s: string, i: nat, lo: int, hi: int): (r: Option<(int, nat)>)
    ensures r.Some? ==> lo <= r.value.0 <= hi && i < r.value.1 <= i + 2 && r.value.1 <= |s|
  {
    if i < |s| && IsDigit(s[i]) then
      if i + 1 < |s| && IsDigit(s[i + 1]) then
        if i + 2 < |s| && IsDigit(s[i + 2]) then None
        else
          var v := 10 * DigitValue(s[i]) + DigitValue(s[i + 1]);
          if lo <= v <= hi then Some((v, i + 2)) else None
      else
        var v := DigitValue(s[i]);
        if lo <= v <= hi then Some((v, i + 1)) else None
    else None
  }

  /** `%d`: a day 1..31, also written as a space and one non-zero digit. */
  function DayNumber(s: string, i: nat): (r: Option<(int, nat)>)
    ensures r.Some? ==> 1 <= r.value.0 <= 31 && i < r.value.1 <= |s|
  {
    if i + 1 < |s| && s[i] == ' ' && '1' <= s[i + 1] <= '9' then
      Some((DigitValue(s[i + 1]), i + 2))
    else Number(s, i, 1, 31)
  }

  predicate CharAt(s: string, i: nat, c: char) {
    i < |s| && s[i] == c
  }

  /** A literal letter of the format, matched ignoring case. */
  predicate LetterAt(s: string, i: nat, c: char) {
    i < |s| && SameIgnoringCase(s[i], c)
  }

  /** What `%a %b %dT%I:%M %p` captures. */
  datatype LabelFields = LabelFields(weekday: int, month: int, day: int, hour12: int, minute: int, pm: bool)

  const AmPm: seq<string> := ["am", "pm"]

  function WeekdayNames(): seq<string> {
    [DayName(0), DayName(1), DayName(2), DayName(3), DayName(4), DayName(5), DayName(6)]
  }

  function MonthNames(): seq<string> {
    [MonthName(1), MonthName(2), MonthName(3), MonthName(4), MonthName(5), MonthName(6),
     MonthName(7), MonthName(8), MonthName(9), MonthName(10), MonthName(11), MonthName(12)]
  }

  /** The regular expression of `"%a %b %dT%I:%M %p"` matched against the
      whole of `s`. */
  function MatchSlotLabel(s: string): (r: Option<LabelFields>)
    ensures r.Some? ==> 1 <= r.value.month <= 12 && 1 <= r.value.day <= 31
    ensures r.Some? ==> 1 <= r.value.hour12 <= 12 && 0 <= r.value.minute <= 59
  {
    var wd :- MatchName(s, 0, WeekdayNames(), 0);
    var i :- Spaces(s, 3);
    var mon :- MatchName(s, i, MonthNames(), 0);
    var j :- Spaces(s, i + 3);
    var day :- DayNumber(s, j);
    var hour :- if LetterAt(s, day.1, 'T') then Number(s, day.1 + 1, 1, 12) else None;
    var minute :- if CharAt(s, hour.1, ':') then Number(s, hour.1 + 1, 0, 59) else None;
    var k :- Spaces(s, minute.1);
    var ampm :- MatchName(s, k, AmPm, 0);
    if k + 2 == |s| then Some(LabelFields(wd, mon + 1, day.0, hour.0, minute.0, ampm == 1)) else None
  }

  /** `%I` with `%p`: 12 AM is hour 0, 12 PM is hour 12. */
  function Hour24(hour12: int, pm: bool): (h: int)
    requires 1 <= hour12 <= 12
    ensures 0 <= h < 24
    ensures h % 12 == hour12 % 12 && (h >= 12 <==> pm)
  {
    if pm then (if hour12 == 12 then 12 else hour12 + 12)
    else (if hour12 == 12 then 0 else hour12)
  }

  /** The year `strptime` uses when the format has none. */
  const DefaultYear := 1900

  /** `datetime.strptime(s, "%a %b %dT%I:%M %p")`: the weekday name is
      checked but ignored, the year is 1900, and a day that 1900's month does
      not have (February 29 among them) raises. */
  function StrptimeSlotLabel(s: string): (r: Result<DateTime>)
    ensures r.Ok? ==> r.value.year == DefaultYear && r.value.second == 0
    ensures r.Ok? ==> ValidDate(Date(DefaultYear, r.value.month, r.value.day))
  {
    var f := MatchSlotLabel(s);
    if f.None? then Err(ValueError)
    else if f.value.day > DaysInMonth(DefaultYear, f.value.month) then Err(ValueError)
    else Ok(DateTime(DefaultYear, f.value.month, f.value.day,
                     Hour24(f.value.hour12, f.value.pm), f.value.minute, 0))
  }

  /** What `%z` captures: `Z`, or a sign, hours, minutes and optional seconds
      with the colons actually written. */
  datatype ZoneField =
    | Zulu
    | Offset(negative: bool, hours: int, minutes: int, seconds: Option<int>,
             colonAfterHours: bool, colonBeforeSeconds: bool)

  predicate TwoDigitsAt(s: string, i: nat) {
    i + 1 < |s| && IsDigit(s[i]) && IsDigit(s[i + 1])
  }

  /** `[0-5]\d` at `i`. */
  predicate SexagesimalAt(s: string, i: nat) {
    TwoDigitsAt(s, i) && s[i] <= '5'
  }

  function TwoDigitValue(s: string, i: nat): (v: int)
    requires TwoDigitsAt(s, i)
    ensures 0 <= v <= 99
  {
    10 * DigitValue(s[i]) + DigitValue(s[i + 1])
  }

  /** `%z`, the pattern `[+-]\d\d:?[0-5]\d(:?[0-5]\d)?|Z` at `i` (the
      optional fraction of a second after the seconds is not accepted). */
  function MatchZone(s: string, i: nat): (r: Option<(ZoneField, nat)>)
    ensures r.Some? ==> i < r.value.1 <= |s| && ZoneDigits(r.value.0)
  {
    if CharAt(s, i, 'Z') then Some((Zulu, i + 1))
    else if i < |s| && (s[i] == '+' || s[i] == '-') && TwoDigitsAt(s, i + 1) then
      var c1 := CharAt(s, i + 3, ':');
      var q := if c1 then i + 4 else i + 3;
      if !SexagesimalAt(s, q) then None
      else
        var c2 := CharAt(s, q + 2, ':');
        var u := if c2 then q + 3 else q + 2;
        if SexagesimalAt(s, u) then
          Some((Offset(s[i] == '-', TwoDigitValue(s, i + 1), TwoDigitValue(s, q),
                       Some(TwoDigitValue(s, u)), c1, c2), u + 2))
        else
          Some((Offset(s[i] == '-', TwoDigitValue(s, i + 1), TwoDigitValue(s, q), None, c1, false), q + 2))
    else None
  }

  /** The offset's fields are what two-digit groups can hold. */
  predicate ZoneDigits(z: ZoneField) {
    z.Offset? ==> 0 <= z.hours <= 99 && 0 <= z.minutes <= 59
                  && (z.seconds.Some? ==> 0 <= z.seconds.value <= 59)
  }

  /** What `%Y-%m-%dT%H:%M:%S%z` captures. */
  datatype TimestampFields = TimestampFields(year: int, month: int, day: int,
                                             hour: int, minute: int, second: int, zone: ZoneField)

  /** The regular expression of `"%Y-%m-%dT%H:%M:%S%z"` matched against the
      whole of `s`. */
  function MatchTimestamp(s: string): (r: Option<TimestampFields>)
    ensures r.Some? ==> 0 <= r.value.year <= 9999 && 1 <= r.value.month <= 12 && 1 <= r.value.day <= 31
    ensures r.Some? ==> 0 <= r.value.hour <= 23 && 0 <= r.value.minute <= 59 && 0 <= r.value.second <= 61
    ensures r.Some? ==> ZoneDigits(r.value.zone)
  {
    if !(TwoDigitsAt(s, 0) && TwoDigitsAt(s, 2) && CharAt(s, 4, '-')) then None
    else
      var year := 100 * TwoDigitValue(s, 0) + TwoDigitValue(s, 2);
      var month := Number(s, 5, 1, 12);
      var day := if month.Some? && CharAt(s, month.value.1, '-') then DayNumber(s, month.value.1 + 1) else None;
      var hour := if day.Some? && LetterAt(s, day.value.1, 'T') then Number(s, day.value.1 + 1, 0, 23) else None;
      var minute := if hour.Some? && CharAt(s, hour.value.1, ':') then Number(s, hour.value.1 + 1, 0, 59) else None;
      var second := if minute.Some? && CharAt(s, minute.value.1, ':') then Number(s, minute.value.1 + 1, 0, 61) else None;
      var zone := if second.Some? then MatchZone(s, second.value.1) else None;
      if zone.Some? && zone.value.1 == |s| then
        Some(TimestampFields(year, month.value.0, day.value.0, hour.value.0, minute.value.0,
                             second.value.0, zone.value.0))
      else None
  }

  /** The UTC offset in seconds `_strptime` computes from `%z`: the colons
      must be used consistently, and `timezone` accepts only offsets strictly
      within a day. */
  function GmtOffset(z: ZoneField): (r: Result<int>)
    requires ZoneDigits(z)
    ensures r.Ok? ==> -SecondsPerDay < r.value < SecondsPerDay
  {
    match z
    case Zulu => Ok(0)
    case Offset(negative, hours, minutes, seconds, c1, c2) =>
      if seconds.Some? && c1 != c2 then Err(ValueError)
      else
        var g := hours * 3600 + minutes * 60 + (if seconds.Some? then seconds.value else 0);
        if g >= SecondsPerDay then Err(ValueError)
        else Ok(if negative then -g else g)
  }

  /** An aware `datetime`: local calendar fields and their UTC offset. */
  datatype AwareDateTime = Aware(local: DateTime, offset: int)

  /** `datetime.strptime(s, "%Y-%m-%dT%H:%M:%S%z")`. */
  function StrptimeTimestamp(s: string): (r: Result<AwareDateTime>)
    ensures r.Ok? ==> ValidDate(Date(r.value.local.year, r.value.local.month, r.value.local.day))
    ensures r.Ok? ==> 1 <= r.value.local.year <= 9999 && 0 <= r.value.local.second <= 59
    ensures r.Ok? ==> -SecondsPerDay < r.value.offset < SecondsPerDay
  {
    var f := MatchTimestamp(s);
    if f.None? then Err(ValueError)
    else
      var t := f.value;
      var g := GmtOffset(t.zone);
      if g.Err? then Err(ValueError)
      else if t.year < 1 || t.day > DaysInMonth(t.year, t.month) || t.second > 59 then Err(ValueError)
      else Ok(Aware(DateTime(t.year, t.month, t.day, t.hour, t.minute, t.second), g.value))
  }

  /** The instant an aware `datetime` denotes. */
  function InstantOf(a: AwareDateTime): int
    requires ValidDate(Date(a.local.year, a.local.month, a.local.day))
  {
    DaysFromCivil(Date(a.local.year, a.local.month, a.local.day)) * SecondsPerDay
      + a.local.hour * 3600 + a.local.minute * 60 + a.local.second - a.offset
  }

  // ---- The parser inverts the formatter ----

  lemma DigitValueOf(n: int)
    requires 0 <= n <= 9
    ensures IsDigit(Digit(n)) && DigitValue(Digit(n)) == n
  {
  }

  /** Two digits written by `%02d`, followed by a non-digit or the end. */
  lemma NumberOfPad2(s: string, i: nat, lo: int, hi: int, n: int)
    requires 0 <= n <= 99 && lo <= n <= hi
    requires i + 2 <= |s| && s[i] == Digit(n / 10) && s[i + 1] == Digit(n % 10)
    requires i + 2 == |s| || !IsDigit(s[i + 2])
    ensures Number(s, i, lo, hi) == Some((n, i + 2))
  {
    DigitValueOf(n / 10);
    DigitValueOf(n % 10);
  }

  /** The first of `names` matching at `i` is the one written there, when
      every earlier name differs from it in some letter. */
  lemma MatchNameWritten(s: string, i: nat, names: seq<string>, w: nat)
    requires w < |names| && NameAt(s, i, names[w])
    requires forall k :: 0 <= k < w ==> !NameAt(s, i, names[k])
    ensures MatchName(s, i, names, 0) == Some(w)
  {
  }

  /** A three-letter name with its letters lowered. */
  function Folded(name: string): string
    requires |name| == 3
  {
    [Lower(name[0]), Lower(name[1]), Lower(name[2])]
  }

  /** Two three-letter names that both match at the same place fold alike. */
  lemma NameAtFolded(s: string, i: nat, a: string, b: string)
    requires |a| == 3 && |b| == 3 && NameAt(s, i, a) && NameAt(s, i, b)
    ensures Folded(a) == Folded(b)
  {
    assert SameIgnoringCase(s[i], a[0]) && SameIgnoringCase(s[i], b[0]);
    assert SameIgnoringCase(s[i + 1], a[1]) && SameIgnoringCase(s[i + 1], b[1]);
    assert SameIgnoringCase(s[i + 2], a[2]) && SameIgnoringCase(s[i + 2], b[2]);
  }

  lemma DayNamesFoldApart(a: int, b: int)
    requires 0 <= a < 7 && 0 <= b < 7 && a != b
    ensures |DayName(a)| == 3 && |DayName(b)| == 3 && Folded(DayName(a)) != Folded(DayName(b))
  {
  }

  lemma MonthNamesFoldApart(a: int, b: int)
    requires 1 <= a <= 12 && 1 <= b <= 12 && a != b
    ensures |MonthName(a)| == 3 && |MonthName(b)| == 3 && Folded(MonthName(a)) != Folded(MonthName(b))
  {
  }

  /** A day name written at `i` is read back as that weekday. */
  lemma DayNameWritten(s: string, i: nat, w: int)
    requires 0 <= w < 7 && i + 3 <= |s| && s[i..i + 3] == DayName(w)
    ensures MatchName(s, i, WeekdayNames(), 0) == Some(w)
  {
    assert forall j :: 0 <= j < 3 ==> s[i + j] == DayName(w)[j];
    assert NameAt(s, i, WeekdayNames()[w]);
    forall k | 0 <= k < w ensures !NameAt(s, i, WeekdayNames()[k]) {
      DayNamesFoldApart(k, w);
      if NameAt(s, i, WeekdayNames()[k]) {
        NameAtFolded(s, i, DayName(k), DayName(w));
      }
    }
    MatchNameWritten(s, i, WeekdayNames(), w);
  }

  /** A month name written at `i` is read back as that month. */
  lemma MonthNameWritten(s: string, i: nat, m: int)
    requires 1 <= m <= 12 && i + 3 <= |s| && s[i..i + 3] == MonthName(m)
    ensures MatchName(s, i, MonthNames(), 0) == Some(m - 1)
  {
    assert forall j :: 0 <= j < 3 ==> s[i + j] == MonthName(m)[j];
    assert NameAt(s, i, MonthNames()[m - 1]);
    forall k | 0 <= k < m - 1 ensures !NameAt(s, i, MonthNames()[k]) {
      MonthNamesFoldApart(k + 1, m);
      if NameAt(s, i, MonthNames()[k]) {
        NameAtFolded(s, i, MonthName(k + 1), MonthName(m));
      }
    }
    MatchNameWritten(s, i, MonthNames(), m - 1);
  }

  /** The text of a slot label as the booking page sends it back:
      `"Dow Mon DD"`, a `T`, and the `"%I:%M %p"` clock reading. */
  function LabelText(w: int, month: int, day: int, local: int): (r: string)
    requires 0 <= w < 7 && 1 <= month <= 12 && 1 <= day <= 31
    ensures |r| == 19
  {
    DayName(w) + " " + MonthName(month) + " " + SpacePad2(day) + "T" + ClockLabel(local)
  }

  /** The characters of a label, position by position. */
  lemma LabelTextChars(w: int, month: int, day: int, local: int)
    requires 0 <= w < 7 && 1 <= month <= 12 && 1 <= day <= 31
    ensures var s := LabelText(w, month, day, local);
      var h := Hour12(HourOf(local));
      var mi := MinuteOf(local);
      && s[..3] == DayName(w) && s[3] == ' ' && s[4..7] == MonthName(month) && s[7] == ' '
      && s[8..10] == SpacePad2(day) && s[10] == 'T'
      && s[11] == Digit(h / 10) && s[12] == Digit(h % 10) && s[13] == ':'
      && s[14] == Digit(mi / 10) && s[15] == Digit(mi % 10) && s[16] == ' '
      && s[17] == (if HourOf(local) < 12 then 'A' else 'P') && s[18] == 'M'
  {
    var s := LabelText(w, month, day, local);
    var clock := ClockLabel(local);
    assert s == DayName(w) + " " + MonthName(month) + " " + SpacePad2(day) + "T" + clock;
    assert s[11..19] == clock;
  }

  /** Each step of the matcher of `"%a %b %dT%I:%M %p"` succeeds on `s`,
      the day being read from `dayAt`. */
  predicate LabelSteps(s: string, w: int, month: int, dayAt: nat, day: int, h: int, mi: int, pm: bool) {
    && |s| == 19 && 8 <= dayAt <= 9
    && MatchName(s, 0, WeekdayNames(), 0) == Some(w)
    && Spaces(s, 3) == Some(4)
    && MatchName(s, 4, MonthNames(), 0) == Some(month - 1)
    && Spaces(s, 7) == Some(dayAt)
    && DayNumber(s, dayAt) == Some((day, 10))
    && LetterAt(s, 10, 'T')
    && Number(s, 11, 1, 12) == Some((h, 13))
    && CharAt(s, 13, ':')
    && Number(s, 14, 0, 59) == Some((mi, 16))
    && Spaces(s, 16) == Some(17)
    && MatchName(s, 17, AmPm, 0) == Some(if pm then 1 else 0)
  }

  /** The matcher runs through a label step by step. */
  lemma MatchLabelSteps(s: string, w: int, month: int, dayAt: nat, day: int, h: int, mi: int, pm: bool)
    requires LabelSteps(s, w, month, dayAt, day, h, mi, pm)
    ensures MatchSlotLabel(s) == Some(LabelFields(w, month, day, h, mi, pm))
  {
  }

  /** One whitespace character before a non-blank. */
  lemma OneSpace(s: string, i: nat)
    requires i + 1 < |s| && IsSpace(s[i]) && !IsSpace(s[i + 1])
    ensures Spaces(s, i) == Some(i + 1)
  {
    assert SkipSpaces(s, i + 1) == i + 1;
  }

  /** `%d` as `%2d` writes it, after the blank before it. */
  lemma PaddedDay(s: string, day: int)
    requires 1 <= day <= 31 && |s| > 10 && s[7] == ' ' && s[8..10] == SpacePad2(day) && s[10] == 'T'
    ensures Spaces(s, 7) == Some(if day < 10 then 9 else 8)
    ensures DayNumber(s, if day < 10 then 9 else 8) == Some((day, 10))
  {
    assert s[8] == SpacePad2(day)[0] && s[9] == SpacePad2(day)[1];
    if day < 10 {
      assert SkipSpaces(s, 9) == 9;
      assert SkipSpaces(s, 8) == 9;
      DigitValueOf(day);
    } else {
      assert SkipSpaces(s, 8) == 8;
      NumberOfPad2(s, 8, 1, 31, day);
    }
  }

  /** `%p` as written: `AM` or `PM`. */
  lemma AmPmWritten(s: string, pm: bool)
    requires |s| == 19 && s[17] == (if pm then 'P' else 'A') && s[18] == 'M'
    ensures MatchName(s, 17, AmPm, 0) == Some(if pm then 1 else 0)
  {
    assert SameIgnoringCase(s[18], 'm');
    if pm {
      assert !SameIgnoringCase(s[17], AmPm[0][0]);
      assert NameAt(s, 17, AmPm[1]);
    } else {
      assert NameAt(s, 17, AmPm[0]);
    }
  }

  /** The blank between the weekday and the month name. */
  lemma SpaceBeforeMonth(s: string, month: int)
    requires 1 <= month <= 12 && |s| == 19 && IsSpace(s[3]) && s[4..7] == MonthName(month)
    ensures Spaces(s, 3) == Some(4)
  {
    MonthInitial(month);
    assert s[4] == MonthName(month)[0];
    OneSpace(s, 3);
  }

  /** Month names start with a letter. */
  lemma MonthInitial(m: int)
    requires 1 <= m <= 12
    ensures |MonthName(m)| == 3 && 'A' <= MonthName(m)[0] <= 'Z'
  {
  }

  /** The clock half of a label is read back. */
  lemma LabelClockPart(s: string, h: int, mi: int, pm: bool)
    requires 1 <= h <= 12 && 0 <= mi <= 59 && |s| == 19
    requires s[11] == Digit(h / 10) && s[12] == Digit(h % 10) && s[13] == ':'
    requires s[14] == Digit(mi / 10) && s[15] == Digit(mi % 10) && s[16] == ' '
    requires s[17] == (if pm then 'P' else 'A') && s[18] == 'M'
    ensures Number(s, 11, 1, 12) == Some((h, 13))
    ensures Number(s, 14, 0, 59) == Some((mi, 16))
    ensures Spaces(s, 16) == Some(17)
    ensures MatchName(s, 17, AmPm, 0) == Some(if pm then 1 else 0)
  {
    NumberOfPad2(s, 11, 1, 12, h);
    NumberOfPad2(s, 14, 0, 59, mi);
    OneSpace(s, 16);
    AmPmWritten(s, pm);
  }

  /** Every step of the matcher succeeds on a label, reading back the fields
      it was written from. */
  lemma LabelCharsSteps(s: string, w: int, month: int, day: int, h: int, mi: int, pm: bool)
    requires 0 <= w < 7 && 1 <= month <= 12 && 1 <= day <= 31 && 1 <= h <= 12 && 0 <= mi <= 59
    requires |s| == 19
    requires s[..3] == DayName(w) && IsSpace(s[3]) && s[4..7] == MonthName(month) && s[7] == ' '
    requires s[8..10] == SpacePad2(day) && s[10] == 'T'
    requires s[11] == Digit(h / 10) && s[12] == Digit(h % 10) && s[13] == ':'
    requires s[14] == Digit(mi / 10) && s[15] == Digit(mi % 10) && s[16] == ' '
    requires s[17] == (if pm then 'P' else 'A') && s[18] == 'M'
    ensures LabelSteps(s, w, month, if day < 10 then 9 else 8, day, h, mi, pm)
  {
    DayNameWritten(s, 0, w);
    MonthNameWritten(s, 4, month);
    SpaceBeforeMonth(s, month);
    PaddedDay(s, day);
    LabelClockPart(s, h, mi, pm);
  }

  /** Parsing a label recovers the month, the day and the clock reading;
      the weekday name is checked but plays no part in the result. */
  lemma MatchLabelText(w: int, month: int, day: int, local: int)
    requires 0 <= w < 7 && 1 <= month <= 12 && 1 <= day <= 31
    ensures MatchSlotLabel(LabelText(w, month, day, local))
         == Some(LabelFields(w, month, day, Hour12(HourOf(local)), MinuteOf(local), HourOf(local) >= 12))
  {
    var s := LabelText(w, month, day, local);
    var h := Hour12(HourOf(local));
    LabelTextChars(w, month, day, local);
    LabelCharsSteps(s, w, month, day, h, MinuteOf(local), HourOf(local) >= 12);
    MatchLabelSteps(s, w, month, if day < 10 then 9 else 8, day, h, MinuteOf(local), HourOf(local) >= 12);
  }

  /** `%I` with `%p` gives back the hour the label was written from. */
  lemma Hour24OfHour12(h: int)
    requires 0 <= h < 24
    ensures Hour24(Hour12(h), h >= 12) == h
  {
  }

  /** A label of a date 1900 also had (every date but February 29) parses to
      that date in 1900 at the label's wall-clock time, whatever the weekday
      name says. */
  lemma StrptimeLabelText(w: int, month: int, day: int, local: int)
    requires 0 <= w < 7 && ValidDate(Date(DefaultYear, month, day))
    ensures StrptimeSlotLabel(LabelText(w, month, day, local))
         == Ok(DateTime(DefaultYear, month, day, HourOf(local), MinuteOf(local), 0))
  {
    MatchLabelText(w, month, day, local);
    Hour24OfHour12(HourOf(local));
  }

  /** Any character `\s` matches separates the fields as a blank does: a
      label with another whitespace character (U+001C, say) after the
      weekday name parses as the label itself. */
  lemma MatchLabelOtherSeparator(w: int, month: int, day: int, local: int, c: char)
    requires 0 <= w < 7 && 1 <= month <= 12 && 1 <= day <= 31 && IsSpace(c)
    ensures var s := LabelText(w, month, day, local);
      MatchSlotLabel(s[..3] + [c] + s[4..]) == MatchSlotLabel(s)
  {
    var s := LabelText(w, month, day, local);
    var t := s[..3] + [c] + s[4..];
    var h := Hour12(HourOf(local));
    LabelTextChars(w, month, day, local);
    assert t[..3] == s[..3] && t[3] == c && t[4..7] == s[4..7] && t[8..10] == s[8..10];
    assert forall k :: 4 <= k < 19 ==> t[k] == s[k];
    LabelCharsSteps(t, w, month, day, h, MinuteOf(local), HourOf(local) >= 12);
    MatchLabelSteps(t, w, month, if day < 10 then 9 else 8, day, h, MinuteOf(local), HourOf(local) >= 12);
    MatchLabelText(w, month, day, local);
  }

  /** A label of a day that 1900's month did not have is rejected. */
  lemma StrptimeLabelRejected(w: int, month: int, day: int, local: int)
    requires 0 <= w < 7 && 1 <= month <= 12 && DaysInMonth(DefaultYear, month) < day <= 31
    ensures StrptimeSlotLabel(LabelText(w, month, day, local)) == Err(ValueError)
  {
    MatchLabelText(w, month, day, local);
  }

  /** A label for February 29 is always rejected: 1900 was not a leap year. */
  lemma StrptimeLabelLeapDay(w: int, local: int)
    requires 0 <= w < 7
    ensures StrptimeSlotLabel(LabelText(w, 2, 29, local)) == Err(ValueError)
  {
    assert !IsLeap(DefaultYear);
    StrptimeLabelRejected(w, 2, 29, local);
  }

  // ---- Timestamps: the parser inverts `isoformat` ----

  /** The matcher of `"%Y-%m-%dT%H:%M:%S%z"` runs through a timestamp step
      by step. */
  lemma MatchTimestampSteps(s: string, y: int, mo: int, d: int, h: int, mi: int, sec: int, z: ZoneField)
    requires TwoDigitsAt(s, 0) && TwoDigitsAt(s, 2) && CharAt(s, 4, '-')
    requires 100 * TwoDigitValue(s, 0) + TwoDigitValue(s, 2) == y
    requires Number(s, 5, 1, 12) == Some((mo, 7)) && CharAt(s, 7, '-')
    requires DayNumber(s, 8) == Some((d, 10)) && LetterAt(s, 10, 'T')
    requires Number(s, 11, 0, 23) == Some((h, 13)) && CharAt(s, 13, ':')
    requires Number(s, 14, 0, 59) == Some((mi, 16)) && CharAt(s, 16, ':')
    requires Number(s, 17, 0, 61) == Some((sec, 19))
    requires MatchZone(s, 19) == Some((z, |s|))
    ensures MatchTimestamp(s) == Some(TimestampFields(y, mo, d, h, mi, sec, z))
  {
  }

  /** A timestamp whose `%z` is missing does not match. */
  lemma MatchTimestampNoZone(s: string, y: int, mo: int, d: int, h: int, mi: int, sec: int)
    requires TwoDigitsAt(s, 0) && TwoDigitsAt(s, 2) && CharAt(s, 4, '-')
    requires Number(s, 5, 1, 12) == Some((mo, 7)) && CharAt(s, 7, '-')
    requires DayNumber(s, 8) == Some((d, 10)) && LetterAt(s, 10, 'T')
    requires Number(s, 11, 0, 23) == Some((h, 13)) && CharAt(s, 13, ':')
    requires Number(s, 14, 0, 59) == Some((mi, 16)) && CharAt(s, 16, ':')
    requires Number(s, 17, 0, 61) == Some((sec, 19))
    requires MatchZone(s, 19).None?
    ensures MatchTimestamp(s).None?
  {
  }

  /** `%04d` is read back by `%Y`. */
  lemma YearOfPad4(s: string, y: int)
    requires 0 <= y <= 9999 && |s| >= 4
    requires s[0] == Digit(y / 1000) && s[1] == Digit(y / 100 % 10)
    requires s[2] == Digit(y / 10 % 10) && s[3] == Digit(y % 10)
    ensures TwoDigitsAt(s, 0) && TwoDigitsAt(s, 2)
    ensures 100 * TwoDigitValue(s, 0) + TwoDigitValue(s, 2) == y
  {
    DigitValueOf(y / 1000);
    DigitValueOf(y / 100 % 10);
    DigitValueOf(y / 10 % 10);
    DigitValueOf(y % 10);
    assert 10 * (y / 1000) + y / 100 % 10 == y / 100;
    assert 10 * (y / 10 % 10) + y % 10 == y % 100;
  }

  /** `%d` reads back a day written by `%02d`. */
  lemma DayOfPad2(s: string, i: nat, d: int)
    requires 1 <= d <= 31 && i + 2 < |s|
    requires s[i] == Digit(d / 10) && s[i + 1] == Digit(d % 10) && !IsDigit(s[i + 2])
    ensures DayNumber(s, i) == Some((d, i + 2))
  {
    NumberOfPad2(s, i, 1, 31, d);
  }

  /** A `+HH:MM` offset ending the text is read back by `%z`. */
  lemma ZoneWritten(s: string, negative: bool, oh: int, om: int)
    requires 0 <= oh <= 23 && 0 <= om <= 59 && |s| == 25
    requires s[19] == (if negative then '-' else '+')
    requires s[20] == Digit(oh / 10) && s[21] == Digit(oh % 10) && s[22] == ':'
    requires s[23] == Digit(om / 10) && s[24] == Digit(om % 10)
    ensures MatchZone(s, 19) == Some((Offset(negative, oh, om, None, true, false), 25))
  {
    DigitValueOf(oh / 10);
    DigitValueOf(oh % 10);
    DigitValueOf(om / 10);
    DigitValueOf(om % 10);
    assert SexagesimalAt(s, 23);
    assert TwoDigitValue(s, 20) == oh && TwoDigitValue(s, 23) == om;
  }

  /** The date and clock fields of a written timestamp are read back. */
  lemma TimestampFieldsWritten(s: string, y: int, mo: int, d: int, h: int, mi: int, sec: int)
    requires 0 <= y <= 9999 && 1 <= mo <= 12 && 1 <= d <= 31
    requires 0 <= h <= 23 && 0 <= mi <= 59 && 0 <= sec <= 59 && |s| >= 19
    requires s[0] == Digit(y / 1000) && s[1] == Digit(y / 100 % 10)
    requires s[2] == Digit(y / 10 % 10) && s[3] == Digit(y % 10) && s[4] == '-'
    requires s[5] == Digit(mo / 10) && s[6] == Digit(mo % 10) && s[7] == '-'
    requires s[8] == Digit(d / 10) && s[9] == Digit(d % 10) && s[10] == 'T'
    requires s[11] == Digit(h / 10) && s[12] == Digit(h % 10) && s[13] == ':'
    requires s[14] == Digit(mi / 10) && s[15] == Digit(mi % 10) && s[16] == ':'
    requires s[17] == Digit(sec / 10) && s[18] == Digit(sec % 10)
    requires |s| == 19 || !IsDigit(s[19])
    ensures TwoDigitsAt(s, 0) && TwoDigitsAt(s, 2)
    ensures 100 * TwoDigitValue(s, 0) + TwoDigitValue(s, 2) == y
    ensures Number(s, 5, 1, 12) == Some((mo, 7))
    ensures DayNumber(s, 8) == Some((d, 10))
    ensures Number(s, 11, 0, 23) == Some((h, 13))
    ensures Number(s, 14, 0, 59) == Some((mi, 16))
    ensures Number(s, 17, 0, 61) == Some((sec, 19))
  {
    YearOfPad4(s, y);
    NumberOfPad2(s, 5, 1, 12, mo);
    DayOfPad2(s, 8, d);
    NumberOfPad2(s, 11, 0, 23, h);
    NumberOfPad2(s, 14, 0, 59, mi);
    NumberOfPad2(s, 17, 0, 61, sec);
  }

  /** The aware `datetime` of local calendar date `d`, the clock of local
      instant `local`, and UTC offset `offset`. */
  function IsoFieldsOf(d: Date, local: int, offset: int): AwareDateTime
  {
    Aware(DateTime(d.year, d.month, d.day, HourOf(local), MinuteOf(local), TimeOfDay(local) % 60), offset)
  }

  /** The `%z` field of an offset written as `+HH:MM`. */
  function IsoZone(offset: int): ZoneField
  {
    var a := if offset < 0 then -offset else offset;
    Offset(offset < 0, a / 3600, a % 3600 / 60, None, true, false)
  }

  /** The offset `+HH:MM` denotes is the one written. */
  lemma GmtOffsetOfIsoZone(offset: int)
    requires MinuteOffset(offset)
    ensures ZoneDigits(IsoZone(offset)) && GmtOffset(IsoZone(offset)) == Ok(offset)
  {
    var a := if offset < 0 then -offset else offset;
    assert a == a / 3600 * 3600 + a % 3600 / 60 * 60;
  }

  /** The characters of a timestamp's year, position by position. */
  lemma IsoYearChars(d: Date, local: int, offset: int, s: string)
    requires 0 <= d.year <= 9999 && 1 <= d.month <= 12 && 1 <= d.day <= 31
    requires MinuteOffset(offset) && s == IsoText(d, local, offset)
    ensures s[0] == Digit(d.year / 1000) && s[1] == Digit(d.year / 100 % 10)
    ensures s[2] == Digit(d.year / 10 % 10) && s[3] == Digit(d.year % 10) && s[4] == '-'
  {
  }

  /** The characters of a timestamp's month and day, position by position. */
  lemma IsoMonthDayChars(d: Date, local: int, offset: int, s: string)
    requires 0 <= d.year <= 9999 && 1 <= d.month <= 12 && 1 <= d.day <= 31
    requires MinuteOffset(offset) && s == IsoText(d, local, offset)
    ensures s[5] == Digit(d.month / 10) && s[6] == Digit(d.month % 10) && s[7] == '-'
    ensures s[8] == Digit(d.day / 10) && s[9] == Digit(d.day % 10) && s[10] == 'T'
  {
  }

  /** The characters of a timestamp's clock, position by position. */
  lemma IsoClockChars(d: Date, local: int, offset: int, s: string)
    requires 0 <= d.year <= 9999 && 1 <= d.month <= 12 && 1 <= d.day <= 31
    requires MinuteOffset(offset) && s == IsoText(d, local, offset)
    ensures s[11] == Digit(HourOf(local) / 10) && s[12] == Digit(HourOf(local) % 10) && s[13] == ':'
    ensures s[14] == Digit(MinuteOf(local) / 10) && s[15] == Digit(MinuteOf(local) % 10) && s[16] == ':'
    ensures s[17] == Digit(TimeOfDay(local) % 60 / 10) && s[18] == Digit(TimeOfDay(local) % 60 % 10)
  {
  }

  /** The characters of a timestamp's offset, position by position. */
  lemma IsoZoneChars(d: Date, local: int, offset: int, s: string)
    requires 0 <= d.year <= 9999 && 1 <= d.month <= 12 && 1 <= d.day <= 31
    requires MinuteOffset(offset) && s == IsoText(d, local, offset)
    ensures s[19] == (if offset < 0 then '-' else '+')
    ensures s[20] == Digit(IsoZone(offset).hours / 10) && s[21] == Digit(IsoZone(offset).hours % 10)
    ensures s[22] == ':'
    ensures s[23] == Digit(IsoZone(offset).minutes / 10) && s[24] == Digit(IsoZone(offset).minutes % 10)
  {
  }

  /** The regular expression matches what `isoformat` writes, capturing its
      fields. */
  lemma MatchIsoText(d: Date, local: int, offset: int)
    requires 0 <= d.year <= 9999 && 1 <= d.month <= 12 && 1 <= d.day <= 31
    requires MinuteOffset(offset)
    ensures MatchTimestamp(IsoText(d, local, offset))
         == Some(TimestampFields(d.year, d.month, d.day, HourOf(local), MinuteOf(local),
                                 TimeOfDay(local) % 60, IsoZone(offset)))
  {
    var s := IsoText(d, local, offset);
    var z := IsoZone(offset);
    IsoYearChars(d, local, offset, s);
    IsoMonthDayChars(d, local, offset, s);
    IsoClockChars(d, local, offset, s);
    IsoZoneChars(d, local, offset, s);
    TimestampFieldsWritten(s, d.year, d.month, d.day, HourOf(local), MinuteOf(local), TimeOfDay(local) % 60);
    ZoneWritten(s, offset < 0, z.hours, z.minutes);
    MatchTimestampSteps(s, d.year, d.month, d.day, HourOf(local), MinuteOf(local),
                        TimeOfDay(local) % 60, z);
  }

  /** Parsing a timestamp of a valid date gives back its fields and its
      offset. */
  lemma StrptimeIsoText(d: Date, local: int, offset: int)
    requires ValidDate(d) && 1 <= d.year <= 9999 && MinuteOffset(offset)
    ensures StrptimeTimestamp(IsoText(d, local, offset)) == Ok(IsoFieldsOf(d, local, offset))
  {
    MatchIsoText(d, local, offset);
    GmtOffsetOfIsoZone(offset);
  }

  /** The fields of a local instant denote, at its offset, the instant
      `local - offset`. */
  lemma InstantOfIsoFields(local: int, offset: int)
    ensures InstantOf(IsoFieldsOf(CivilFromDays(DayOf(local)), local, offset)) == local - offset
  {
    assert TimeOfDay(local) == HourOf(local) * 3600 + MinuteOf(local) * 60 + TimeOfDay(local) % 60;
    assert local == DayOf(local) * SecondsPerDay + TimeOfDay(local);
  }

  /** Parsing what `isoformat` wrote gives back the calendar fields of its
      wall clock, its offset, and so the instant it denotes. */
  lemma StrptimeIsoFormat(local: int, offset: int)
    requires MinuteOffset(offset) && 1 <= CivilFromDays(DayOf(local)).year <= 9999
    ensures StrptimeTimestamp(IsoFormat(local, offset)) == Ok(IsoFieldsOf(CivilFromDays(DayOf(local)), local, offset))
    ensures InstantOf(StrptimeTimestamp(IsoFormat(local, offset)).value) == local - offset
  {
    StrptimeIsoText(CivilFromDays(DayOf(local)), local, offset);
    InstantOfIsoFields(local, offset);
  }

  /** A timestamp without its UTC offset (a naive `isoformat`) is rejected:
      the format demands `%z`. */
  lemma StrptimeNaiveIsoText(d: Date, local: int, offset: int)
    requires ValidDate(d) && 1 <= d.year <= 9999 && MinuteOffset(offset)
    ensures StrptimeTimestamp(IsoText(d, local, offset)[..19]) == Err(ValueError)
  {
    var s := IsoText(d, local, offset);
    var n := s[..19];
    IsoYearChars(d, local, offset, s);
    IsoMonthDayChars(d, local, offset, s);
    IsoClockChars(d, local, offset, s);
    TimestampFieldsWritten(n, d.year, d.month, d.day, HourOf(local), MinuteOf(local), TimeOfDay(local) % 60);
    assert MatchZone(n, 19).None?;
    MatchTimestampNoZone(n, d.year, d.month, d.day, HourOf(local), MinuteOf(local), TimeOfDay(local) % 60);
  }
}
