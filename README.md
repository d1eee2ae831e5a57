# Calendar booking core in Dafny

This project models the scheduling core of a small appointment-booking web
service built on Google Calendar, together with the string helpers around it.

- **The open-slot generator** (`get_open_slots`) walks a 30-day UTC window in
  40-minute strides. It offers each half-hour candidate that meets no busy
  interval, starts between 05:00:00 and 13:30:59 UTC, and falls Monday to
  Friday.
- **The date enumerator** (`month_date`) lists this month's calendar-grid
  dates from today on. It extends them with next-month dates up to the last
  slot's date.
- **The grouper** (`sorter`) collects, per enumerated date, the
  `"%I:%M %p"` labels of the slots starting on that UTC date, converted to
  the visitor's time zone. The group is keyed by the date's `ctime()` text up
  to `" 00"`.
- **The label parser** (`format_input_time`) reads a booked label
  `"Dow Mon DDThh:mm AM/PM"` back as a datetime in the current year.
- **The confirmation formatter** (`format_response_time`) renders an
  offset-bearing event timestamp as a clock time and a date in a given zone.
- **The helpers** are `get_mimetype` (the Google Drive MIME type of a sharing
  link), `other_attendees` (the comma-separated attendee field), `check` (the
  e-mail pattern) and `sort_attendees` (attendee dictionaries).

## How the model is built

- **Instants** are integer seconds since 1970-01-01T00:00:00Z.
  - The date is `t / 86400` and the time of day is `t % 86400`. Both are
    Euclidean, so they are right for instants before 1970 too.
  - The weekday is `(date + 3) % 7`, with Monday = 0.
  - Calendar dates are day numbers. `Civil.CivilFromDays` and
    `Civil.DaysFromCivil` convert them, and are proved inverse.
- **Time zones** are a function `Zone = int -> int` from a UTC instant to the
  offset in force at that instant. A wall clock reads `t + zone(t)`.
- **Clocks are parameters**: `now` in `get_open_slots`, `today` in
  `month_date`, and the current year in `format_input_time`. The busy
  intervals of the free/busy answer are a parameter as well.
- **Python exceptions** are values. `Wrappers.Result` carries either a value
  or the exception raised (`ValueError` or `IndexError`).
  - `month_date` raises `ValueError` in December: `itermonthdates(2021, 13)`
    is not a month.
  - It raises `IndexError` when no grid date of this month is today or later,
    or when there are no slots.
  - `get_mimetype` raises `IndexError` when the host it splits on is absent.
- **Imperative and pure parts stay apart.**
  - `get_open_slots`, `month_date` and `sorter` are methods with the source's
    loops: the inner `for ... break`, the two comprehensions, the `deque`
    drain and the nested loops that build the dictionaries.
  - Each method is proved equal to a recursive specification function. The
    properties are proved about that function.
  - The helpers and the two formatters are functions.
- **Library behaviour** the code relies on is modelled once, in its own
  module:
  - `strftime` of `%I:%M %p`, `%a, %b %d` and `ctime()`, in the C locale
    (`Strftime`);
  - `datetime.strptime` of `"%a %b %dT%I:%M %p"` and
    `"%Y-%m-%dT%H:%M:%S%z"` (`Strptime`);
  - `datetime.isoformat()` of an aware datetime (a form the calendar service
    writes);
  - `str.split`, `str.join`, `str.rstrip`, `in` and `list(str)`
    (`Strings`);
  - the Sunday-first month grid of `calendar.Calendar(firstweekday=6)`
    (`Civil`).
- **How `strptime` matches.** The format is turned into a regular
  expression, as CPython's `_strptime` does:
  - a blank matches one or more whitespace characters, Unicode separators and U+001C..U+001F included;
  - names, `T` and `AM`/`PM` match ignoring case;
  - a `%d`, `%I`, `%m`, `%H`, `%M` or `%S` field takes one digit or two, and
    the value must be in range;
  - the whole string must be consumed.
  - The label format has no year, so day and month are checked against 1900.
    February 29 therefore raises.

## Model

| member | source | states |
|---|---|---|
| GetSlots.GetOpenSlots | services/get_slots.py:52-135 | The while loop, its inner busy scan that breaks on the first overlap, and the append return exactly the offered sequence `OpenSlots(now, busy)`. That sequence is the candidates from the first one by the successor rule while before `now` + 30 days, kept when free, in business hours and on a weekday. |
| GetSlots.FirstCandidate | services/get_slots.py:69-72 | The walk starts at `now` when its UTC time of day is 05:00 or later, otherwise at 05:00:00 of the same date; never before `now`. |
| GetSlots.Next | services/get_slots.py:123-134 | The successor is strictly later. It is 05:00:00 of the same date when the time of day is strictly between 00:00 and 01:00, and 40 minutes later otherwise. |
| GetSlots.CandidatesFromShape | services/get_slots.py:77-134 | The candidates before `end` are non-empty exactly when the start is before `end`. They begin at the start, each follows its predecessor by the successor rule, all lie in `[start, end)`, and the successor of the last reaches `end`. |
| GetSlots.CandidatesIncreasing | services/get_slots.py:77-134 | The candidates strictly increase. |
| GetSlots.OpenFromMembers | services/get_slots.py:80-121 | A slot is offered from a point of the walk exactly when its end is its start + 29:59 and its start is a later candidate that is free, within 05:00:00-13:30:59 and on a weekday. |
| GetSlots.OpenFromIncreasing | services/get_slots.py:77-121 | Offered starts lie in the scanned range and strictly increase, as they are appended in candidate order. |
| GetSlots.OpenSlotsMembers | services/get_slots.py:63-121 | Over the whole 30-day window: a slot is offered exactly when it is a bookable candidate of length 29:59. |
| GetSlots.OpenSlotsSound | services/get_slots.py:63-121 | Every offered slot has end = start + 29:59 and `now <= start < now + 30 days`. Neither endpoint lies in any busy `[start, end)`. Its UTC start time is in `[05:00:00, 13:30:59)` and its weekday is Monday to Friday. The slots strictly increase. |
| GetSlots.NoBusyOffersEveryWorkingCandidate | services/get_slots.py:84-121 | With no busy intervals, the slot at `t` is offered exactly when `t` is a candidate in business hours on a weekday. |
| GetSlots.CoveredWindowOffersNothing | services/get_slots.py:84-102 | A busy interval covering the whole window leaves nothing to offer. |
| GetSlots.FirstCandidateVisited | services/get_slots.py:69-80 | The first candidate is always examined. |
| TimeDates.MonthDate | services/time_dates.py:20-55 | The generator's output, or the exception it raises, is `MonthDates(today, slots)`: this month's 2021 grid from today on, then the next-month scan. |
| TimeDates.OnOrAfterToday | services/time_dates.py:41-43 | The first comprehension keeps the grid dates on or after today, in grid order. |
| TimeDates.NextMonthDates | services/time_dates.py:44-51 | The second comprehension is the next-month scan, including the `IndexError` of `[-1]` on an empty list. |
| TimeDates.Drain | services/time_dates.py:52-55 | Draining the `deque` with `popleft` yields the dates in order. |
| TimeDates.OnOrAfterMembers | services/time_dates.py:41-43 | A date survives the filter exactly when it is in the grid and not before today. |
| TimeDates.OnOrAfterIncreasing | services/time_dates.py:41-43 | Filtering an increasing grid leaves it increasing. |
| TimeDates.NextMonthPartBounds | services/time_dates.py:44-51 | Each added date is a next-month grid date, strictly after the last current date and no later than the last slot's date. |
| TimeDates.NextMonthPartIncreasing | services/time_dates.py:44-51 | Added dates keep grid order. |
| TimeDates.NextMonthPartOutcome | services/time_dates.py:44-51 | The scan raises only `IndexError`. It succeeds exactly when the grid is empty, or there are current dates and either slots or no grid date after the last current one. |
| TimeDates.NextMonthPartFirstError | services/time_dates.py:44-51 | The first exception raised by the comprehension is the one it raises. |
| TimeDates.CurrentDatesAscending | services/time_dates.py:39-43 | The current dates ascend and none is before today. |
| TimeDates.MonthDatesAscending | services/time_dates.py:41-55 | `month_date` yields strictly ascending dates, none before today. |
| TimeDates.MonthDatesExtension | services/time_dates.py:44-51 | The output starts with the current dates. Every later date is a next-month grid date after the last current date and no later than the last slot's UTC date. |
| TimeDates.MonthDatesOutcome | services/time_dates.py:36-51 | It succeeds exactly when the month is not December, some grid date is today or later, and there is a slot. December raises `ValueError`; every other failure is `IndexError`. |
| TimeDates.MonthDatesFailAfterGridYear | services/time_dates.py:39-43 | Once the year 2021 of the grids is over, `month_date` always raises. |
| TimeDates.Sorter | services/time_dates.py:59-101 | The generator's output is `Sorted(today, zone, slots)`: the non-empty per-date dictionaries of the enumerated dates, in order, or the enumerator's exception. |
| TimeDates.TimeslotsFor | services/time_dates.py:77-97 | The inner loop builds `Group(date, slots, zone)`. That is empty when no slot starts on the date; otherwise it has the one key for the date, mapped to its labels. |
| TimeDates.MatchingIndicesSpec | services/time_dates.py:81-85 | The matched slots are exactly those whose UTC start date is the date, each once, in slot order. |
| TimeDates.TimesForSpec | services/time_dates.py:81-94 | A group holds one label per matching slot, in slot order: the `"%I:%M %p"` of that slot's start in the target zone. |
| TimeDates.GroupsSound | services/time_dates.py:76-101 | Every yielded dictionary has the single key of an enumerated date with slots, mapped to that date's labels. No more dictionaries are yielded than there are dates. |
| TimeDates.GroupsComplete | services/time_dates.py:76-101 | Every enumerated date with at least one slot gets its dictionary. |
| TimeDates.DatesWithSlots | services/time_dates.py:76-97 | The dates that get a dictionary are exactly the enumerated dates with at least one slot, in their order. |
| TimeDates.DatesWithSlotsIncreasing | services/time_dates.py:76-97 | For ascending enumerated dates, as `month_date` yields them, those dates ascend too, so each appears once. |
| TimeDates.GroupsInOrder | services/time_dates.py:76-101 | `sorter` yields exactly one dictionary per enumerated date with slots, in date order. The i-th is keyed by the i-th such date and holds its labels. |
| TimeDates.SlotShown | services/time_dates.py:76-101 | A slot whose UTC date is enumerated appears, by its local label, in that date's group. |
| TimeDates.DateKeyShape | services/time_dates.py:86 | The group key is the date's `"Dow Mon DD"` with the day space-padded. The first `" 00"` of `ctime()` is that of midnight. |
| TimeDates.ReplaceYear | services/time_dates.py:118 | `replace(year)` succeeds exactly when the year is in 1..9999 and the day exists in that month of that year, and then changes only the year. |
| TimeDates.MoveToYearValid | services/time_dates.py:116-118 | A parse of 1900 always moves to the current year, onto a valid date. A failed parse stays failed. |
| TimeDates.FormatInputTimeValid | services/time_dates.py:105-118 | `format_input_time` fails exactly when the parse fails. It returns the parse with the current year: a valid date with seconds 0. |
| TimeDates.FormatInputTimeOfLabel | services/time_dates.py:114-118 | A written label is read back as its month, day, hour and minute in the current year, with seconds 0. The weekday name plays no part. |
| TimeDates.FormatInputTimeLeapDay | services/time_dates.py:114 | A label for February 29 raises `ValueError`, whatever the current year. |
| TimeDates.DateKeyLabel | services/time_dates.py:86-94 | A group key, `T` and a time label together form the label that `format_input_time` reads. |
| TimeDates.FormatInputTimeOfOffer | services/time_dates.py:86-118 | Booking an offered slot gives back its UTC date with the local wall-clock hour and minute of its label. On February 29 it raises. |
| TimeDates.BookedSlotInstant | services/time_dates.py:85-118 | The round trip holds when the slot's UTC and local dates coincide and the current year is that year. The booked datetime, read at the zone's offset, is the slot's start truncated to the minute. |
| TimeDates.ParsedInstant | services/time_dates.py:132 | The timestamp yields an instant exactly when `strptime` accepts it. |
| TimeDates.FormatResponseTime | services/time_dates.py:122-141 | `format_response_time` succeeds exactly when the timestamp parses with its UTC offset. |
| TimeDates.ClockLabelReads | services/time_dates.py:134-136 | The `"%I:%M %p"` text of a wall clock reads back, by its 12-hour hour with AM/PM and its minute, as that clock's hour and minute. |
| TimeDates.BookingDateReads | services/time_dates.py:137-139 | The `"%a, %b %d"` text of a wall clock names that clock's weekday and month and reads back as its day of the month. |
| TimeDates.FormatResponseTimeOf | services/time_dates.py:132-141 | For a timestamp that parses, the response has exactly the keys `time` and `date`. They read back as the hour, minute, weekday, month and day of the denoted instant on the target zone's wall clock. |
| TimeDates.FormatResponseTimeOfIsoFormat | services/time_dates.py:132-141 | For an event time as the calendar service writes it, the timestamp parses to exactly that instant. The response's `time` and `date` read back as that instant's clock and date in the target zone. |
| TimeDates.FormatResponseTimeInstantOnly | services/time_dates.py:132-141 | Two timestamps for the same instant get the same response, whatever their offsets. |
| TimeDates.FormatResponseTimeNaive | services/time_dates.py:132 | A timestamp without its UTC offset raises `ValueError`. |
| Strptime.MatchSlotLabel | services/time_dates.py:114 | A matched label has a month in 1..12, a day in 1..31, a 12-hour hour in 1..12 and a minute in 0..59. |
| Strptime.Hour24 | services/time_dates.py:114 | `%I` with `%p` gives the hour of the same residue mod 12, in the afternoon exactly when PM: 12 AM is 0 and 12 PM is 12. |
| Strptime.Hour24OfHour12 | services/time_dates.py:114 | Reading back the 12-hour hour and AM/PM of any hour gives that hour. |
| Strptime.StrptimeSlotLabel | services/time_dates.py:114 | A parsed label is in 1900, with seconds 0, on a date 1900 has. |
| Strptime.DayNamesFoldApart | services/time_dates.py:114 | The weekday abbreviations differ even ignoring case, so the name matched is the one written. |
| Strptime.MonthNamesFoldApart | services/time_dates.py:114 | The same for the month abbreviations. |
| Strptime.MatchLabelText | services/time_dates.py:114 | Matching a written label gives back the weekday, month, day, 12-hour hour, minute and AM/PM written. |
| Strptime.MatchLabelOtherSeparator | services/time_dates.py:114 | Any character `\s` matches, such as U+001C or U+3000, may stand for the blank after the weekday name: the label then matches exactly as with the blank. |
| Strptime.StrptimeLabelText | services/time_dates.py:114 | A written label for a date of 1900 parses to that month and day at the written wall-clock hour and minute. |
| Strptime.StrptimeLabelRejected | services/time_dates.py:114 | A label for a day beyond the month's length in 1900 raises `ValueError`. |
| Strptime.StrptimeLabelLeapDay | services/time_dates.py:114 | A label for February 29 raises `ValueError`. |
| Strptime.MatchTimestamp | services/time_dates.py:132 | A matched timestamp has a 4-digit year, a month, a day in 1..31, an hour, a minute, a second in 0..61 and a well-formed `%z`. |
| Strptime.GmtOffset | services/time_dates.py:132 | An accepted `%z` offset is strictly within one day. |
| Strptime.StrptimeTimestamp | services/time_dates.py:132 | A parsed timestamp is a valid date in 1..9999 with seconds in 0..59 and an offset within a day. |
| Strptime.GmtOffsetOfIsoZone | services/time_dates.py:132 | The `+HH:MM` that `isoformat` writes is read back as the same offset. |
| Strptime.MatchIsoText | services/time_dates.py:132 | Matching an `isoformat` text gives back the date, clock and offset fields written. |
| Strptime.StrptimeIsoText | services/time_dates.py:132 | Parsing an `isoformat` text gives back the aware datetime written. |
| Strptime.StrptimeIsoFormat | services/time_dates.py:132 | Parsing `isoformat` of a wall clock at an offset gives back its fields, and so the instant it denotes. |
| Strptime.StrptimeNaiveIsoText | services/time_dates.py:132 | The same text without its offset raises `ValueError`. |
| Civil.CivilFromDays | services/time_dates.py:36 | The calendar date of a day number is valid and maps back to that day number. |
| Civil.CivilFromDaysInverse | services/time_dates.py:36 | Every valid date is the calendar date of its day number. |
| Civil.MonthGrid | services/time_dates.py:39-40 | `itermonthdates` succeeds exactly for months 1..12; month 13 raises. |
| Civil.MonthGridShape | services/time_dates.py:39-40 | The grid is consecutive whole weeks starting on a Sunday. It starts at most six days before the first and ends at most six days after the last of the month. |
| Civil.NextMonthFirst | services/time_dates.py:39-40 | The next month's first day follows this month's last day. |
| Civil.KnownDate | services/time_dates.py:36-43 | Day numbers and weekdays are those of the real calendar: June 5, 2021 is day 18783 and a Saturday. |
| Strings.Find | helpers/mimetype.py:14 | `in`: the first index at which the text occurs, or none when it does not. |
| Strings.SplitSingle | helpers/mimetype.py:16-22 | A split yields one piece exactly when the separator is absent, so `[1]` raises. |
| Strings.JoinSplit | helpers/emails.py:17 | Joining the pieces of a split with the separator gives the text back. |
| Strings.SplitPiecesAvoidSep | helpers/emails.py:17 | No piece of a split contains the separator. |
| Strings.SplitCharCount | helpers/emails.py:17 | Splitting on a character gives one piece more than its occurrences. |
| Strings.RStrip | helpers/mimetype.py:16-18 | `rstrip("s")` is a prefix, not ending in `s`, and what it removes is all `s`. |
| Strings.Chars | helpers/emails.py:18 | `list(s)` has one single-character string per character, in order. |
| Strings.JoinChars | helpers/emails.py:18 | Joining `list(s)` with no separator gives `s` back. |
| Mimetype.GetMimetype | helpers/mimetype.py:4-42 | Every answer starts with `application/vnd.google-apps.`. |
| Mimetype.Segment | helpers/mimetype.py:16-29 | The segment lookup fails only with `IndexError`. |
| Mimetype.SegmentExists | helpers/mimetype.py:16-29 | The segment exists exactly when the host occurs in the link. |
| Mimetype.SegmentSpec | helpers/mimetype.py:16-29 | The segment is the text after the first host, ending at the end, the next host or the first `/d/`. It is a prefix of that text, holds no `/d/`, and no host starts inside it. |
| Mimetype.SplitHead | helpers/mimetype.py:16-29 | `split(sep)[0]` is the text up to the first separator or to the end. |
| Mimetype.SplitSecond | helpers/mimetype.py:16-29 | `split(sep)[1]`, when the separator occurs, is the head of the text after its first occurrence. |
| Mimetype.GetMimetypeFails | helpers/mimetype.py:14-29 | A link fails, with `IndexError`, exactly when it has `docs.` without the Docs host, or `drive.` without `com/drive/` or the Drive host. |
| Mimetype.DocsLink | helpers/mimetype.py:14-22 | A link on the Docs host gets the segment after the host, with trailing `s` stripped for spreadsheets. |
| Mimetype.DriveFolderLink | helpers/mimetype.py:23-25 | A link that is not a Docs link but holds `drive.` and `com/drive/` is a folder, whatever its host. |
| Mimetype.DriveFileLink | helpers/mimetype.py:23-29 | A link on the Drive host that is neither a Docs link nor a folder gets the segment after the host. |
| Mimetype.OtherLink | helpers/mimetype.py:30-39 | Other links never fail, and are tested in the fixed order `//script`, `//photos`, `com/maps`, `//video(s)`, then `unknown`. |
| Emails.OtherAttendees | helpers/emails.py:5-18 | There is a list exactly when a field is given; `None` gives `None`. |
| Emails.OtherAttendeesCommaList | helpers/emails.py:16-17 | With a comma: one entry per comma plus one, none holding a comma, and joined with commas they give the field back. |
| Emails.OtherAttendeesCharList | helpers/emails.py:18 | Without a comma: one single-character entry per character, in order, which joined give the field back. |
| Emails.Check | helpers/emails.py:21-34 | The answer is the argument or `None`. |
| Emails.CheckIsFullMatch | helpers/emails.py:30-31 | The first-`@`/last-`.` matcher accepts exactly the strings the pattern matches in full under some placement of `@` and `.`. |
| Emails.OnlyAt | helpers/emails.py:30 | In a full match, the separating `@` is the only one. |
| Emails.CheckAccepted | helpers/emails.py:30-32 | An accepted address has exactly one `@` and a word character first. The text after its last `.` has two or more characters, all letters or `\|`, and ends in a letter. |
| Emails.CheckAcceptsPlainAddress | helpers/emails.py:30-32 | `ann@mail.com` is accepted. |
| Emails.CheckRefusesShortTopLevel | helpers/emails.py:30-34 | A one-letter top-level domain is refused. |
| Emails.CheckRefusesTrailingBar | helpers/emails.py:30-34 | A trailing `\|` fails the final word boundary. |
| Emails.CheckRefusesLeadingDot | helpers/emails.py:30-34 | A leading `.` fails the initial word boundary. |
| Emails.CheckRefusesTwoAts | helpers/emails.py:30-34 | A second `@` is refused. |
| Attendees.Attendee | helpers/attendees.py:12 | An entry has exactly the key `email`, mapped to the address. |
| Attendees.SortAttendees | helpers/attendees.py:4-12 | One entry per address, in order: the i-th entry is that of the i-th address. The empty list gives the empty list. |
| Attendees.AddressesOf | helpers/attendees.py:12 | Reading the `email` of each entry, in order. |
| Attendees.AddressesRoundTrip | helpers/attendees.py:12 | Reading the addresses back from the entries gives the list, in order and with repetitions. |
| Attendees.SortAttendeesAppend | helpers/attendees.py:12 | The entries of two concatenated lists are the concatenated entries. |

## Left out

- Google API calls and credentials are out of scope. `freebusy_slots` (services/get_slots.py:17-48) is a network call; its busy intervals are a parameter of the model.
- The `strptime(..., "%Y-%m-%dT%H:%M:%SZ")` of each busy interval (services/get_slots.py:86-91) is not modelled. The intervals are given as instants, so the model does not raise on a malformed busy entry.
- `datetime.utcnow()`, `datetime.today()`, `datetime.now()` and `datetime.now().date()` are clocks. They are the parameters `now`, `today` and `currentYear`. `now` is whole seconds, which is what `replace(microsecond=0)` leaves.
- `ZoneInfo(name)` and `available_timezones()` are the IANA database. A zone is a function from instant to offset, and an unknown zone name, which Python rejects, is not modelled.
- `astimezone` near the ends of Python's year range can overflow. The model has integers without bound there.
- The `@timer` decorator is not part of this model. The two `print` calls and `mimetypes.guess_type` (helpers/mimetype.py:40-41) write output only and do not influence the result.
- `month_date` and `sorter` are generators. The model returns what they yield as a sequence, or the exception raised. Every exception they can raise arises before the first value is yielded.
- Strptime.StrptimeTimestamp: `%z` with fractional seconds (`+03:00:00.5`) is not accepted by the model, although Python accepts it.
- Strptime.StrptimeTimestamp: non-ASCII decimal digits are refused. Python's `\d` and `int()` accept them.
- Strptime.StrptimeSlotLabel: names are ASCII, case is folded for ASCII letters only, and non-ASCII decimal digits, which `%d`, `%I` and `%M` accept in Python, are refused.
- Emails.Check: `check(None)` raises `TypeError` in Python; the model takes a string only. `\b` is modelled for the characters the classes admit, where it coincides with Python's Unicode word test.
- TimeDates.FormatResponseTimeInstantOnly: it is stated for any two timestamps that parse to the same instant. It does not name two `isoformat` renderings of one instant.
- TimeDates.BookedSlotInstant: it holds only when the slot's UTC and local dates coincide. Otherwise the booked date is the UTC date with the local clock (TimeDates.FormatInputTimeOfOffer), as the code does.
- `sorter` stores the list `timeslots` itself in `date_timeslots` and keeps appending to it (services/time_dates.py:90-97). The model reassigns the key with the current list after each append, which yields the same dictionary; the aliasing itself is not modelled.
- services/get_slots.py:95-99 has no check for malformed busy intervals. An interval whose start is not before its end never overlaps a candidate.
- Both parse failures, of a slot label and of an event timestamp, raise `ValueError`.
- `format_response_time` raises `ValueError` on seconds 60 or 61, which `%S` matches and `datetime` refuses.
- `month_number = month if month[0] != 0 else month[1]` (services/time_dates.py:37) compares a character with the integer 0. The test is always true, so the month text is kept as written and `int` reads it as the month number.
