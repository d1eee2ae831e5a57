/** The date enumerator, the per-date grouping of open slots and the two
    label conversions of the booking flow. */
module TimeDates {
  import opened Wrappers
  import opened Civil
  import opened Strings
  import opened Strftime
  import opened Strptime
  import GetSlots

  /** The year `month_date` builds its month grids for, whatever today is. */
  const GridYear := 2021

  function Last(s: seq<int>): int
    requires |s| > 0
  {
    s[|s| - 1]
  }

  function LastStartDay(slots: seq<GetSlots.Slot>): int
    requires |slots| > 0
  {
    DayOf(slots[|slots| - 1].start)
  }

  /** The dates of `grid` on or after `today`, in grid order. */
  function OnOrAfter(grid: seq<int>, today: int): seq<int>
    decreases |grid|
  {
    if grid == [] then []
    else OnOrAfter(grid[..|grid| - 1], today) + (if Last(grid) >= today then [Last(grid)] else [])
  }

  /** The next-month comprehension over `grid`, scanned left to right: each
      date is compared with the last current date (`IndexError` when there is
      none) and, when later, with the last slot's date (`IndexError` when
      there are no slots); it is kept when it is no later than that. */
  function NextMonthPart(grid: seq<int>, current: seq<int>, slots: seq<GetSlots.Slot>): Result<seq<int>>
    decreases |grid|
  {
    if grid == [] then Ok([])
    else
      var init :- NextMonthPart(grid[..|grid| - 1], current, slots);
      var d := Last(grid);
      if current == [] then Err(IndexError)
      else if d <= Last(current) then Ok(init)
      else if slots == [] then Err(IndexError)
      else if d <= LastStartDay(slots) then Ok(init + [d])
      else Ok(init)
  }

  /** The current month: `datetime.today().isoformat().split("-")[1]` read
      as an integer. */
  function CurrentMonth(today: int): (m: int)
    ensures 1 <= m <= 12
  {
    CivilFromDays(today).month
  }

  /** The dates of this month's grid for `gridYear` on or after today. */
  function CurrentDates(gridYear: int, today: int): seq<int> {
    OnOrAfter(GridDays(gridYear, CurrentMonth(today)), today)
  }

  /** What `month_date(dates)` yields when today is day number `today` and
      the grids are built for `gridYear`. */
  function MonthDatesIn(gridYear: int, today: int, slots: seq<GetSlots.Slot>): Result<seq<int>> {
    var next :- MonthGrid(gridYear, CurrentMonth(today) + 1);
    var extra :- NextMonthPart(next, CurrentDates(gridYear, today), slots);
    Ok(CurrentDates(gridYear, today) + extra)
  }

  /** What `month_date(dates)` yields: the grids are those of 2021. */
  function MonthDates(today: int, slots: seq<GetSlots.Slot>): Result<seq<int>> {
    MonthDatesIn(GridYear, today, slots)
  }

  /** `month_date`, with today's date passed in; the generator's output is
      returned as a sequence. */
  method MonthDate(today: int, slots: seq<GetSlots.Slot>) returns (r: Result<seq<int>>)
    ensures r == MonthDates(today, slots)
  {
    var monthNumber := CivilFromDays(today).month;
    var currentMonthDays := GridDays(GridYear, monthNumber);
    var datesForEvents := OnOrAfterToday(currentMonthDays, today);
    assert datesForEvents == CurrentDates(GridYear, today);
    var nextMonthDays :- MonthGrid(GridYear, monthNumber + 1);
    var extra :- NextMonthDates(nextMonthDays, datesForEvents, slots);
    r := Drain(datesForEvents + extra);
  }

  /** The first comprehension of `month_date`. */
  method OnOrAfterToday(grid: seq<int>, today: int) returns (dates: seq<int>)
    ensures dates == OnOrAfter(grid, today)
  {
    dates := [];
    var i := 0;
    while i < |grid|
      invariant 0 <= i <= |grid|
      invariant dates == OnOrAfter(grid[..i], today)
    {
      assert grid[..i + 1][..i] == grid[..i];
      if grid[i] >= today {
        dates := dates + [grid[i]];
      }
      i := i + 1;
    }
    assert grid[..i] == grid;
  }

  /** The second comprehension of `month_date`, before `extend`. */
  method NextMonthDates(grid: seq<int>, current: seq<int>, slots: seq<GetSlots.Slot>) returns (r: Result<seq<int>>)
    ensures r == NextMonthPart(grid, current, slots)
  {
    var extra: seq<int> := [];
    var j := 0;
    while j < |grid|
      invariant 0 <= j <= |grid|
      invariant NextMonthPart(grid[..j], current, slots) == Ok(extra)
    {
      assert grid[..j + 1][..j] == grid[..j];
      var date := grid[j];
      if |current| == 0 {
        NextMonthPartFirstError(grid, j + 1, current, slots);
        return Err(IndexError);
      }
      if date > current[|current| - 1] {
        if |slots| == 0 {
          NextMonthPartFirstError(grid, j + 1, current, slots);
          return Err(IndexError);
        }
        if date <= DayOf(slots[|slots| - 1].start) {
          extra := extra + [date];
        }
      }
      j := j + 1;
    }
    assert grid[..j] == grid;
    return Ok(extra);
  }

  /** Draining `deque(dates)` with `popleft` yields the dates in order. */
  method Drain(dates: seq<int>) returns (r: Result<seq<int>>)
    ensures r == Ok(dates)
  {
    var queue := dates;
    var yielded: seq<int> := [];
    while |queue| > 0
      invariant yielded + queue == dates
      decreases |queue|
    {
      yielded := yielded + [queue[0]];
      queue := queue[1..];
    }
    assert yielded + queue == yielded;
    return Ok(yielded);
  }

  /** An exception raised while scanning a prefix of the grid is the one the
      whole scan raises. */
  lemma {:induction false} NextMonthPartFirstError(grid: seq<int>, k: nat, current: seq<int>, slots: seq<GetSlots.Slot>)
    requires k <= |grid|
    requires NextMonthPart(grid[..k], current, slots).Err?
    ensures NextMonthPart(grid, current, slots) == NextMonthPart(grid[..k], current, slots)
    decreases |grid| - k
  {
    if k < |grid| {
      assert grid[..k + 1][..k] == grid[..k];
      NextMonthPartFirstError(grid, k + 1, current, slots);
    } else {
      assert grid[..k] == grid;
    }
  }

  /** A date survives the filter exactly when it is in the grid and not
      before today. */
  lemma {:induction false} OnOrAfterMembers(grid: seq<int>, today: int, x: int)
    ensures x in OnOrAfter(grid, today) <==> x in grid && x >= today
    decreases |grid|
  {
    if grid != [] {
      var init := grid[..|grid| - 1];
      OnOrAfterMembers(init, today, x);
      assert grid == init + [Last(grid)];
    }
  }

  /** Filtering an increasing grid keeps it increasing. */
  lemma {:induction false} OnOrAfterIncreasing(grid: seq<int>, today: int)
    requires GetSlots.Increasing(grid)
    ensures GetSlots.Increasing(OnOrAfter(grid, today))
    decreases |grid|
  {
    if grid != [] {
      var init := grid[..|grid| - 1];
      OnOrAfterIncreasing(init, today);
      var f := OnOrAfter(init, today);
      forall k | 0 <= k < |f| ensures f[k] < Last(grid) {
        OnOrAfterMembers(init, today, f[k]);
      }
    }
  }

  /** Each date added from the next month is a grid date later than the last
      current date and no later than the last slot's date. */
  lemma {:induction false} NextMonthPartBounds(grid: seq<int>, current: seq<int>, slots: seq<GetSlots.Slot>)
    requires NextMonthPart(grid, current, slots).Ok?
    ensures grid != [] ==> |current| > 0
    ensures forall x :: x in NextMonthPart(grid, current, slots).value ==>
              x in grid && |current| > 0 && |slots| > 0 && Last(current) < x <= LastStartDay(slots)
    decreases |grid|
  {
    if grid != [] {
      var init := grid[..|grid| - 1];
      NextMonthPartBounds(init, current, slots);
      assert grid == init + [Last(grid)];
    }
  }

  /** The dates added from the next month keep grid order. */
  lemma {:induction false} NextMonthPartIncreasing(grid: seq<int>, current: seq<int>, slots: seq<GetSlots.Slot>)
    requires NextMonthPart(grid, current, slots).Ok? && GetSlots.Increasing(grid)
    ensures GetSlots.Increasing(NextMonthPart(grid, current, slots).value)
    decreases |grid|
  {
    if grid != [] {
      var init := grid[..|grid| - 1];
      var d := Last(grid);
      assert GetSlots.Increasing(init);
      NextMonthPartIncreasing(init, current, slots);
      NextMonthPartBounds(init, current, slots);
      var e := NextMonthPart(init, current, slots).value;
      if NextMonthPart(grid, current, slots).value != e {
        assert NextMonthPart(grid, current, slots).value == e + [d];
        if e != [] {
          BeforeLast(grid, Last(e));
          AppendLater(e, [d]);
        }
      }
    }
  }

  /** In an increasing sequence, every element before the last is smaller
      than it. */
  lemma BeforeLast(grid: seq<int>, x: int)
    requires GetSlots.Increasing(grid) && |grid| > 0 && x in grid[..|grid| - 1]
    ensures x < Last(grid)
  {
    var k :| 0 <= k < |grid| - 1 && grid[..|grid| - 1][k] == x;
    assert grid[k] == x;
  }

  /** The only exception the next-month scan raises is `IndexError`, and it
      succeeds exactly when the grid is empty, or there are current dates and
      either slots or no grid date after the last current one. */
  lemma {:induction false} NextMonthPartOutcome(grid: seq<int>, current: seq<int>, slots: seq<GetSlots.Slot>)
    ensures NextMonthPart(grid, current, slots).Err? ==> NextMonthPart(grid, current, slots).error == IndexError
    ensures NextMonthPart(grid, current, slots).Ok?
        <==> grid == [] || (|current| > 0 && (|slots| > 0 || forall x :: x in grid ==> x <= Last(current)))
    decreases |grid|
  {
    if grid != [] {
      var init := grid[..|grid| - 1];
      NextMonthPartOutcome(init, current, slots);
      assert grid == init + [Last(grid)];
      assert forall x :: x in grid <==> x in init || x == Last(grid);
      var r, ri := NextMonthPart(grid, current, slots), NextMonthPart(init, current, slots);
      if ri.Ok? && |current| > 0 && |slots| == 0 {
        if Last(grid) <= Last(current) {
          forall x | x in grid ensures x <= Last(current) {
            if x in init { }
          }
        } else {
          assert Last(grid) in grid;
        }
      }
    }
  }

  /** A successful `month_date` is the current dates followed by the
      next-month scan. A proof step only: it unfolds the definition of
      `MonthDatesIn` and states no further property. */
  lemma MonthDatesInOk(gridYear: int, today: int, slots: seq<GetSlots.Slot>)
    requires MonthDatesIn(gridYear, today, slots).Ok?
    ensures CurrentMonth(today) <= 11
    ensures NextMonthPart(GridDays(gridYear, CurrentMonth(today) + 1), CurrentDates(gridYear, today), slots).Ok?
    ensures MonthDatesIn(gridYear, today, slots).value
         == CurrentDates(gridYear, today)
            + NextMonthPart(GridDays(gridYear, CurrentMonth(today) + 1), CurrentDates(gridYear, today), slots).value
  {
  }

  /** Appending later increasing dates to increasing dates keeps them
      increasing. */
  lemma AppendLater(cur: seq<int>, extra: seq<int>)
    requires GetSlots.Increasing(cur) && GetSlots.Increasing(extra)
    requires forall x :: x in extra ==> |cur| > 0 && Last(cur) < x
    ensures GetSlots.Increasing(cur + extra)
  {
    var r := cur + extra;
    forall i, j | 0 <= i < j < |r| ensures r[i] < r[j] {
      if j >= |cur| {
        assert r[j] == extra[j - |cur|] && r[j] in extra;
        if i < |cur| {
          assert r[i] == cur[i];
        } else {
          assert r[i] == extra[i - |cur|];
        }
      }
    }
  }

  /** The current dates ascend, are not before today and end with the
      latest of them. */
  lemma CurrentDatesAscending(gridYear: int, today: int)
    ensures GetSlots.Increasing(CurrentDates(gridYear, today))
    ensures forall x :: x in CurrentDates(gridYear, today) ==> today <= x <= Last(CurrentDates(gridYear, today))
  {
    var grid := GridDays(gridYear, CurrentMonth(today));
    var cur := CurrentDates(gridYear, today);
    MonthGridShape(gridYear, CurrentMonth(today));
    assert GetSlots.Increasing(grid);
    OnOrAfterIncreasing(grid, today);
    forall x | x in cur ensures today <= x <= Last(cur) {
      OnOrAfterMembers(grid, today, x);
      var k :| 0 <= k < |cur| && cur[k] == x;
      if k < |cur| - 1 {
        assert cur[k] < cur[|cur| - 1];
      }
    }
  }

  /** `month_date` yields strictly ascending dates, none before today. */
  lemma MonthDatesAscending(gridYear: int, today: int, slots: seq<GetSlots.Slot>)
    requires MonthDatesIn(gridYear, today, slots).Ok?
    ensures GetSlots.Increasing(MonthDatesIn(gridYear, today, slots).value)
    ensures forall x :: x in MonthDatesIn(gridYear, today, slots).value ==> x >= today
  {
    MonthDatesInOk(gridYear, today, slots);
    var cur := CurrentDates(gridYear, today);
    var next := GridDays(gridYear, CurrentMonth(today) + 1);
    var extra := NextMonthPart(next, cur, slots).value;
    MonthGridShape(gridYear, CurrentMonth(today) + 1);
    assert GetSlots.Increasing(next);
    NextMonthPartBounds(next, cur, slots);
    NextMonthPartIncreasing(next, cur, slots);
    CurrentDatesAscending(gridYear, today);
    AppendLater(cur, extra);
    forall x | x in cur + extra ensures x >= today {
      if x in extra {
        assert Last(cur) in cur;
      }
    }
  }

  /** `month_date` yields the current dates first and then next-month dates
      that lie strictly after the last current date and no later than the
      date of the last slot. */
  lemma MonthDatesExtension(gridYear: int, today: int, slots: seq<GetSlots.Slot>)
    requires MonthDatesIn(gridYear, today, slots).Ok?
    ensures |CurrentDates(gridYear, today)| <= |MonthDatesIn(gridYear, today, slots).value|
    ensures MonthDatesIn(gridYear, today, slots).value[..|CurrentDates(gridYear, today)|] == CurrentDates(gridYear, today)
    ensures forall x :: x in MonthDatesIn(gridYear, today, slots).value[|CurrentDates(gridYear, today)|..] ==>
              |slots| > 0 && |CurrentDates(gridYear, today)| > 0
              && Last(CurrentDates(gridYear, today)) < x <= LastStartDay(slots)
              && x in GridDays(gridYear, CurrentMonth(today) + 1)
  {
    MonthDatesInOk(gridYear, today, slots);
    var cur := CurrentDates(gridYear, today);
    var next := GridDays(gridYear, CurrentMonth(today) + 1);
    var extra := NextMonthPart(next, cur, slots).value;
    NextMonthPartBounds(next, cur, slots);
    var r := MonthDatesIn(gridYear, today, slots).value;
    assert r == cur + extra;
    assert r[..|cur|] == cur;
    assert r[|cur|..] == extra;
  }

  /** `month_date` succeeds exactly when the month is not December, some
      date of this month's grid is today or later, and there is at least one
      slot; December raises `ValueError` and every other failure is an
      `IndexError`. */
  lemma MonthDatesOutcome(gridYear: int, today: int, slots: seq<GetSlots.Slot>)
    ensures MonthDatesIn(gridYear, today, slots).Ok?
        <==> CurrentMonth(today) <= 11 && |CurrentDates(gridYear, today)| > 0 && |slots| > 0
    ensures MonthDatesIn(gridYear, today, slots).Err? ==>
              (MonthDatesIn(gridYear, today, slots).error == ValueError <==> CurrentMonth(today) == 12)
  {
    var m := CurrentMonth(today);
    var cur := CurrentDates(gridYear, today);
    if m <= 11 {
      var grid := GridDays(gridYear, m);
      var next := GridDays(gridYear, m + 1);
      NextMonthPartOutcome(next, cur, slots);
      MonthGridShape(gridYear, m);
      MonthGridShape(gridYear, m + 1);
      NextMonthFirst(gridYear, m);
      if |cur| > 0 && |slots| == 0 {
        assert Last(cur) in cur;
        OnOrAfterMembers(grid, today, Last(cur));
        assert Last(cur) <= Last(grid);
        assert Last(next) in next;
      }
    }
  }

  /** Once the grid year is over, `month_date` always raises: the grids it
      builds are all in the past. */
  lemma MonthDatesFailAfterGridYear(gridYear: int, today: int, slots: seq<GetSlots.Slot>)
    requires CivilFromDays(today).year > gridYear
    ensures MonthDatesIn(gridYear, today, slots).Err?
  {
    var m := CurrentMonth(today);
    if m <= 11 {
      var grid := GridDays(gridYear, m);
      MonthGridShape(gridYear, m);
      YearStep(gridYear);
      YearMonotone(gridYear + 1, CivilFromDays(today).year);
      MonthBound(gridYear, m + 1);
      MonthStep(gridYear, m);
      assert Last(grid) < today;
      if |CurrentDates(gridYear, today)| > 0 {
        var x := CurrentDates(gridYear, today)[0];
        OnOrAfterMembers(grid, today, x);
      }
      MonthDatesOutcome(gridYear, today, slots);
    }
  }

  /** A target time zone (`ZoneInfo(timezone)`): the UTC offset, in seconds,
      in force at each UTC instant. */
  type Zone = int -> int

  /** The wall-clock reading of UTC instant `t` in `zone` (`astimezone`). */
  function Local(zone: Zone, t: int): int {
    t + zone(t)
  }

  /** The group key of a date: `date.ctime().split(" 00")[0]`. */
  function DateKey(day: int): string {
    Split(CTime(day), " 00")[0]
  }

  /** The `"%I:%M %p"` labels, in the target zone, of the slots whose UTC
      start date is `day`, in slot order. */
  function TimesFor(day: int, slots: seq<GetSlots.Slot>, zone: Zone): seq<string>
    decreases |slots|
  {
    if slots == [] then []
    else
      var t := slots[|slots| - 1].start;
      TimesFor(day, slots[..|slots| - 1], zone) + (if DayOf(t) == day then [ClockLabel(Local(zone, t))] else [])
  }

  /** The dictionary built for one date. */
  function Group(day: int, slots: seq<GetSlots.Slot>, zone: Zone): map<string, seq<string>> {
    if TimesFor(day, slots, zone) == [] then map[] else map[DateKey(day) := TimesFor(day, slots, zone)]
  }

  /** The dictionaries yielded for the enumerated `dates`, in order; empty
      ones are not yielded. */
  function Groups(dates: seq<int>, slots: seq<GetSlots.Slot>, zone: Zone): seq<map<string, seq<string>>>
    decreases |dates|
  {
    if dates == [] then []
    else
      var g := Group(Last(dates), slots, zone);
      Groups(dates[..|dates| - 1], slots, zone) + (if g != map[] then [g] else [])
  }

  /** What `sorter(timezone, dates)` yields. */
  function Sorted(today: int, zone: Zone, slots: seq<GetSlots.Slot>): Result<seq<map<string, seq<string>>>> {
    var dates :- MonthDates(today, slots);
    Ok(Groups(dates, slots, zone))
  }

  /** One more enumerated date adds its dictionary, when not empty. */
  lemma GroupsSnoc(dates: seq<int>, i: int, slots: seq<GetSlots.Slot>, zone: Zone)
    requires 0 <= i < |dates|
    ensures var g := Group(dates[i], slots, zone);
      Groups(dates[..i + 1], slots, zone) == Groups(dates[..i], slots, zone) + (if g != map[] then [g] else [])
  {
    assert dates[..i + 1][..i] == dates[..i];
    assert Last(dates[..i + 1]) == dates[i];
  }

  /** `sorter`, with today's date and the target zone passed in; the
      generator's output is returned as a sequence. */
  method Sorter(today: int, zone: Zone, slots: seq<GetSlots.Slot>) returns (r: Result<seq<map<string, seq<string>>>>)
    ensures r == Sorted(today, zone, slots)
  {
    var dates :- MonthDate(today, slots);
    var yielded: seq<map<string, seq<string>>> := [];
    var i := 0;
    while i < |dates|
      invariant 0 <= i <= |dates|
      invariant yielded == Groups(dates[..i], slots, zone)
    {
      GroupsSnoc(dates, i, slots, zone);
      var date := dates[i];
      var dateTimeslots := TimeslotsFor(date, slots, zone);
      if dateTimeslots != map[] {
        yielded := yielded + [dateTimeslots];
      }
      i := i + 1;
    }
    assert dates[..i] == dates;
    return Ok(yielded);
  }

  /** The inner loop of `sorter` for one date. */
  method TimeslotsFor(date: int, slots: seq<GetSlots.Slot>, zone: Zone) returns (dateTimeslots: map<string, seq<string>>)
    ensures dateTimeslots == Group(date, slots, zone)
  {
    dateTimeslots := map[];
    var timeslots: seq<string> := [];
    var j := 0;
    while j < |slots|
      invariant 0 <= j <= |slots|
      invariant timeslots == TimesFor(date, slots[..j], zone)
      invariant dateTimeslots == if timeslots == [] then map[] else map[DateKey(date) := timeslots]
    {
      assert slots[..j + 1][..j] == slots[..j];
      var eventStart := slots[j].start;
      if DayOf(eventStart) == date {
        var name := Split(CTime(date), " 00")[0];
        timeslots := timeslots + [ClockLabel(Local(zone, eventStart))];
        dateTimeslots := dateTimeslots[name := timeslots];
      }
      j := j + 1;
    }
    assert slots[..j] == slots;
  }

  /** The indices of the slots whose UTC start date is `day`, in order. */
  function MatchingIndices(day: int, slots: seq<GetSlots.Slot>): seq<int>
    decreases |slots|
  {
    if slots == [] then []
    else
      MatchingIndices(day, slots[..|slots| - 1])
        + (if DayOf(slots[|slots| - 1].start) == day then [|slots| - 1] else [])
  }

  /** The matching indices are exactly the slots that start on `day`, listed
      once each in increasing order. */
  lemma {:induction false} MatchingIndicesSpec(day: int, slots: seq<GetSlots.Slot>)
    ensures forall k :: k in MatchingIndices(day, slots) <==> 0 <= k < |slots| && DayOf(slots[k].start) == day
    ensures GetSlots.Increasing(MatchingIndices(day, slots))
    decreases |slots|
  {
    if slots != [] {
      var init := slots[..|slots| - 1];
      MatchingIndicesSpec(day, init);
      var mi := MatchingIndices(day, init);
      forall k | k in mi ensures k < |slots| - 1 && slots[k] == init[k] {
      }
      var m := MatchingIndices(day, slots);
      forall i, j | 0 <= i < j < |m| ensures m[i] < m[j] {
        if j >= |mi| {
          assert m[i] == mi[i] && m[i] in mi;
        }
      }
    }
  }

  /** A date's group holds one label per slot starting on it, in slot
      order: the label of the i-th such slot, converted to the zone. */
  lemma {:induction false} TimesForSpec(day: int, slots: seq<GetSlots.Slot>, zone: Zone)
    ensures |TimesFor(day, slots, zone)| == |MatchingIndices(day, slots)|
    ensures forall i :: 0 <= i < |TimesFor(day, slots, zone)| ==>
              0 <= MatchingIndices(day, slots)[i] < |slots|
              && TimesFor(day, slots, zone)[i] == ClockLabel(Local(zone, slots[MatchingIndices(day, slots)[i]].start))
    decreases |slots|
  {
    if slots != [] {
      var init := slots[..|slots| - 1];
      TimesForSpec(day, init, zone);
      MatchingIndicesSpec(day, init);
      var mi := MatchingIndices(day, init);
      forall i | 0 <= i < |mi| ensures 0 <= mi[i] < |init| && slots[mi[i]] == init[mi[i]] {
        assert mi[i] in mi;
      }
    }
  }

  /** Every yielded dictionary has the single key of an enumerated date
      that has slots, mapped to that date's labels; no more dictionaries are
      yielded than there are dates. */
  lemma {:induction false} GroupsSound(dates: seq<int>, slots: seq<GetSlots.Slot>, zone: Zone)
    ensures forall g :: g in Groups(dates, slots, zone) ==>
              exists d :: d in dates && TimesFor(d, slots, zone) != [] && g == map[DateKey(d) := TimesFor(d, slots, zone)]
    ensures |Groups(dates, slots, zone)| <= |dates|
    decreases |dates|
  {
    if dates != [] {
      var init := dates[..|dates| - 1];
      GroupsSound(init, slots, zone);
      var last := Group(Last(dates), slots, zone);
      forall g | g in Groups(dates, slots, zone)
        ensures exists d :: d in dates && TimesFor(d, slots, zone) != [] && g == map[DateKey(d) := TimesFor(d, slots, zone)]
      {
        if g in Groups(init, slots, zone) {
          var d :| d in init && TimesFor(d, slots, zone) != [] && g == map[DateKey(d) := TimesFor(d, slots, zone)];
          assert d in dates;
        } else {
          assert g == last;
          assert Last(dates) in dates;
        }
      }
    }
  }

  /** Every enumerated date that has slots gets its dictionary. */
  lemma {:induction false} GroupsComplete(dates: seq<int>, slots: seq<GetSlots.Slot>, zone: Zone, d: int)
    requires d in dates && TimesFor(d, slots, zone) != []
    ensures map[DateKey(d) := TimesFor(d, slots, zone)] in Groups(dates, slots, zone)
    decreases |dates|
  {
    var init := dates[..|dates| - 1];
    assert dates == init + [Last(dates)];
    var g := map[DateKey(d) := TimesFor(d, slots, zone)];
    var last := Group(Last(dates), slots, zone);
    var gs := Groups(init, slots, zone);
    assert Groups(dates, slots, zone) == gs + (if last != map[] then [last] else []);
    if d in init {
      GroupsComplete(init, slots, zone, d);
      assert g in gs;
    } else {
      assert d == Last(dates);
      assert DateKey(d) in last;
      assert last == g;
    }
  }

  /** The enumerated dates that have at least one slot, in order. */
  function DatesWithSlots(dates: seq<int>, slots: seq<GetSlots.Slot>, zone: Zone): (r: seq<int>)
    ensures |r| <= |dates|
    ensures forall x :: x in r <==> x in dates && TimesFor(x, slots, zone) != []
    decreases |dates|
  {
    if dates == [] then []
    else
      var init := dates[..|dates| - 1];
      assert forall x :: x in dates <==> x in init || x == Last(dates);
      DatesWithSlots(init, slots, zone)
        + (if TimesFor(Last(dates), slots, zone) != [] then [Last(dates)] else [])
  }

  /** Ascending dates keep ascending when those without slots are dropped. */
  lemma {:induction false} DatesWithSlotsIncreasing(dates: seq<int>, slots: seq<GetSlots.Slot>, zone: Zone)
    requires GetSlots.Increasing(dates)
    ensures GetSlots.Increasing(DatesWithSlots(dates, slots, zone))
    decreases |dates|
  {
    if dates != [] {
      var init := dates[..|dates| - 1];
      assert GetSlots.Increasing(init);
      DatesWithSlotsIncreasing(init, slots, zone);
      var w := DatesWithSlots(init, slots, zone);
      if TimesFor(Last(dates), slots, zone) != [] && w != [] {
        assert Last(w) in init;
        BeforeLast(dates, Last(w));
        AppendLater(w, [Last(dates)]);
      }
    }
  }

  /** `sorter` yields one dictionary per enumerated date that has slots,
      in the order of the dates: the i-th is keyed by the i-th such date and
      holds its labels. */
  lemma {:induction false} GroupsInOrder(dates: seq<int>, slots: seq<GetSlots.Slot>, zone: Zone)
    ensures |Groups(dates, slots, zone)| == |DatesWithSlots(dates, slots, zone)|
    ensures forall i :: 0 <= i < |Groups(dates, slots, zone)| ==>
      var d := DatesWithSlots(dates, slots, zone)[i];
      Groups(dates, slots, zone)[i] == map[DateKey(d) := TimesFor(d, slots, zone)]
    decreases |dates|
  {
    if dates != [] {
      var init := dates[..|dates| - 1];
      GroupsInOrder(init, slots, zone);
      var last := Last(dates);
      var g := Group(last, slots, zone);
      var gs, ws := Groups(init, slots, zone), DatesWithSlots(init, slots, zone);
      var extraG, extraW := if g != map[] then [g] else [], if TimesFor(last, slots, zone) != [] then [last] else [];
      assert Groups(dates, slots, zone) == gs + extraG;
      assert DatesWithSlots(dates, slots, zone) == ws + extraW;
      if TimesFor(last, slots, zone) != [] {
        assert DateKey(last) in g;
      }
      assert |extraG| == |extraW|;
      forall i | 0 <= i < |gs + extraG|
        ensures (gs + extraG)[i] == map[DateKey((ws + extraW)[i]) := TimesFor((ws + extraW)[i], slots, zone)]
      {
        if i < |gs| {
          assert (gs + extraG)[i] == gs[i] && (ws + extraW)[i] == ws[i];
        }
      }
    }
  }

  /** A slot whose UTC date is enumerated is shown: its label appears in the
      group of that date. */
  lemma SlotShown(dates: seq<int>, slots: seq<GetSlots.Slot>, zone: Zone, k: int)
    requires 0 <= k < |slots| && DayOf(slots[k].start) in dates
    ensures var d := DayOf(slots[k].start);
      map[DateKey(d) := TimesFor(d, slots, zone)] in Groups(dates, slots, zone)
      && ClockLabel(Local(zone, slots[k].start)) in TimesFor(d, slots, zone)
  {
    var d := DayOf(slots[k].start);
    MatchingIndicesSpec(d, slots);
    TimesForSpec(d, slots, zone);
    var mi := MatchingIndices(d, slots);
    assert k in mi;
    var i :| 0 <= i < |mi| && mi[i] == k;
    assert TimesFor(d, slots, zone)[i] == ClockLabel(Local(zone, slots[k].start));
    GroupsComplete(dates, slots, zone, d);
  }

  /** The text of a group key. */
  function DayLabel(day: int): (r: string)
    ensures |r| == 10
  {
    var d := CivilFromDays(day);
    DayName(Weekday(day)) + " " + MonthName(d.month) + " " + SpacePad2(d.day)
  }

  /** Names are made of letters. */
  lemma NamesAreLetters(w: int, m: int)
    requires 0 <= w < 7 && 1 <= m <= 12
    ensures |DayName(w)| == 3 && |MonthName(m)| == 3
    ensures forall j :: 0 <= j < 3 ==> 'A' <= DayName(w)[j] <= 'z' && 'A' <= MonthName(m)[j] <= 'z'
  {
  }

  /** The group key is the date's `"Dow Mon DD"`, the day padded with a
      space: the first `" 00"` of the `ctime()` text is that of midnight. */
  lemma DateKeyShape(day: int)
    ensures DateKey(day) == DayLabel(day)
  {
    var d := CivilFromDays(day);
    var p := DayLabel(day);
    var s := CTime(day);
    var sep := " 00";
    assert s == p + " 00:00:00 " + YearText(d.year);
    NamesAreLetters(Weekday(day), d.month);
    assert OccursAt(s, sep, 10) by {
      assert s[10..13] == sep;
    }
    forall k | 0 <= k < 10 ensures !OccursAt(s, sep, k) {
      assert s[k] == p[k];
      assert s[k + 1] == if k < 9 then p[k + 1] else ' ';
      assert s[k] != ' ' || s[k + 1] != '0';
      assert s[k..k + 3][0] == s[k] && s[k..k + 3][1] == s[k + 1];
    }
    assert Find(s, sep, 0) == Some(10);
    assert s[..10] == p;
  }

  // ---- format_input_time ----

  /** `datetime.replace(year=y)`: the other fields are kept, and a year out
      of range or a day the new month lacks raises. */
  function ReplaceYear(d: DateTime, y: int): (r: Result<DateTime>)
    ensures r.Ok? <==> 1 <= y <= 9999 && 1 <= d.month <= 12 && 1 <= d.day <= DaysInMonth(y, d.month)
    ensures r.Ok? ==> r.value == d.(year := y)
  {
    if 1 <= y <= 9999 && 1 <= d.month <= 12 && 1 <= d.day <= DaysInMonth(y, d.month) then Ok(d.(year := y))
    else Err(ValueError)
  }

  /** A day of a month in 1900 is a day of that month in every year, so
      moving a parsed date of 1900 to another year of Python's range
      succeeds. */
  lemma MoveFrom1900(d: DateTime, currentYear: int)
    requires d.year == DefaultYear && ValidDate(Date(DefaultYear, d.month, d.day))
    requires 1 <= currentYear <= 9999
    ensures ReplaceYear(d, d.year + (currentYear - DefaultYear)) == Ok(d.(year := currentYear))
    ensures ValidDate(Date(currentYear, d.month, d.day))
  {
    assert DaysInMonth(DefaultYear, d.month) <= DaysInMonth(currentYear, d.month);
  }

  /** Lines 116-118 of `format_input_time`: the parsed label `start`
      moved by the years from 1900 to `currentYear`. */
  function MoveToYear(parsed: Result<DateTime>, currentYear: int): (r: Result<DateTime>)
  {
    match parsed
    case Err(e) => Err(e)
    case Ok(start) => ReplaceYear(start, start.year + (currentYear - DefaultYear))
  }

  /** A parse of 1900 moves to every year of Python's range, and lands on
      a valid date there; a failed parse stays failed. */
  lemma MoveToYearValid(parsed: Result<DateTime>, currentYear: int)
    requires 1 <= currentYear <= 9999
    requires parsed.Ok? ==> parsed.value.year == DefaultYear
    requires parsed.Ok? ==> ValidDate(Date(DefaultYear, parsed.value.month, parsed.value.day))
    ensures MoveToYear(parsed, currentYear).Ok? <==> parsed.Ok?
    ensures parsed.Ok? ==> MoveToYear(parsed, currentYear) == Ok(parsed.value.(year := currentYear))
    ensures parsed.Ok? ==> ValidDate(Date(currentYear, parsed.value.month, parsed.value.day))
  {
    if parsed.Ok? {
      MoveFrom1900(parsed.value, currentYear);
    }
  }

  /** `format_input_time(time)`, with the year of `datetime.now()` passed
      in as `currentYear`: the label is parsed in 1900 and moved to the
      current year. */
  function FormatInputTime(time: string, currentYear: int): (r: Result<DateTime>)
  {
    MoveToYear(StrptimeSlotLabel(time), currentYear)
  }

  /** `format_input_time` fails exactly when the parse does: moving a date
      of 1900 to another year leaves it valid. What it returns is the parse
      in the current year, a valid date on the minute. */
  lemma FormatInputTimeValid(time: string, currentYear: int)
    requires 1 <= currentYear <= 9999
    ensures FormatInputTime(time, currentYear).Ok? <==> StrptimeSlotLabel(time).Ok?
    ensures FormatInputTime(time, currentYear).Ok? ==>
      FormatInputTime(time, currentYear).value == StrptimeSlotLabel(time).value.(year := currentYear)
    ensures FormatInputTime(time, currentYear).Ok? ==>
      var r := FormatInputTime(time, currentYear).value;
      r.year == currentYear && r.second == 0 && ValidDate(Date(currentYear, r.month, r.day))
  {
    MoveToYearValid(StrptimeSlotLabel(time), currentYear);
  }

  /** A label is read back as its month, day and wall-clock time in the
      current year; its weekday name plays no part. */
  lemma FormatInputTimeOfLabel(w: int, month: int, day: int, local: int, currentYear: int)
    requires 0 <= w < 7 && ValidDate(Date(DefaultYear, month, day)) && 1 <= currentYear <= 9999
    ensures FormatInputTime(LabelText(w, month, day, local), currentYear)
         == Ok(DateTime(currentYear, month, day, HourOf(local), MinuteOf(local), 0))
  {
    StrptimeLabelText(w, month, day, local);
    FormatInputTimeValid(LabelText(w, month, day, local), currentYear);
  }

  /** A label for February 29 raises `ValueError`, whatever the year. */
  lemma FormatInputTimeLeapDay(w: int, local: int, currentYear: int)
    requires 0 <= w < 7 && 1 <= currentYear <= 9999
    ensures FormatInputTime(LabelText(w, 2, 29, local), currentYear) == Err(ValueError)
  {
    StrptimeLabelLeapDay(w, local);
  }

  /** The text a slot offered by `sorter` is booked with: its group key, a
      `T`, and its time label. */
  lemma DateKeyLabel(day: int, local: int)
    ensures var d := CivilFromDays(day);
      DateKey(day) + "T" + ClockLabel(local) == LabelText(Weekday(day), d.month, d.day, local)
  {
    DateKeyShape(day);
  }

  /** Booking an offered slot gives back its UTC start date (that of the
      group key) with the wall-clock time of its label, in the current year;
      a slot on February 29 cannot be booked. */
  lemma FormatInputTimeOfOffer(day: int, local: int, currentYear: int)
    requires 1 <= currentYear <= 9999
    ensures var d := CivilFromDays(day);
      var r := FormatInputTime(DateKey(day) + "T" + ClockLabel(local), currentYear);
      && (d.month == 2 && d.day == 29 ==> r == Err(ValueError))
      && (!(d.month == 2 && d.day == 29) ==>
            r == Ok(DateTime(currentYear, d.month, d.day, HourOf(local), MinuteOf(local), 0)))
  {
    var d := CivilFromDays(day);
    DateKeyLabel(day, local);
    if d.month == 2 && d.day == 29 {
      FormatInputTimeLeapDay(Weekday(day), local, currentYear);
    } else {
      FormatInputTimeOfLabel(Weekday(day), d.month, d.day, local, currentYear);
    }
  }

  /** The label round trip: when a slot's UTC date and its date in the
      target zone coincide, and the current year is that date's year,
      booking the slot's label and reading the result at the zone's offset
      gives back the slot's start to the minute. */
  lemma BookedSlotInstant(t: int, zone: Zone)
    requires DayOf(Local(zone, t)) == DayOf(t)
    requires var d := CivilFromDays(DayOf(t));
      !(d.month == 2 && d.day == 29) && 1 <= d.year <= 9999
    ensures var local := Local(zone, t);
      var d := CivilFromDays(DayOf(t));
      var r := FormatInputTime(DateKey(DayOf(t)) + "T" + ClockLabel(local), d.year);
      && r.Ok?
      && InstantOf(Aware(r.value, zone(t))) == t - TimeOfDay(local) % 60
  {
    var local := Local(zone, t);
    var d := CivilFromDays(DayOf(t));
    FormatInputTimeOfOffer(DayOf(t), local, d.year);
    WallClockInstant(local, zone(t));
  }

  /** A wall clock read to the minute at a UTC offset denotes the instant
      less its seconds. */
  lemma WallClockInstant(local: int, offset: int)
    ensures var d := CivilFromDays(DayOf(local));
      InstantOf(Aware(DateTime(d.year, d.month, d.day, HourOf(local), MinuteOf(local), 0), offset))
        == local - offset - TimeOfDay(local) % 60
  {
    assert TimeOfDay(local) == HourOf(local) * 3600 + MinuteOf(local) * 60 + TimeOfDay(local) % 60;
    assert local == DayOf(local) * SecondsPerDay + TimeOfDay(local);
  }

  // ---- format_response_time ----

  /** The dictionary describing instant `t` in `zone`: its `"%I:%M %p"`
      clock time and its `"%a, %b %d"` date there. */
  function Response(t: int, zone: Zone): map<string, string>
  {
    map["time" := ClockLabel(Local(zone, t)), "date" := BookingDate(Local(zone, t))]
  }

  /** The instant an event timestamp denotes, as `strptime` with `%z`
      reads it. */
  function ParsedInstant(dateTime: string): (r: Result<int>)
    ensures r.Ok? <==> StrptimeTimestamp(dateTime).Ok?
  {
    var a :- StrptimeTimestamp(dateTime);
    Ok(InstantOf(a))
  }

  /** `format_response_time(date_time, zone)`: the timestamp is parsed with
      its offset and the instant it denotes is described in `zone`. */
  function FormatResponseTime(dateTime: string, zone: Zone): (r: Result<map<string, string>>)
    ensures r.Ok? <==> StrptimeTimestamp(dateTime).Ok?
  {
    var t :- ParsedInstant(dateTime);
    Ok(Response(t, zone))
  }

  /** What a reader takes from a `"hh:mm AM"` text: the twelve-hour hour
      with AM or PM gives the hour of the wall clock `local`, and the minute
      is its minute. */
  predicate ReadsAsClock(text: string, local: int) {
    && |text| == 8 && TwoDigitsAt(text, 0) && text[2] == ':' && TwoDigitsAt(text, 3)
    && text[5] == ' ' && (text[6] == 'A' || text[6] == 'P') && text[7] == 'M'
    && 1 <= TwoDigitValue(text, 0) <= 12
    && Hour24(TwoDigitValue(text, 0), text[6] == 'P') == HourOf(local)
    && TwoDigitValue(text, 3) == MinuteOf(local)
  }

  /** What a reader takes from a `"Dow, Mon DD"` text: the weekday, the
      month and the day of the month of the wall clock `local`. */
  predicate ReadsAsDate(text: string, local: int) {
    var d := CivilFromDays(DayOf(local));
    && |text| == 11 && text[..3] == DayName(Weekday(DayOf(local))) && text[3] == ',' && text[4] == ' '
    && text[5..8] == MonthName(d.month) && text[8] == ' '
    && TwoDigitsAt(text, 9) && TwoDigitValue(text, 9) == d.day
  }

  /** The `"%I:%M %p"` text of a wall clock reads as that clock's hour and
      minute. */
  lemma ClockLabelReads(local: int)
    ensures ReadsAsClock(ClockLabel(local), local)
  {
    var h := Hour12(HourOf(local));
    var mi := MinuteOf(local);
    DigitValueOf(h / 10);
    DigitValueOf(h % 10);
    DigitValueOf(mi / 10);
    DigitValueOf(mi % 10);
    Hour24OfHour12(HourOf(local));
  }

  /** The `"%a, %b %d"` text of a wall clock reads as that clock's date. */
  lemma BookingDateReads(local: int)
    ensures ReadsAsDate(BookingDate(local), local)
  {
    var d := CivilFromDays(DayOf(local));
    NamesAreLetters(Weekday(DayOf(local)), d.month);
    var text := BookingDate(local);
    var p := Pad2(d.day);
    assert text == DayName(Weekday(DayOf(local))) + ", " + MonthName(d.month) + " " + p;
    assert text[9] == p[0] && text[10] == p[1];
    DigitValueOf(d.day / 10);
    DigitValueOf(d.day % 10);
  }

  /** The response to a timestamp that parses holds exactly a `"time"` and a
      `"date"`, which read as the clock and the date of the denoted instant in
      the target zone. */
  lemma FormatResponseTimeOf(dateTime: string, zone: Zone, a: AwareDateTime, t: int)
    requires StrptimeTimestamp(dateTime) == Ok(a) && InstantOf(a) == t
    ensures ParsedInstant(dateTime) == Ok(t)
    ensures FormatResponseTime(dateTime, zone) == Ok(Response(t, zone))
    ensures var r := Response(t, zone);
      && r.Keys == {"time", "date"}
      && ReadsAsClock(r["time"], Local(zone, t)) && ReadsAsDate(r["date"], Local(zone, t))
  {
    ClockLabelReads(Local(zone, t));
    BookingDateReads(Local(zone, t));
  }

  /** The response for an event time the calendar service wrote describes
      that instant in the target zone. */
  lemma FormatResponseTimeOfIsoFormat(local: int, offset: int, zone: Zone)
    requires MinuteOffset(offset) && 1 <= CivilFromDays(DayOf(local)).year <= 9999
    ensures ParsedInstant(IsoFormat(local, offset)) == Ok(local - offset)
    ensures FormatResponseTime(IsoFormat(local, offset), zone) == Ok(Response(local - offset, zone))
    ensures var r := Response(local - offset, zone);
      ReadsAsClock(r["time"], Local(zone, local - offset)) && ReadsAsDate(r["date"], Local(zone, local - offset))
  {
    StrptimeIsoFormat(local, offset);
    FormatResponseTimeOf(IsoFormat(local, offset), zone, IsoFieldsOf(CivilFromDays(DayOf(local)), local, offset),
                         local - offset);
  }

  /** Only the instant a timestamp denotes matters: two timestamps for the
      same instant, whatever their offsets, get the same response. */
  lemma FormatResponseTimeInstantOnly(dateTime1: string, dateTime2: string, zone: Zone)
    requires ParsedInstant(dateTime1).Ok? && ParsedInstant(dateTime1) == ParsedInstant(dateTime2)
    ensures FormatResponseTime(dateTime1, zone) == FormatResponseTime(dateTime2, zone)
  {
    var a1 := StrptimeTimestamp(dateTime1).value;
    var a2 := StrptimeTimestamp(dateTime2).value;
    FormatResponseTimeOf(dateTime1, zone, a1, InstantOf(a1));
    FormatResponseTimeOf(dateTime2, zone, a2, InstantOf(a1));
  }

  /** A timestamp without its UTC offset is rejected. */
  lemma FormatResponseTimeNaive(local: int, offset: int, zone: Zone)
    requires MinuteOffset(offset) && 1 <= CivilFromDays(DayOf(local)).year <= 9999
    ensures FormatResponseTime(IsoFormat(local, offset)[..19], zone) == Err(ValueError)
  {
    StrptimeNaiveIsoText(CivilFromDays(DayOf(local)), local, offset);
  }
}
