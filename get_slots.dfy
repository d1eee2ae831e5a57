/** The open-slot generator: walk a 30-day UTC window in 40-minute strides
    and keep each half-hour candidate that meets no busy interval, starts
    within the 05:00:00 to 13:30:59 UTC window and falls Monday to Friday.
    Instants are seconds since 1970-01-01T00:00:00Z; `now` and the busy
    intervals of the free/busy answer are parameters. */
module GetSlots {
  import opened Civil

  /** A busy interval `[start, end)` as the free/busy answer gives it. */
  datatype Interval = Interval(start: int, end: int)

  /** An offered appointment: both instants are inside the slot. */
  datatype Slot = Slot(start: int, end: int)

  /** The search range is 30 days long. */
  const Lookahead := 30 * SecondsPerDay
  /** 05:00:00 UTC (08:00 in East Africa). */
  const DayStart := 5 * 3600
  /** 13:30:59 UTC: candidates must start strictly before it. */
  const DayEnd := 13 * 3600 + 30 * 60 + 59
  /** A slot ends 29 minutes 59 seconds after it starts. */
  const SlotLength := 29 * 60 + 59
  /** 30 minutes of meeting and 10 minutes of allowance. */
  const Stride := 40 * 60
  /** A candidate before 01:00 (and after midnight) jumps to 05:00. */
  const RolloverEnd := 3600

  function WindowEnd(now: int): int {
    now + Lookahead
  }

  /** The first candidate: `now`, or 05:00:00 of the same date when `now`
      is earlier in the day. */
  function FirstCandidate(now: int): (r: int)
    ensures now <= r
    ensures TimeOfDay(now) >= DayStart ==> r == now
    ensures TimeOfDay(now) < DayStart ==> DayOf(r) == DayOf(now) && TimeOfDay(r) == DayStart
  {
    if TimeOfDay(now) < DayStart then DayOf(now) * SecondsPerDay + DayStart else now
  }

  predicate Within(x: int, b: Interval) {
    b.start <= x < b.end
  }

  /** The busy interval covers the candidate's start or its end. */
  predicate Taken(t: int, b: Interval) {
    Within(t, b) || Within(t + SlotLength, b)
  }

  predicate Free(t: int, busy: seq<Interval>) {
    forall i :: 0 <= i < |busy| ==> !Taken(t, busy[i])
  }

  predicate InBusinessHours(t: int) {
    DayStart <= TimeOfDay(t) < DayEnd
  }

  predicate OnWeekday(t: int) {
    Weekday(DayOf(t)) < 5
  }

  predicate Bookable(t: int, busy: seq<Interval>) {
    Free(t, busy) && InBusinessHours(t) && OnWeekday(t)
  }

  /** The candidate after `t`: 05:00:00 of the same date when `t` is
      strictly between 00:00 and 01:00, and 40 minutes later otherwise. */
  function Next(t: int): (r: int)
    ensures t < r
    ensures 0 < TimeOfDay(t) < RolloverEnd ==> DayOf(r) == DayOf(t) && TimeOfDay(r) == DayStart
    ensures !(0 < TimeOfDay(t) < RolloverEnd) ==> r == t + Stride
  {
    if 0 < TimeOfDay(t) < RolloverEnd then DayOf(t) * SecondsPerDay + DayStart else t + Stride
  }

  /** The candidates from `t` while they start before `end`. */
  function CandidatesFrom(t: int, end: int): seq<int>
    decreases end - t
  {
    if t >= end then [] else [t] + CandidatesFrom(Next(t), end)
  }

  /** Every candidate the loop visits. */
  function Candidates(now: int): seq<int> {
    CandidatesFrom(FirstCandidate(now), WindowEnd(now))
  }

  function SlotAt(t: int): Slot {
    Slot(t, t + SlotLength)
  }

  /** The slots offered from candidate `t` on. */
  function OpenFrom(t: int, end: int, busy: seq<Interval>): seq<Slot>
    decreases end - t
  {
    if t >= end then []
    else (if Bookable(t, busy) then [SlotAt(t)] else []) + OpenFrom(Next(t), end, busy)
  }

  /** What `get_open_slots` returns for the clock reading `now`. */
  function OpenSlots(now: int, busy: seq<Interval>): seq<Slot> {
    OpenFrom(FirstCandidate(now), WindowEnd(now), busy)
  }

  /** `get_open_slots`, with the free/busy answer passed in. */
  method GetOpenSlots(now: int, busy: seq<Interval>) returns (openSlots: seq<Slot>)
    ensures openSlots == OpenSlots(now, busy)
  {
    var startTime := now;
    var endTime := startTime + Lookahead;
    var apptStartTime: int;
    if TimeOfDay(startTime) < DayStart {
      apptStartTime := DayOf(startTime) * SecondsPerDay + DayStart;
    } else {
      apptStartTime := startTime;
    }
    openSlots := [];
    while apptStartTime < endTime
      invariant openSlots + OpenFrom(apptStartTime, endTime, busy) == OpenSlots(now, busy)
      decreases endTime - apptStartTime
    {
      ghost var t, before := apptStartTime, openSlots;
      var apptEndTime := apptStartTime + SlotLength;
      var slotAvailable := true;
      var i := 0;
      while i < |busy|
        invariant 0 <= i <= |busy|
        invariant slotAvailable
        invariant forall j :: 0 <= j < i ==> !Taken(apptStartTime, busy[j])
      {
        var event := busy[i];
        if (apptStartTime >= event.start && apptStartTime < event.end)
           || (apptEndTime >= event.start && apptEndTime < event.end) {
          slotAvailable := false;
          break;
        }
        i := i + 1;
      }
      assert slotAvailable == Free(apptStartTime, busy);
      if slotAvailable && DayStart <= TimeOfDay(apptStartTime) < DayEnd && Weekday(DayOf(apptStartTime)) < 5 {
        openSlots := openSlots + [Slot(apptStartTime, apptEndTime)];
      }
      if 0 < TimeOfDay(apptStartTime) && TimeOfDay(apptStartTime) < RolloverEnd {
        apptStartTime := DayOf(apptStartTime) * SecondsPerDay + DayStart;
      } else {
        apptStartTime := apptStartTime + Stride;
      }
      assert apptStartTime == Next(t);
      assert openSlots == before + (if Bookable(t, busy) then [SlotAt(t)] else []);
      assert OpenFrom(t, endTime, busy)
          == (if Bookable(t, busy) then [SlotAt(t)] else []) + OpenFrom(apptStartTime, endTime, busy);
    }
  }

  /** Each element starts strictly later than every one before it. */
  predicate Increasing(c: seq<int>) {
    forall i, j :: 0 <= i < j < |c| ==> c[i] < c[j]
  }

  predicate StartsIncreasing(r: seq<Slot>) {
    forall i, j :: 0 <= i < j < |r| ==> r[i].start < r[j].start
  }

  /** The candidates run from `t`, each the successor of the one before,
      stay before `end`, and stop at the first that does not. */
  lemma {:induction false} CandidatesFromShape(t: int, end: int)
    ensures t < end <==> |CandidatesFrom(t, end)| > 0
    ensures t < end ==> CandidatesFrom(t, end)[0] == t
    ensures t < end ==> end <= Next(CandidatesFrom(t, end)[|CandidatesFrom(t, end)| - 1])
    ensures forall x :: x in CandidatesFrom(t, end) ==> t <= x < end
    ensures forall i :: 0 <= i < |CandidatesFrom(t, end)| - 1 ==>
              CandidatesFrom(t, end)[i + 1] == Next(CandidatesFrom(t, end)[i])
    decreases end - t
  {
    if t < end {
      CandidatesFromShape(Next(t), end);
      var c, d := CandidatesFrom(t, end), CandidatesFrom(Next(t), end);
      assert c == [t] + d;
      forall i | 0 <= i < |c| - 1 ensures c[i + 1] == Next(c[i]) {
        if i > 0 { assert c[i + 1] == d[i] && c[i] == d[i - 1]; }
      }
    }
  }

  /** Candidates strictly increase. */
  lemma {:induction false} CandidatesIncreasing(t: int, end: int)
    ensures Increasing(CandidatesFrom(t, end))
    decreases end - t
  {
    if t < end {
      CandidatesIncreasing(Next(t), end);
      CandidatesFromShape(Next(t), end);
      var c, d := CandidatesFrom(t, end), CandidatesFrom(Next(t), end);
      assert c == [t] + d;
      forall i, j | 0 <= i < j < |c| ensures c[i] < c[j] {
        assert c[j] == d[j - 1] && c[j] in d;
        if i > 0 { assert c[i] == d[i - 1]; }
      }
    }
  }

  /** A slot is offered from `t` on exactly when it spans 29:59 from a
      candidate that is free, within business hours and on a weekday. */
  lemma {:induction false} OpenFromMembers(t: int, end: int, busy: seq<Interval>, s: Slot)
    ensures s in OpenFrom(t, end, busy)
        <==> s.end == s.start + SlotLength && s.start in CandidatesFrom(t, end) && Bookable(s.start, busy)
    decreases end - t
  {
    if t < end {
      OpenFromMembers(Next(t), end, busy, s);
      assert CandidatesFrom(t, end) == [t] + CandidatesFrom(Next(t), end);
    }
  }

  /** Offered slots start from `t`, before `end`, in strictly increasing
      order. */
  lemma {:induction false} OpenFromIncreasing(t: int, end: int, busy: seq<Interval>)
    ensures forall s :: s in OpenFrom(t, end, busy) ==> t <= s.start < end
    ensures StartsIncreasing(OpenFrom(t, end, busy))
    decreases end - t
  {
    if t < end {
      OpenFromIncreasing(Next(t), end, busy);
      var r, d := OpenFrom(t, end, busy), OpenFrom(Next(t), end, busy);
      if Bookable(t, busy) {
        assert r == [SlotAt(t)] + d;
        forall i, j | 0 <= i < j < |r| ensures r[i].start < r[j].start {
          assert r[j] == d[j - 1] && r[j] in d;
          if i > 0 { assert r[i] == d[i - 1]; }
        }
      } else {
        assert r == d;
      }
    }
  }

  /** A slot is offered exactly when it spans 29:59 from a visited
      candidate that is free, within business hours and on a weekday. */
  lemma OpenSlotsMembers(now: int, busy: seq<Interval>, s: Slot)
    ensures s in OpenSlots(now, busy)
        <==> s.end == s.start + SlotLength && s.start in Candidates(now) && Bookable(s.start, busy)
  {
    OpenFromMembers(FirstCandidate(now), WindowEnd(now), busy, s);
  }

  /** Every offered slot lasts 29:59, starts in the 30-day window after
      `now`, meets no busy interval at either end, starts between 05:00:00
      and 13:30:59 UTC and falls Monday to Friday; the slots are in strictly
      increasing order. */
  lemma OpenSlotsSound(now: int, busy: seq<Interval>)
    ensures forall s :: s in OpenSlots(now, busy) ==>
         s.end == s.start + SlotLength
         && now <= s.start < now + Lookahead
         && (forall k :: 0 <= k < |busy| ==>
               !(busy[k].start <= s.start < busy[k].end)
               && !(busy[k].start <= s.end < busy[k].end))
         && DayStart <= TimeOfDay(s.start) < DayEnd
         && Weekday(DayOf(s.start)) < 5
    ensures StartsIncreasing(OpenSlots(now, busy))
  {
    OpenFromIncreasing(FirstCandidate(now), WindowEnd(now), busy);
    forall s | s in OpenSlots(now, busy)
      ensures s.end == s.start + SlotLength && Bookable(s.start, busy)
    {
      OpenSlotsMembers(now, busy, s);
    }
  }

  /** With no busy interval, every visited candidate within business hours
      on a weekday is offered, and nothing else is. */
  lemma NoBusyOffersEveryWorkingCandidate(now: int, t: int)
    ensures SlotAt(t) in OpenSlots(now, [])
        <==> t in Candidates(now) && InBusinessHours(t) && OnWeekday(t)
  {
    OpenSlotsMembers(now, [], SlotAt(t));
  }

  /** A busy interval covering the whole window leaves nothing to offer. */
  lemma CoveredWindowOffersNothing(now: int, busy: seq<Interval>, k: nat)
    requires k < |busy| && busy[k].start <= now && now + Lookahead <= busy[k].end
    ensures OpenSlots(now, busy) == []
  {
    var r := OpenSlots(now, busy);
    if r != [] {
      assert r[0] in r;
      OpenSlotsSound(now, busy);
    }
  }

  /** The walk really starts at the first candidate: `now`, or 05:00:00 of
      the same date. */
  lemma FirstCandidateVisited(now: int)
    ensures |Candidates(now)| > 0 && Candidates(now)[0] == FirstCandidate(now)
  {
    CandidatesFromShape(FirstCandidate(now), WindowEnd(now));
  }
}
