/** The leave service as it runs: rows changed one field at a time, and the count
    of working days it charges. */
module LeaveDesk {
  import opened Money
  import opened Leave

  // ----- working days, counted in halves -----

  /** Days are numbered from a Monday, day 1. */
  function IsoWeekday(day: int): int { (day + 6) % 7 + 1 }

  datatype Schedule = Schedule(weekdays: set<int>, holidays: set<int>)

  /** An employee without a schedule works Monday to Friday. */
  function Weekdays(schedule: Schedule): set<int> {
    if schedule.weekdays == {} then {1, 2, 3, 4, 5} else schedule.weekdays
  }

  predicate Works(schedule: Schedule, day: int) {
    IsoWeekday(day) in Weekdays(schedule) && day !in schedule.holidays
  }

  ghost function WorkingDates(schedule: Schedule, start: int, end: int): set<int> {
    set day | start <= day < end && Works(schedule, day)
  }

  /** What the half-day flags take off: nothing at an end that is not worked, and one
      half only when both ends are the same day. */
  function HalvesOff(schedule: Schedule, start: int, end: int, halfStart: bool, halfEnd: bool): (h: nat)
  {
    (if halfStart && Works(schedule, start) then 1 else 0)
    + if halfEnd && end != start && Works(schedule, end) then 1 else 0
  }

  /** A request is charged something exactly when it covers a working day, half-day
      flags or not; the charge is never clipped at zero. */
  lemma ChargedIffWorking(schedule: Schedule, start: int, end: int, halfStart: bool, halfEnd: bool)
    requires start <= end
    ensures var dates := WorkingDates(schedule, start, end + 1);
            var off := HalvesOff(schedule, start, end, halfStart, halfEnd);
            && 2 * |dates| >= off
            && (2 * |dates| - off > 0 <==> exists day :: start <= day <= end && Works(schedule, day))
  {
    var dates, off := WorkingDates(schedule, start, end + 1), HalvesOff(schedule, start, end, halfStart, halfEnd);
    if dates == {} {
      forall day | start <= day <= end ensures !Works(schedule, day) {
        assert day !in dates;
      }
    } else {
      var day: int :| day in dates;
      assert day in dates && start <= day <= end && Works(schedule, day);
      if off == 2 {
        assert {start, end} <= dates;
        assert dates == {start, end} + (dates - {start, end});
      }
    }
  }

  /** Half day h is the morning of day h/2 when h is even, the afternoon when it is odd. A
      range with a half-day start begins at noon; one with a half-day end ends at noon, but
      within a single day the end flag counts for nothing. */
  predicate Covers(start: int, end: int, halfStart: bool, halfEnd: bool, h: int) {
    && 2 * start <= h <= 2 * end + 1
    && (halfStart ==> h != 2 * start) && (halfEnd && start != end ==> h != 2 * end + 1)
  }

  ghost function CoveredHalves(schedule: Schedule, start: int, end: int, halfStart: bool, halfEnd: bool): set<int> {
    set h | 2 * start <= h <= 2 * end + 1 && Covers(start, end, halfStart, halfEnd, h) && Works(schedule, h / 2)
  }

  /** The worked halves of the days from start up to but not including end. */
  ghost function AllHalves(schedule: Schedule, start: int, end: int): set<int> {
    set h | 2 * start <= h < 2 * end && Works(schedule, h / 2)
  }

  lemma {:induction false} WholeDaysHaveTwoHalves(schedule: Schedule, start: int, end: int)
    requires start <= end
    ensures |AllHalves(schedule, start, end)| == 2 * |WorkingDates(schedule, start, end)|
    decreases end - start
  {
    if start == end {
      assert AllHalves(schedule, start, end) == {} && WorkingDates(schedule, start, end) == {};
    } else {
      WholeDaysHaveTwoHalves(schedule, start, end - 1);
      WorkingDatesGrow(schedule, start, end - 1);
      TwoMoreHalves(schedule, start, end - 1);
    }
  }

  lemma TwoMoreHalves(schedule: Schedule, start: int, day: int)
    requires start <= day
    ensures |AllHalves(schedule, start, day + 1)|
         == |AllHalves(schedule, start, day)| + if Works(schedule, day) then 2 else 0
  {
    var fewer, halves := AllHalves(schedule, start, day), AllHalves(schedule, start, day + 1);
    assert (2 * day) / 2 == day == (2 * day + 1) / 2;
    assert halves == if Works(schedule, day) then fewer + {2 * day, 2 * day + 1} else fewer;
  }

  /** The halves the two flags take off. */
  function FlaggedHalves(schedule: Schedule, start: int, end: int, halfStart: bool, halfEnd: bool): (s: set<int>)
    ensures |s| == HalvesOff(schedule, start, end, halfStart, halfEnd)
  {
    (if halfStart && Works(schedule, start) then {2 * start} else {})
    + if halfEnd && end != start && Works(schedule, end) then {2 * end + 1} else {}
  }

  lemma UnflaggedAreCovered(schedule: Schedule, start: int, end: int, halfStart: bool, halfEnd: bool)
    requires start <= end
    ensures CoveredHalves(schedule, start, end, halfStart, halfEnd)
         == AllHalves(schedule, start, end + 1) - FlaggedHalves(schedule, start, end, halfStart, halfEnd)
    ensures FlaggedHalves(schedule, start, end, halfStart, halfEnd) <= AllHalves(schedule, start, end + 1)
  {
    assert (2 * start) / 2 == start && (2 * end + 1) / 2 == end;
  }

  /** The charge is the number of worked half days the request covers. */
  lemma ChargeIsCoveredHalves(schedule: Schedule, start: int, end: int, halfStart: bool, halfEnd: bool)
    requires start <= end
    ensures 2 * |WorkingDates(schedule, start, end + 1)| - HalvesOff(schedule, start, end, halfStart, halfEnd)
         == |CoveredHalves(schedule, start, end, halfStart, halfEnd)|
  {
    WholeDaysHaveTwoHalves(schedule, start, end + 1);
    UnflaggedAreCovered(schedule, start, end, halfStart, halfEnd);
    var all, flagged := AllHalves(schedule, start, end + 1), FlaggedHalves(schedule, start, end, halfStart, halfEnd);
    assert all == (all - flagged) + flagged;
  }

  method WorkingHalves(schedule: Schedule, start: int, end: int, halfStart: bool, halfEnd: bool)
    returns (r: Option<nat>)
    ensures r.None? <==> end < start
    ensures r.Some? ==>
              r.value == 2 * |WorkingDates(schedule, start, end + 1)|
                         - HalvesOff(schedule, start, end, halfStart, halfEnd)
    ensures r.Some? ==> r.value == |CoveredHalves(schedule, start, end, halfStart, halfEnd)|
  {
    if end < start {
      return None;
    }
    var total := 0;
    var current := start;
    while current <= end
      invariant start <= current <= end + 1
      invariant total == 2 * |WorkingDates(schedule, start, current)|
      decreases end + 1 - current
    {
      WorkingDatesGrow(schedule, start, current);
      if Works(schedule, current) {
        total := total + 2;
      }
      current := current + 1;
    }
    if halfStart && Works(schedule, start) {
      total := total - 1;
    }
    if halfEnd && end != start && Works(schedule, end) {
      total := total - 1;
    }
    ChargedIffWorking(schedule, start, end, halfStart, halfEnd);
    ChargeIsCoveredHalves(schedule, start, end, halfStart, halfEnd);
    return Some(if total < 0 then 0 else total);
  }

  /** Day 1 is a Monday, and the week turns every seven days. */
  lemma WeekdaysTurn(day: int)
    ensures 1 <= IsoWeekday(day) <= 7 && IsoWeekday(1) == 1
    ensures IsoWeekday(day + 1) == if IsoWeekday(day) == 7 then 1 else IsoWeekday(day) + 1
  {}

  /** How many of the first n weekdays are named. */
  function NamedUpTo(weekdays: set<int>, n: nat): nat {
    if n == 0 then 0 else NamedUpTo(weekdays, n - 1) + if n in weekdays then 1 else 0
  }

  lemma {:induction false} NamedUpToCounts(weekdays: set<int>, n: nat)
    ensures NamedUpTo(weekdays, n) == |set w | w in weekdays && 1 <= w <= n|
  {
    var these := set w | w in weekdays && 1 <= w <= n;
    if n == 0 {
      assert these == {};
    } else {
      NamedUpToCounts(weekdays, n - 1);
      var fewer := set w | w in weekdays && 1 <= w <= n - 1;
      assert these == if n in weekdays then fewer + {n} else fewer;
    }
  }

  lemma WorkingDatesGrow(schedule: Schedule, start: int, end: int)
    requires start <= end
    ensures |WorkingDates(schedule, start, end + 1)|
            == |WorkingDates(schedule, start, end)| + if Works(schedule, end) then 1 else 0
  {
    var before, after := WorkingDates(schedule, start, end), WorkingDates(schedule, start, end + 1);
    assert after == if Works(schedule, end) then before + {end} else before;
  }

  lemma WorkingDatesSplit(schedule: Schedule, start: int, middle: int, end: int)
    requires start <= middle <= end
    ensures |WorkingDates(schedule, start, end)|
            == |WorkingDates(schedule, start, middle)| + |WorkingDates(schedule, middle, end)|
  {
    assert WorkingDates(schedule, start, end)
        == WorkingDates(schedule, start, middle) + WorkingDates(schedule, middle, end);
  }

  /** Within one week, the weekdays from the first day's on. */
  lemma {:induction false} StretchOfOneWeek(schedule: Schedule, start: int, n: nat)
    requires schedule.holidays == {} && IsoWeekday(start) + n <= 8
    ensures |WorkingDates(schedule, start, start + n)|
            == NamedUpTo(Weekdays(schedule), IsoWeekday(start) + n - 1)
               - NamedUpTo(Weekdays(schedule), IsoWeekday(start) - 1)
    ensures n < 8 - IsoWeekday(start) ==> IsoWeekday(start + n) == IsoWeekday(start) + n
    ensures n == 8 - IsoWeekday(start) ==> IsoWeekday(start + n) == 1
  {
    WeekdaysTurn(start);
    if n == 0 {
      assert WorkingDates(schedule, start, start) == {};
    } else {
      StretchOfOneWeek(schedule, start, n - 1);
      WeekdaysTurn(start + n - 1);
      WorkingDatesGrow(schedule, start, start + n - 1);
    }
  }

  /** Any seven days in a row, whatever day they start on, hold as many working days as the
      schedule names weekdays, holidays apart; without a schedule that is five. */
  lemma WeekHoldsTheNamedDays(schedule: Schedule, start: int)
    requires schedule.holidays == {}
    ensures |WorkingDates(schedule, start, start + 7)|
            == if schedule.weekdays == {} then 5 else |set w | w in schedule.weekdays && 1 <= w <= 7|
  {
    var named, w := Weekdays(schedule), IsoWeekday(start);
    WeekdaysTurn(start);
    StretchOfOneWeek(schedule, start, 8 - w);
    StretchOfOneWeek(schedule, start + 8 - w, w - 1);
    WorkingDatesSplit(schedule, start, start + 8 - w, start + 7);
    NamedUpToCounts(named, 7);
    if schedule.weekdays == {} {
      assert (set x | x in named && 1 <= x <= 7) == {1, 2, 3, 4, 5};
    }
  }

  /** A holiday takes itself off the charge when it would have been worked, and nothing else. */
  lemma HolidayTakesOneDayOff(schedule: Schedule, holiday: int, start: int, end: int)
    ensures |WorkingDates(schedule.(holidays := schedule.holidays + {holiday}), start, end)|
            == |WorkingDates(schedule, start, end)|
               - if start <= holiday < end && Works(schedule, holiday) then 1 else 0
  {
    var before := WorkingDates(schedule, start, end);
    var after := WorkingDates(schedule.(holidays := schedule.holidays + {holiday}), start, end);
    if start <= holiday < end && Works(schedule, holiday) {
      assert before == after + {holiday} && holiday !in after;
    } else {
      assert before == after;
    }
  }

  // ----- the service -----

  class Desk {
    var requests: seq<Request>
    var balances: map<Key, Balance>
    const negative: set<nat>

    constructor (negative: set<nat>)
      ensures this.negative == negative && Contents() == Book([], map[])
    {
      this.negative := negative;
      requests, balances := [], map[];
    }

    function Contents(): Book
      reads this
    {
      Book(requests, balances)
    }

    /** get_or_create, then the row as it stands. */
    method LockedBalance(key: Key) returns (b: Balance)
      modifies this
      ensures b == Row(old(Contents()), key)
      ensures requests == old(requests) && balances == old(balances)[key := b]
    {
      if key in balances {
        b := balances[key];
      } else {
        b := Balance(0, 0, 0, 0, None);
      }
      balances := balances[key := b];
    }

    method SubmitRequest(id: nat, schedule: Schedule, halfStart: bool, halfEnd: bool, eligible: bool, manager: bool)
      returns (ok: bool, halves: nat)
      modifies this
      ensures id < |old(requests)| && old(requests)[id].start <= old(requests)[id].end ==>
                halves == 2 * |WorkingDates(schedule, old(requests)[id].start, old(requests)[id].end + 1)|
                          - HalvesOff(schedule, old(requests)[id].start, old(requests)[id].end, halfStart, halfEnd)
      ensures var r := Submit(old(Contents()), negative, id, halves, eligible, manager);
              ok == r.Some? && Contents() == if ok then r.value else old(Contents())
    {
      halves := 0;
      if id >= |requests| {
        return false, halves;
      }
      var r := requests[id];
      var count := WorkingHalves(schedule, r.start, r.end, halfStart, halfEnd);
      halves := if count.Some? then count.value else 0;
      if Submitted !in AllowedTransitions(r.status) || !eligible || halves <= 0 {
        return false, halves;
      }
      if Overlaps(requests, id, r) {
        return false, halves;
      }
      var saved := balances;
      var b := LockedBalance(KeyOf(r));
      if halves > b.available - b.pending && r.kind !in negative {
        balances := saved;
        return false, halves;
      }
      balances := balances[KeyOf(r) := b.(pending := b.pending + halves)];
      requests := requests[id := r.(days := halves, status := if manager then PendingManager else PendingHR)];
      return true, halves;
    }

    method FinaliseApproval(id: nat) returns (ok: bool)
      requires id < |requests|
      modifies this
      ensures var r := Finalise(old(Contents()), negative, id);
              ok == r.Some? && Contents() == if ok then r.value else old(Contents())
    {
      var r := requests[id];
      if Approved !in AllowedTransitions(r.status) {
        return false;
      }
      var saved := balances;
      var b := LockedBalance(KeyOf(r));
      if !r.applied {
        b := b.(pending := AtLeastZero(b.pending - r.days));
        b := b.(taken := b.taken + r.days);
        b := b.(available := b.available - r.days);
        if b.available < 0 && r.kind !in negative {
          balances := saved;
          return false;
        }
        balances := balances[KeyOf(r) := b];
        r := r.(applied := true);
      }
      requests := requests[id := r.(status := Approved)];
      return true;
    }

    method Approve(id: nat, mayDecide: bool, needsHR: bool) returns (ok: bool)
      modifies this
      ensures var r := ApproveStep(old(Contents()), negative, id, mayDecide, needsHR);
              ok == r.Some? && Contents() == if ok then r.value else old(Contents())
      ensures ok ==> mayDecide && id < |old(requests)|
                     && old(requests)[id].status in {Submitted, PendingManager, PendingHR}
    {
      if id >= |requests| || requests[id].status !in {Submitted, PendingManager, PendingHR} || !mayDecide {
        return false;
      }
      if requests[id].status == PendingManager && needsHR {
        requests := requests[id := requests[id].(status := PendingHR)];
        return true;
      }
      ok := FinaliseApproval(id);
    }

    method CancelRequest(id: nat, today: int) returns (ok: bool)
      modifies this
      ensures var r := Cancel(old(Contents()), id, today);
              ok == r.Some? && Contents() == if ok then r.value else old(Contents())
    {
      if id >= |requests| || Cancelled !in AllowedTransitions(requests[id].status) {
        return false;
      }
      var r := requests[id];
      if r.status == Approved && r.start <= today {
        return false;
      }
      if r.applied || Blocking(r.status) {
        if KeyOf(r) !in balances {
          return false;
        }
        var b := balances[KeyOf(r)];
        if r.applied {
          b := b.(taken := AtLeastZero(b.taken - r.days), available := b.available + r.days);
          balances := balances[KeyOf(r) := b];
          requests := requests[id := r.(status := Cancelled, applied := false)];
          return true;
        }
        balances := balances[KeyOf(r) := b.(pending := AtLeastZero(b.pending - r.days))];
      }
      requests := requests[id := r.(status := Cancelled)];
      return true;
    }
  }
}
