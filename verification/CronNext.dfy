/** The schedule object: `Next` with its loop, and the one-time and interval-based schedules. */
module CronNext {
  import opened Calendar
  import opened CronHorizon
  import opened CronTimes
  import opened Durations
  import opened MinuteScan
  import opened Wrappers

  /** The last whole second that isn't later. */
  predicate IsTruncated(r: int, w: int) {
    r <= w < r + SECOND && r % SECOND == 0
  }

  function TruncateToSecond(w: int): (r: int)
    ensures IsTruncated(r, w)
  {
    w - w % SECOND
  }

  class Schedule {
    var oneTimeLeft: bool
    const oneTime: bool
    const interval: int
    const table: Schedulable
    const offset: Option<int>  // The zone's offset from UTC in nanoseconds, if there is a zone.

    constructor (oneTime: bool, interval: int, table: Schedulable, offset: Option<int>)
      ensures this.oneTime == oneTime && this.oneTimeLeft == oneTime
      ensures this.interval == interval && this.table == table && this.offset == offset
    {
      this.oneTime, this.oneTimeLeft := oneTime, oneTime;
      this.interval, this.table, this.offset := interval, table, offset;
    }

    /** All times are UTC nanoseconds, and None is the zero time. */
    method Next(after: int, now: int) returns (r: Option<int>)
      modifies this`oneTimeLeft
      ensures interval > 0 ==> r.Some? && IsTruncated(r.value, after + interval) && oneTimeLeft == old(oneTimeLeft)
      ensures interval <= 0 ==> !oneTimeLeft
      ensures interval <= 0 && old(oneTimeLeft) ==> r.Some? && IsTruncated(r.value, now)
      ensures interval <= 0 && !old(oneTimeLeft) && offset == None ==> r == None
      ensures interval <= 0 && !old(oneTimeLeft) && offset.Some? ==>
        && r == NextUtc(table, after, offset.value)
        && IsLaterMatch(table, offset.value, after, r)
        && (IsWholeMinutes(offset.value) ==> NoneBefore(table, offset.value, after, r))
        && (IsParsed(table) ==> (r == None <==> forall day :: !DateMatches(table, day)))
    {
      hide Limit, Loop, TruncateToMinute, IsParsed, DateMatches, IsLaterMatch, NoneBefore;
      if interval > 0 {
        return Some(TruncateToSecond(after + interval));
      }
      var first := oneTimeLeft;
      oneTimeLeft := false;
      if first {
        return Some(TruncateToSecond(now));
      }
      if offset == None {
        return None;
      }
      var wall := after + offset.value;
      var next := TruncateToMinute(wall + MINUTE, offset.value);
      var limit := Limit(wall);
      var found := FindMatch(table, next, limit);
      r := if found == None then None else Some(found.value - offset.value);
      NextUtcIsNext(table, after, offset.value);
    }
  }

  function NextUtc(t: Schedulable, after: int, offset: int): Option<int> {
    var w := NextWall(t, after + offset, offset);
    if w == None then None else Some(w.value - offset)
  }

  // ---- What the result means, in UTC.

  /** The time that the zone's clocks show matches the schedule. */
  predicate IsLaterMatch(t: Schedulable, offset: int, after: int, r: Option<int>) {
    r.Some? ==> after < r.value && Matches(t, r.value + offset)
  }

  /** No whole minute that the zone's clocks show between the given time and the result does. */
  ghost predicate NoneBefore(t: Schedulable, offset: int, after: int, r: Option<int>) {
    r.Some? ==>
      && (r.value + offset) % MINUTE == 0
      && forall w {:trigger Matches(t, w)} :: after + offset < w < r.value + offset && w % MINUTE == 0 ==> !Matches(t, w)
  }

  lemma NextUtcIsNext(t: Schedulable, after: int, offset: int)
    ensures IsLaterMatch(t, offset, after, NextUtc(t, after, offset))
    ensures IsWholeMinutes(offset) ==> NoneBefore(t, offset, after, NextUtc(t, after, offset))
    ensures IsParsed(t) ==> (NextUtc(t, after, offset) == None <==> forall day :: !DateMatches(t, day))
  {
    hide Matches, Limit, Loop, FirstCandidate, IsParsed, DateMatches;
    var wall := after + offset;
    FirstCandidateIsNextMinute(wall, offset);
    LoopFindsMatches(t, FirstCandidate(wall, offset), Limit(wall));
    if IsWholeMinutes(offset) {
      NextIsLeastMatch(t, wall, offset);
    }
    if IsParsed(t) {
      HorizonIsComplete(t, wall, offset);
    }
  }

  /** The loop of `Next`. */
  method FindMatch(t: Schedulable, first: int, limit: int) returns (r: Option<int>)
    ensures r == Loop(t, first, limit)
  {
    hide Matches, Loop;
    var next := first;
    while next < limit
      invariant Loop(t, first, limit) == Loop(t, next, limit)
      decreases limit - next
    {
      var date := DateOf(DayOf(next));
      LoopUnrolls(t, next, limit);
      if !MonthMatches(t, DayOf(next)) {
        next := DAY * DayNumber(date.year, date.month + 1, 1);
      } else if !DayMatches(t, DayOf(next)) {
        next := DAY * DayNumber(date.year, date.month, date.day + 1);
      } else if !t.hours[HourOf(next)] {
        next := next + (60 - MinuteOf(next)) * MINUTE;
      } else if !t.minutes[MinuteOf(next)] {
        var i := 1 + FirstTrue(t.minutes[MinuteOf(next) + 1..]);
        if i == 0 {
          i := 60 - MinuteOf(next);
        }
        next := next + i * MINUTE;
      } else {
        return Some(next);
      }
    }
    LoopUnrolls(t, next, limit);
    return None;
  }

  lemma LoopUnrolls(t: Schedulable, next: int, limit: int)
    ensures next >= limit ==> Loop(t, next, limit) == None
    ensures next < limit && Matches(t, next) ==> Loop(t, next, limit) == Some(next)
    ensures next < limit && !Matches(t, next) ==>
              next < Jump(t, next) && Loop(t, next, limit) == Loop(t, Jump(t, next), limit)
    ensures Matches(t, next) <==>
              && MonthMatches(t, DayOf(next)) && DayMatches(t, DayOf(next))
              && t.hours[HourOf(next)] && t.minutes[MinuteOf(next)]
  {
    hide Jump, MonthMatches, DayMatches;
    if !Matches(t, next) {
      JumpAdvances(t, next);
    }
  }
}
