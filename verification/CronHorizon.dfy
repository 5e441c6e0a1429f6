/** Why 8 years and a day are always enough. */
module CronHorizon {
  import opened Calendar
  import opened CronTimes
  import opened Durations
  import opened MinuteScan
  import opened Wrappers

  /** What parsing guarantees about the fields of a schedule. */
  ghost predicate IsParsed(t: Schedulable) {
    && (exists h :: 0 <= h < 24 && t.hours[h])
    && (exists m :: 0 <= m < 60 && t.minutes[m])
    && (exists m :: 1 <= m <= 12 && t.months[m])
    && (exists d :: 1 <= d <= 31 && t.daysOfMonth[d])
    && (exists d :: 0 <= d < 7 && t.daysOfWeek[d])
    && (!t.domRestricted ==> forall d :: 1 <= d <= 31 ==> t.daysOfMonth[d])
    && (!t.dowRestricted ==> forall d :: 0 <= d < 7 ==> t.daysOfWeek[d])
  }

  /** The documented rule for days: if both fields are restricted then either of them decides,
      otherwise the restricted one does. */
  lemma DayRule(t: Schedulable, day: int)
    requires IsParsed(t)
    ensures var dom, dow := DayOfMonthMatches(t, day), t.daysOfWeek[Weekday(day)];
            DayMatches(t, day) <==>
              || (t.domRestricted && dom) || (t.dowRestricted && dow)
              || (!t.domRestricted && !t.dowRestricted)
  {
    hide DateOf;
    DateOfIsReal(day);
  }

  predicate DateMatches(t: Schedulable, day: int) {
    MonthMatches(t, day) && DayMatches(t, day)
  }

  lemma LeapYearWithinEight(y: int) returns (z: int)
    ensures y < z <= y + 8 && IsLeap(z)
    ensures z == y + 8 ==> IsLeap(y)
  {
    z := NextMultipleOf4(y);
    if !IsLeap(z) {
      AfterCentury(z);
      z := z + 4;
    }
  }

  lemma NextMultipleOf4(y: int) returns (z: int)
    ensures y < z <= y + 4 && z % 4 == 0
  {
    z := y + 4 - y % 4;
  }

  /** The years 4 before and 4 after a century without a leap year do have one. */
  lemma AfterCentury(z: int)
    requires z % 4 == 0 && !IsLeap(z)
    ensures IsLeap(z - 4) && IsLeap(z + 4)
  {
    BesideCentury(z / 100);
  }

  lemma BesideCentury(k: int)
    ensures (100 * k - 4) % 100 == 96 && (100 * k + 4) % 100 == 4
    ensures (100 * k - 4) % 4 == 0 && (100 * k + 4) % 4 == 0
  {
    YearOfCentury(k - 1, 96);
    YearOfCentury(k, 4);
    FourthYear(25 * k - 1);
    FourthYear(25 * k + 1);
  }

  lemma YearOfCentury(q: int, rest: nat)
    requires rest < 100
    ensures (100 * q + rest) % 100 == rest
  {}

  lemma FourthYear(q: int)
    ensures (4 * q) % 4 == 0
  {}

  lemma InYear(d: Date)
    requires IsReal(d)
    ensures DaysBeforeYear(d.year) <= DayNumber(d.year, d.month, d.day) < DaysBeforeYear(d.year + 1)
  {
    hide DaysBeforeYear, DayNumber;
    DayNumberOfReal(d);
    YearsAreAdjacent(d.year);
  }

  /** The horizon is in the 8th year after the given time's, at the same place in the year or later. */
  lemma HorizonIsFar(after: int)
    ensures var d := DateOf(DayOf(after));
            Limit(after) >= DAY * (DaysBeforeYear(d.year + 8) + DaysBeforeMonth(d.year + 8, d.month) + d.day)
  {
    hide DaysBeforeYear, DaysBeforeMonth, DayNumber, DateOf;
    DateOfIsReal(DayOf(after));
    var d := DateOf(DayOf(after));
    DayNumberInMonth(d.year + 8, d.month, d.day + 1);
  }

  lemma DayNumberInMonth(y: int, m: int, d: int)
    requires 1 <= m <= 12
    ensures DayNumber(y, m, d) == DaysBeforeYear(y) + DaysBeforeMonth(y, m) + d - 1
  {
    hide DaysBeforeYear, DaysBeforeMonth;
    assert (m - 1) / 12 == 0 && (m - 1) % 12 == m - 1;
  }

  /** Any day of the 7 years after the given time's own year is within the horizon. */
  lemma NextYearsFit(after: int, d: Date)
    requires IsReal(d)
    requires DateOf(DayOf(after)).year < d.year < DateOf(DayOf(after)).year + 8
    ensures after < DAY * DayNumber(d.year, d.month, d.day)
    ensures DAY * (DayNumber(d.year, d.month, d.day) + 1) <= Limit(after)
  {
    hide DaysBeforeYear, DayNumber, Limit, DateOf;
    var a := DateOf(DayOf(after));
    DateOfIsReal(DayOf(after));
    InYear(a);
    InYear(d);
    YearsIncrease(a.year + 1, d.year);
    YearsIncrease(d.year + 1, a.year + 8);
    HorizonIsFar(after);
    ClockParts(after);
  }

  /** There's always a February 29 within the horizon. */
  lemma LeapDayFits(after: int) returns (z: int)
    ensures IsLeap(z)
    ensures after < DAY * DayNumber(z, 2, 29)
    ensures DAY * (DayNumber(z, 2, 29) + 1) <= Limit(after)
  {
    hide DaysBeforeYear, DayNumber, Limit, DateOf, IsLeap;
    var a := DateOf(DayOf(after));
    z := LeapYearWithinEight(a.year);
    assert IsReal(Date(z, 2, 29));
    if z < a.year + 8 {
      NextYearsFit(after, Date(z, 2, 29));
    } else {
      DateOfIsReal(DayOf(after));
      DayNumberOfReal(a);
      DayNumberOfReal(Date(a.year, 2, 29));
      DayNumberOfReal(Date(z, 2, 29));
      HorizonIsFar(after);
      ClockParts(after);
      if DayOf(after) < DayNumber(a.year, 2, 29) {
        YearsAreAdjacent(a.year);
        YearsIncrease(a.year + 1, z);
        z := a.year;
      } else {
        InYear(Date(z, 2, 29));
        InYear(a);
        YearsIncrease(a.year + 1, z);
      }
    }
  }

  /** A day of the week is found in the first week of any month. */
  lemma WeekdayInMonth(y: int, m: int, dow: int) returns (d: int)
    requires 1 <= m <= 12 && 0 <= dow < 7
    ensures 1 <= d <= 7 && Weekday(DayNumber(y, m, d)) == dow
  {
    hide DaysBeforeYear, DaysBeforeMonth;
    d := 1 + (dow - Weekday(DayNumber(y, m, 1))) % 7;
    assert DayNumber(y, m, d) == DayNumber(y, m, 1) + d - 1;
  }

  lemma MatchWithinHorizon(t: Schedulable, after: int, day: int) returns (e: int)
    requires IsParsed(t) && DateMatches(t, day)
    ensures DateMatches(t, e) && after < DAY * e && DAY * (e + 1) <= Limit(after)
  {
    hide DateOf, DayNumber, Limit, IsLeap, Weekday;
    var next := DateOf(DayOf(after)).year + 1;
    DateOfIsReal(day);
    var d := DateOf(day);
    var found;
    if t.dowRestricted ==> t.domRestricted && !t.daysOfWeek[Weekday(day)] {
      // The day of the month decides, or any day of the month is good.
      var z := next;
      if d.month == 2 && d.day == 29 {
        z := LeapDayFits(after);
      } else {
        NextYearsFit(after, Date(next, d.month, d.day));
      }
      found := Date(z, d.month, d.day);
    } else {
      var k := WeekdayInMonth(next, d.month, Weekday(day));
      found := Date(next, d.month, k);
      NextYearsFit(after, found);
    }
    e := DayNumber(found.year, found.month, found.day);
    DateOfDayNumber(found);
  }

  lemma MatchAt(t: Schedulable, day: int, h: int, m: int)
    requires DateMatches(t, day) && 0 <= h < 24 && 0 <= m < 60 && t.hours[h] && t.minutes[m]
    ensures var u := DAY * day + HOUR * h + MINUTE * m;
            && DAY * day <= u && u + MINUTE <= DAY * (day + 1) && u % MINUTE == 0
            && forall v :: u <= v < u + MINUTE ==> Matches(t, v)
  {
    hide MonthMatches, DayMatches, DayOf, HourOf, MinuteOf;
    var u := DAY * day + HOUR * h + MINUTE * m;
    PartsOfClock(day, h, m, 0);
    forall v | u <= v < u + MINUTE
      ensures Matches(t, v)
    {
      PartsOfClock(day, h, m, v - u);
    }
  }

  /** No jump goes past a matching whole minute. */
  lemma JumpStopsAtMatch(t: Schedulable, w: int, u: int)
    requires !Matches(t, w) && Matches(t, u) && w < u && u % MINUTE == 0
    ensures w < Jump(t, w) < u + MINUTE
  {
    hide DateOf, DayNumber, MonthMatches, DayMatches;
    JumpAdvances(t, w);
    if !MonthMatches(t, DayOf(w)) {
      MonthJumpSkips(t, w);
    } else if !DayMatches(t, DayOf(w)) {
      DayJumpSkips(t, w);
    } else {
      var s := w % MINUTE;
      ClockParts(w);
      PartsOfClock(DayOf(w), HourOf(w), MinuteOf(w), 0);
      ClockParts(w - s);
      assert !Matches(t, w - s);
      ClockJumpSkips(t, w - s);
      assert Jump(t, w) == Jump(t, w - s) + s;
    }
  }

  lemma {:induction false} LoopFinds(t: Schedulable, w: int, u: int, limit: int)
    requires u % MINUTE == 0 && forall v :: u <= v < u + MINUTE ==> Matches(t, v)
    requires w < u + MINUTE <= limit
    ensures Loop(t, w, limit).Some?
    decreases limit - w
  {
    hide Matches, Jump;
    if !Matches(t, w) {
      JumpStopsAtMatch(t, w, u);
      LoopFinds(t, Jump(t, w), u, limit);
    }
  }

  lemma {:induction false} LoopFindsMatches(t: Schedulable, w: int, limit: int)
    ensures Loop(t, w, limit).Some? ==>
              w <= Loop(t, w, limit).value < limit && Matches(t, Loop(t, w, limit).value)
    decreases limit - w
  {
    hide Matches, Jump;
    if w < limit && !Matches(t, w) {
      JumpAdvances(t, w);
      LoopFindsMatches(t, Jump(t, w), limit);
    }
  }

  /** `Next` returns the zero time if and only if the schedule doesn't match any date, ever. */
  lemma HorizonIsComplete(t: Schedulable, after: int, offset: int)
    requires IsParsed(t)
    ensures NextWall(t, after, offset) == None <==> forall day :: !DateMatches(t, day)
  {
    hide Limit, MonthMatches, DayMatches, Loop, DayOf, HourOf, MinuteOf, FirstCandidate;
    var first, limit := FirstCandidate(after, offset), Limit(after);
    var r := NextWall(t, after, offset);
    LoopFindsMatches(t, first, limit);
    if r.Some? {
      assert DateMatches(t, DayOf(r.value));
    }
    if day :| DateMatches(t, day) {
      var e := MatchWithinHorizon(t, after, day);
      var h :| 0 <= h < 24 && t.hours[h];
      var m :| 0 <= m < 60 && t.minutes[m];
      var u := DAY * e + HOUR * h + MINUTE * m;
      MatchAt(t, e, h, m);
      FirstCandidateIsNextMinute(after, offset);
      LoopFinds(t, first, u, limit);
    }
  }
}
