/** The times that match a cron schedule, and the jumps that `Next` makes between them, in a zone with a fixed offset.

    Instants are wall-clock nanoseconds since 0001-01-01 00:00:00 of the schedule's own zone. */
module CronTimes {
  import opened Calendar
  import opened Wrappers
  import opened Durations
  import opened MinuteScan

  datatype Table = Table(
    minutes: seq<bool>,
    hours: seq<bool>,
    daysOfMonth: seq<bool>,
    months: seq<bool>,
    daysOfWeek: seq<bool>,
    domRestricted: bool,
    dowRestricted: bool)
  {
    predicate Shaped() {
      |minutes| == 60 && |hours| == 24 && |daysOfMonth| == 32 && |months| == 13 && |daysOfWeek| == 7
    }
  }

  type Schedulable = t: Table | t.Shaped()
    witness Table(seq(60, _ => true), seq(24, _ => true), seq(32, _ => true), seq(13, _ => true), seq(7, _ => true),
                  false, false)

  function DayOf(w: int): int { w / DAY }

  function HourOf(w: int): (h: int)
    ensures 0 <= h < 24
  { w % DAY / HOUR }

  function MinuteOf(w: int): (m: int)
    ensures 0 <= m < 60
  { w % HOUR / MINUTE }

  predicate MonthMatches(t: Schedulable, day: int) {
    DateOfIsReal(day);
    t.months[DateOf(day).month]
  }

  predicate DayOfMonthMatches(t: Schedulable, day: int) {
    DateOfIsReal(day);
    t.daysOfMonth[DateOf(day).day]
  }

  predicate DayMatches(t: Schedulable, day: int) {
    var dom, dow := DayOfMonthMatches(t, day), t.daysOfWeek[Weekday(day)];
    if t.domRestricted && t.dowRestricted then dom || dow
    else if t.domRestricted || t.dowRestricted then dom && dow
    else true
  }

  predicate Matches(t: Schedulable, w: int) {
    && MonthMatches(t, DayOf(w))
    && DayMatches(t, DayOf(w))
    && t.hours[HourOf(w)]
    && t.minutes[MinuteOf(w)]
  }

  function Matcher(t: Schedulable): int -> bool {
    w => Matches(t, w)
  }

  /** The first index of a true element, or -1. */
  function FirstTrue(s: seq<bool>): (i: int)
    ensures -1 <= i < |s|
    ensures i >= 0 ==> s[i]
    ensures forall j :: 0 <= j < (if i == -1 then |s| else i) ==> !s[j]
  {
    if s == [] then -1
    else if s[0] then 0
    else var i := FirstTrue(s[1..]); if i == -1 then -1 else i + 1
  }

  /** Where a single pass through the loop of `Next` goes, from a time that doesn't match. */
  function Jump(t: Schedulable, w: int): int {
    var d := DateOf(DayOf(w));
    if !MonthMatches(t, DayOf(w)) then DAY * DayNumber(d.year, d.month + 1, 1)
    else if !DayMatches(t, DayOf(w)) then DAY * DayNumber(d.year, d.month, d.day + 1)
    else if !t.hours[HourOf(w)] then w + (60 - MinuteOf(w)) * MINUTE
    else
      var i := FirstTrue(t.minutes[MinuteOf(w) + 1..]);
      w + (if i == -1 then 60 - MinuteOf(w) else i + 1) * MINUTE
  }

  lemma Quotient(x: int, k: int, q: int, r: int)
    requires k == DAY || k == HOUR || k == MINUTE
    requires x == k * q + r && 0 <= r < k
    ensures x / k == q && x % k == r
  {}

  lemma MinutesLater(w: int, k: int)
    requires w % MINUTE == 0
    ensures (w + k * MINUTE) % MINUTE == 0
  {
    Quotient(w + k * MINUTE, MINUTE, w / MINUTE + k, 0);
  }

  lemma GridOfWholeMinutes(w: int, u: int)
    requires w % MINUTE == 0
    ensures OnGrid(w, u) <==> u % MINUTE == 0
  {
    if OnGrid(w, u) {
      Quotient(u, MINUTE, w / MINUTE + (u - w) / MINUTE, 0);
    } else if u % MINUTE == 0 {
      Quotient(u - w, MINUTE, u / MINUTE - w / MINUTE, 0);
    }
  }

  lemma PartsOfClock(d: int, h: int, m: int, rest: int)
    requires 0 <= h < 24 && 0 <= m < 60 && 0 <= rest < MINUTE
    ensures var w := DAY * d + HOUR * h + MINUTE * m + rest;
            DayOf(w) == d && HourOf(w) == h && MinuteOf(w) == m && w % MINUTE == rest
  {
    var w := DAY * d + HOUR * h + MINUTE * m + rest;
    Quotient(w, DAY, d, HOUR * h + MINUTE * m + rest);
    Quotient(HOUR * h + MINUTE * m + rest, HOUR, h, MINUTE * m + rest);
    Quotient(w, HOUR, 24 * d + h, MINUTE * m + rest);
    Quotient(MINUTE * m + rest, MINUTE, m, rest);
    Quotient(w, MINUTE, 1440 * d + 60 * h + m, rest);
  }

  lemma ClockParts(w: int)
    ensures w == DAY * DayOf(w) + HOUR * HourOf(w) + MINUTE * MinuteOf(w) + w % MINUTE
  {
    var d, r := w / DAY, w % DAY;
    var h, s := r / HOUR, r % HOUR;
    var m, x := s / MINUTE, s % MINUTE;
    assert 0 <= h < 24 && 0 <= m < 60;
    PartsOfClock(d, h, m, x);
  }

  lemma SameDay(day: int, u: int)
    requires DAY * day <= u < DAY * (day + 1)
    ensures DayOf(u) == day
  {
    Quotient(u, DAY, day, u - DAY * day);
  }

  lemma NextDay(day: int)
    ensures var d := DateOf(day); DayNumber(d.year, d.month, d.day + 1) == day + 1
  {
    DateOfIsReal(day);
  }

  lemma NextMonthStart(day: int)
    ensures var d := DateOf(day);
            DayNumber(d.year, d.month + 1, 1) == day - (d.day - 1) + DaysInMonth(d.year, d.month)
  {
    var d := DateOf(day);
    DateOfIsReal(day);
    DayNumberOfReal(d);
    StartOfNextMonth(d.year, d.month);
  }

  lemma SameMonth(day: int, k: int)
    requires var d := DateOf(day); 1 <= d.day + k <= DaysInMonth(d.year, d.month)
    ensures var d := DateOf(day); DateOf(day + k) == Date(d.year, d.month, d.day + k)
  {
    hide DateOf, DaysBeforeYear, DaysBeforeMonth, DaysInMonth, YearLength, MonthOfYearDay;
    var d := DateOf(day);
    DateOfIsReal(day);
    DayNumberOfReal(d);
    var e := Date(d.year, d.month, d.day + k);
    DayNumberOfReal(e);
    DateOfDayNumber(e);
  }

  lemma MonthJumpSkips(t: Schedulable, w: int)
    requires !MonthMatches(t, DayOf(w))
    ensures w < Jump(t, w) && Jump(t, w) % MINUTE == 0
    ensures forall u :: w <= u < Jump(t, w) ==> !Matches(t, u)
  {
    hide DateOf, DayNumber, DayMatches;
    var d := DateOf(DayOf(w));
    var first := DayNumber(d.year, d.month + 1, 1);
    NextMonthStart(DayOf(w));
    DateOfIsReal(DayOf(w));
    ClockParts(w);
    Quotient(DAY * first, MINUTE, 1440 * first, 0);
    forall u | w <= u < DAY * first
      ensures !Matches(t, u)
    {
      ClockParts(u);
      SameMonth(DayOf(w), DayOf(u) - DayOf(w));
    }
  }

  lemma DayJumpSkips(t: Schedulable, w: int)
    requires MonthMatches(t, DayOf(w)) && !DayMatches(t, DayOf(w))
    ensures w < Jump(t, w) && Jump(t, w) % MINUTE == 0
    ensures forall u :: w <= u < Jump(t, w) ==> !Matches(t, u)
  {
    hide DateOf, DayNumber, MonthMatches, DayMatches;
    NextDay(DayOf(w));
    assert Jump(t, w) == DAY * (DayOf(w) + 1);
    ClockParts(w);
    Quotient(Jump(t, w), MINUTE, 1440 * (DayOf(w) + 1), 0);
    forall u | w <= u < Jump(t, w)
      ensures !Matches(t, u)
    {
      SameDay(DayOf(w), u);
    }
  }

  lemma SameHour(w: int, u: int)
    requires w % MINUTE == 0
    requires w <= u < w + (60 - MinuteOf(w)) * MINUTE
    ensures DayOf(u) == DayOf(w) && HourOf(u) == HourOf(w)
    ensures u % MINUTE == 0 ==> u == w + (MinuteOf(u) - MinuteOf(w)) * MINUTE
  {
    ClockParts(w);
    var k, x := (u - w) / MINUTE, (u - w) % MINUTE;
    PartsOfClock(DayOf(w), HourOf(w), MinuteOf(w) + k, x);
  }

  lemma HourJumpSkips(t: Schedulable, w: int)
    requires w % MINUTE == 0
    requires !t.hours[HourOf(w)]
    ensures forall u :: w <= u < w + (60 - MinuteOf(w)) * MINUTE ==> !Matches(t, u)
  {
    hide MonthMatches, DayMatches;
    forall u | w <= u < w + (60 - MinuteOf(w)) * MINUTE
      ensures !Matches(t, u)
    {
      SameHour(w, u);
    }
  }

  lemma MinuteJumpSkips(t: Schedulable, w: int, i: int)
    requires w % MINUTE == 0 && 0 < i <= 60 - MinuteOf(w)
    requires forall m :: MinuteOf(w) <= m < MinuteOf(w) + i ==> !t.minutes[m]
    ensures forall u :: w <= u < w + i * MINUTE && u % MINUTE == 0 ==> !Matches(t, u)
  {
    hide MonthMatches, DayMatches;
    forall u | w <= u < w + i * MINUTE && u % MINUTE == 0
      ensures !Matches(t, u)
    {
      SameHour(w, u);
    }
  }

  lemma ClockJumpSkips(t: Schedulable, w: int)
    requires w % MINUTE == 0 && !Matches(t, w)
    requires MonthMatches(t, DayOf(w)) && DayMatches(t, DayOf(w))
    ensures w < Jump(t, w) && Jump(t, w) % MINUTE == 0
    ensures forall u :: w <= u < Jump(t, w) && u % MINUTE == 0 ==> !Matches(t, u)
  {
    hide MonthMatches, DayMatches, DateOf, DayNumber;
    if !t.hours[HourOf(w)] {
      HourJumpSkips(t, w);
      MinutesLater(w, 60 - MinuteOf(w));
    } else {
      var rest := t.minutes[MinuteOf(w) + 1..];
      var i := FirstTrue(rest);
      var k := if i == -1 then 60 - MinuteOf(w) else i + 1;
      forall m | MinuteOf(w) < m < MinuteOf(w) + k
        ensures !t.minutes[m]
      {
        assert t.minutes[m] == rest[m - MinuteOf(w) - 1];
      }
      MinuteJumpSkips(t, w, k);
      MinutesLater(w, k);
    }
  }

  /** One pass through the loop skips only minutes that don't match. */
  lemma JumpSkips(t: Schedulable, w: int)
    requires w % MINUTE == 0 && !Matches(t, w)
    ensures w < Jump(t, w) && Jump(t, w) % MINUTE == 0
    ensures NoneIn(Matcher(t), w, Jump(t, w))
  {
    hide MonthMatches, DayMatches, Jump;
    if !MonthMatches(t, DayOf(w)) {
      MonthJumpSkips(t, w);
    } else if !DayMatches(t, DayOf(w)) {
      DayJumpSkips(t, w);
    } else {
      ClockJumpSkips(t, w);
    }
    forall u ensures OnGrid(w, u) <==> u % MINUTE == 0 {
      GridOfWholeMinutes(w, u);
    }
  }

  /** Every pass moves forward, also from times that aren't whole minutes of the zone. */
  lemma JumpAdvances(t: Schedulable, w: int)
    requires !Matches(t, w)
    ensures w < Jump(t, w)
  {
    hide MonthMatches, DayMatches;
    if !MonthMatches(t, DayOf(w)) {
      MonthJumpSkips(t, w);
    } else if !DayMatches(t, DayOf(w)) {
      DayJumpSkips(t, w);
    }
  }

  /** The whole loop of `Next`, with all its jumps. */
  function Loop(t: Schedulable, next: int, limit: int): Option<int>
    decreases limit - next
  {
    if next >= limit then None
    else if Matches(t, next) then Some(next)
    else
      JumpAdvances(t, next);
      Loop(t, Jump(t, next), limit)
  }

  /** Truncates a wall-clock time to a whole minute. `Time.Truncate` works on the absolute time, so this is a
      whole minute in UTC, regardless of the zone's offset. */
  function TruncateToMinute(w: int, offset: int): int {
    w - (w - offset) % MINUTE
  }

  function FirstCandidate(after: int, offset: int): int {
    TruncateToMinute(after + MINUTE, offset)
  }

  /** 8 years and 1 day later, at the same time of day. */
  function Limit(after: int): int {
    var d := DateOf(DayOf(after));
    DAY * DayNumber(d.year + 8, d.month, d.day + 1) + after % DAY
  }

  function NextWall(t: Schedulable, after: int, offset: int): Option<int> {
    Loop(t, FirstCandidate(after, offset), Limit(after))
  }

  /** The jumps by month, day, hour and minute find exactly what looking at every minute finds. */
  lemma {:induction false} LoopIsScan(t: Schedulable, next: int, limit: int)
    requires next % MINUTE == 0
    ensures Loop(t, next, limit) == Scan(Matcher(t), next, limit)
    decreases limit - next
  {
    hide Matches, Jump;
    if next < limit && !Matches(t, next) {
      JumpSkips(t, next);
      LoopIsScan(t, Jump(t, next), limit);
      GridOfWholeMinutes(next, Jump(t, next));
      ScanSkips(Matcher(t), next, Jump(t, next), limit);
    }
  }

  predicate IsWholeMinutes(offset: int) {
    offset % MINUTE == 0
  }

  lemma FirstCandidateIsNextMinute(after: int, offset: int)
    ensures var first := FirstCandidate(after, offset);
            && after < first <= after + MINUTE
            && OnGrid(offset, first)
            && (IsWholeMinutes(offset) ==> first % MINUTE == 0)
  {
    var x := after + MINUTE - offset;
    Quotient(x, MINUTE, x / MINUTE, x % MINUTE);
    Quotient(x - x % MINUTE, MINUTE, x / MINUTE, 0);
    if IsWholeMinutes(offset) {
      MinutesLater(offset, x / MINUTE);
    }
  }

  /** If the zone's offset is in whole minutes then the next time is the least whole minute
      after the given time and before the limit which matches the schedule. */
  lemma NextIsLeastMatch(t: Schedulable, after: int, offset: int)
    requires IsWholeMinutes(offset)
    ensures var r := NextWall(t, after, offset);
            && (r == None ==>
                  forall u {:trigger Matches(t, u)} :: after < u < Limit(after) && u % MINUTE == 0 ==> !Matches(t, u))
            && (r.Some? ==>
                  && after < r.value < Limit(after) && r.value % MINUTE == 0 && Matches(t, r.value)
                  && forall u {:trigger Matches(t, u)} ::
                       after < u < r.value && u % MINUTE == 0 ==> !Matches(t, u))
  {
    hide Matches, Limit, Loop;
    var first, limit := FirstCandidate(after, offset), Limit(after);
    FirstCandidateIsNextMinute(after, offset);
    LoopIsScan(t, first, limit);
    ScanIsLeast(Matcher(t), first, limit);
    var r := NextWall(t, after, offset);
    if r.Some? {
      GridOfWholeMinutes(first, r.value);
    }
    forall u | after < u && u % MINUTE == 0
      ensures first <= u && OnGrid(first, u) && Matcher(t)(u) == Matches(t, u)
    {
      GridOfWholeMinutes(first, u);
      if u < first {
        GridOfWholeMinutes(u, first);
        NextOnGrid(u, first);
      }
    }
  }

  /** January only, at any time. */
  function JanuaryOnly(): (t: Schedulable) {
    Table(seq(60, _ => true), seq(24, _ => true), seq(32, _ => true), seq(13, i => i == 1), seq(7, _ => true),
          false, false)
  }

  lemma EndOfYearOne()
    ensures DateOf(364) == Date(1, 12, 31) && DateOf(365) == Date(2, 1, 1)
    ensures DayNumber(1, 13, 1) == 365
    ensures DayNumber(9, 12, 32) >= 366
  {
    hide DateOf;
    DateOfDayNumber(Date(1, 12, 31));
    DateOfDayNumber(Date(2, 1, 1));
  }

  lemma LoopReachesJanuary(w: int, limit: int)
    requires DAY * 364 <= w < DAY * 365 < limit
    ensures Loop(JanuaryOnly(), w, limit) == Some(DAY * 365)
  {
    hide DateOf, DayNumber;
    var t := JanuaryOnly();
    EndOfYearOne();
    SameDay(364, w);
    SameDay(365, DAY * 365);
    assert Jump(t, w) == DAY * 365;
    assert Matches(t, DAY * 365);
  }

  /** With any other offset that's false: here the jump to the next month is a whole minute in
      the zone but not in UTC, while scanning the minutes from the first candidate never gets there. */
  lemma FractionalOffsetsDiffer(offset: int)
    requires !IsWholeMinutes(offset)
    ensures var t, after := JanuaryOnly(), DAY * 365 - 3 * MINUTE;
            NextWall(t, after, offset) != Scan(Matcher(t), FirstCandidate(after, offset), Limit(after))
  {
    hide DateOf, DayNumber, Loop, FirstCandidate, Matches;
    var t, after := JanuaryOnly(), DAY * 365 - 3 * MINUTE;
    var first, limit := FirstCandidate(after, offset), Limit(after);
    FirstCandidateIsNextMinute(after, offset);
    EndOfYearOne();
    SameDay(364, after);
    LoopReachesJanuary(first, limit);
    ScanIsLeast(Matcher(t), first, limit);
    if OnGrid(first, DAY * 365) {
      var a, b := (DAY * 365 - first) / MINUTE, (first - offset) / MINUTE;
      Quotient(offset, MINUTE, 1440 * 365 - a - b, 0);
    }
  }

  /** So `Next` is the minute-by-minute scan for all schedules and times
      if and only if the zone's offset is in whole minutes. */
  lemma NextIsScanIffWholeMinutes(offset: int)
    ensures IsWholeMinutes(offset) <==>
            forall t: Schedulable, after {:trigger NextWall(t, after, offset)} ::
              NextWall(t, after, offset) == Scan(Matcher(t), FirstCandidate(after, offset), Limit(after))
  {
    hide Loop, Limit, Scan, FirstCandidate;
    if IsWholeMinutes(offset) {
      forall t: Schedulable, after
        ensures NextWall(t, after, offset) == Scan(Matcher(t), FirstCandidate(after, offset), Limit(after))
      {
        FirstCandidateIsNextMinute(after, offset);
        LoopIsScan(t, FirstCandidate(after, offset), Limit(after));
      }
    } else {
      FractionalOffsetsDiffer(offset);
    }
  }
}