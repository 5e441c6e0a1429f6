/** The warnings about the size of the Dead-Letter Queue, and the schedule of its measurements. */
module DlqMonitor {
  import opened DlqAccounts
  import opened DlqProtocol
  import opened Durations
  import opened MapSums

  /** Whether a step logs a warning. */
  ghost predicate Logs(l: Limits, s: State, e: Event)
    requires Enabled(l, s, e)
  {
    match e
    case Reserve(p, size) => Fits(l, s.acc, size) && Warns(l, DlqAccounts.Reserved(s.acc, p, size))
    case EndWalk => !s.acc.warned && l.warnSize != 0 && Measured(s.acc, s.walk.size) >= l.warnSize
    case _ => false
  }

  /** Whether a step is a successful measurement below the threshold. */
  ghost predicate IsBelow(l: Limits, s: State, e: Event)
    requires Enabled(l, s, e)
  {
    e.EndWalk? && Measured(s.acc, s.walk.size) < l.warnSize
  }

  ghost predicate Latched(l: Limits, s: State) {
    l.warnSize > 0 && s.acc.totalSize >= l.warnSize ==> s.acc.warned
  }

  lemma LatchedStep(l: Limits, s: State, e: Event)
    requires l.Enabled() && Latched(l, s) && Enabled(l, s, e)
    ensures Latched(l, Apply(l, s, e))
  {
    hide Temp, Trim;
  }

  /** A total size at the threshold always has been warned about. */
  lemma {:induction false} LatchedRun(l: Limits, s: State, es: seq<Event>)
    requires l.Enabled() && Latched(l, s) && IsRun(l, s, es)
    ensures Latched(l, After(l, s, es))
    decreases |es|
  {
    hide Apply, Latched, Enabled;
    if es != [] {
      LatchedStep(l, s, es[0]);
      LatchedRun(l, Apply(l, s, es[0]), es[1..]);
    }
  }

  /** No step of the run is a successful measurement below the threshold. */
  ghost predicate NoneBelow(l: Limits, s: State, es: seq<Event>)
    requires IsRun(l, s, es)
    decreases |es|
  {
    es == [] || (!IsBelow(l, s, es[0]) && NoneBelow(l, Apply(l, s, es[0]), es[1..]))
  }

  lemma WarnedStep(l: Limits, s: State, e: Event)
    requires l.Enabled() && Enabled(l, s, e)
    ensures Logs(l, s, e) ==> !s.acc.warned && Apply(l, s, e).acc.warned && !IsBelow(l, s, e)
    ensures s.acc.warned && !IsBelow(l, s, e) ==> Apply(l, s, e).acc.warned
    ensures Apply(l, s, e).acc.warned && !s.acc.warned ==> Logs(l, s, e)
  {
    hide Temp, Trim;
  }

  lemma {:induction false} WarnedRun(l: Limits, s: State, es: seq<Event>)
    requires l.Enabled() && IsRun(l, s, es) && s.acc.warned && NoneBelow(l, s, es)
    ensures After(l, s, es).acc.warned
    decreases |es|
  {
    hide Apply, Enabled, IsBelow;
    if es != [] {
      WarnedStep(l, s, es[0]);
      WarnedRun(l, Apply(l, s, es[0]), es[1..]);
    }
  }

  /** Between two warnings there's always a successful measurement below the threshold. */
  lemma WarningsAreSeparated(l: Limits, s: State, first: Event, es: seq<Event>, second: Event)
    requires l.Enabled() && Enabled(l, s, first) && Logs(l, s, first)
    requires var s1 := Apply(l, s, first);
             IsRun(l, s1, es) && Enabled(l, After(l, s1, es), second) && Logs(l, After(l, s1, es), second)
    ensures !NoneBelow(l, Apply(l, s, first), es)
  {
    hide Apply, Enabled, Logs, IsBelow, After, NoneBelow;
    var s1 := Apply(l, s, first);
    WarnedStep(l, s, first);
    WarnedStep(l, After(l, s1, es), second);
    if NoneBelow(l, s1, es) {
      WarnedRun(l, s1, es);
    }
  }

  const MIN_DELAY: int := 421
  const MAX_DELAY: int := 3600

  function NextDelay(delay: int, changed: bool): int {
    if changed then MIN_DELAY else if delay * 2 <= MAX_DELAY then delay * 2 else delay
  }

  ghost predicate IsDelay(delay: int) {
    exists k: nat :: delay == MIN_DELAY * Pow2(k) && delay <= MAX_DELAY
  }

  lemma NextDelayIsDelay(delay: int, changed: bool)
    requires IsDelay(delay)
    ensures IsDelay(NextDelay(delay, changed))
  {
    assert MIN_DELAY == MIN_DELAY * Pow2(0);
    if !changed && delay * 2 <= MAX_DELAY {
      var k: nat :| delay == MIN_DELAY * Pow2(k);
      assert delay * 2 == MIN_DELAY * Pow2(k + 1);
    }
  }

  /** What wakes up the measuring loop, at the given time: a measurement is due and has the given result, or
      a file was written. */
  datatype Wakeup = Due(time: int, size: int, ok: bool) | Written(time: int)

  datatype Schedule = Schedule(delay: int, check: int, size: int)

  function AfterWakeup(s: Schedule, w: Wakeup): Schedule {
    match w
    case Written(now) =>
      Schedule(MIN_DELAY, if s.check - now > MIN_DELAY then now + MIN_DELAY else s.check, s.size)
    case Due(now, size, ok) =>
      var delay := if ok then NextDelay(s.delay, size != s.size) else s.delay;
      Schedule(delay, now + delay, if ok then size else s.size)
  }

  function AfterWakeups(s: Schedule, ws: seq<Wakeup>): Schedule {
    if ws == [] then s else AfterWakeup(AfterWakeups(s, ws[..|ws| - 1]), ws[|ws| - 1])
  }

  /** The measuring loop, after its first measurement. */
  method MeasureSizeLoop(start: int, size: int, ws: seq<Wakeup>) returns (s: Schedule)
    ensures s == AfterWakeups(Schedule(MIN_DELAY, start + MIN_DELAY, size), ws)
  {
    var nextDelay, prevSize := MIN_DELAY, size;
    var nextCheck := start + nextDelay;
    var i := 0;
    while i < |ws|
      invariant 0 <= i <= |ws|
      invariant Schedule(nextDelay, nextCheck, prevSize) ==
                AfterWakeups(Schedule(MIN_DELAY, start + MIN_DELAY, size), ws[..i])
    {
      assert ws[..i + 1][..i] == ws[..i];
      match ws[i] {
        case Written(now) =>
          nextDelay := MIN_DELAY;
          if nextCheck - now > nextDelay {
            nextCheck := now + nextDelay;
          }
        case Due(now, currentSize, ok) =>
          if ok {
            nextDelay := NextDelay(nextDelay, currentSize != prevSize);
            prevSize := currentSize;
          }
          nextCheck := now + nextDelay;
      }
      i := i + 1;
    }
    assert ws[..i] == ws;
    s := Schedule(nextDelay, nextCheck, prevSize);
  }

  /** The delay between measurements is always the minimal one, doubled any number of times up to the maximal one. */
  lemma {:induction false} DelaysAreDelays(s: Schedule, ws: seq<Wakeup>)
    requires IsDelay(s.delay)
    ensures IsDelay(AfterWakeups(s, ws).delay)
  {
    if ws != [] {
      var before := AfterWakeups(s, ws[..|ws| - 1]);
      DelaysAreDelays(s, ws[..|ws| - 1]);
      NextDelayIsDelay(before.delay, true);
      NextDelayIsDelay(before.delay, false);
    }
  }

  /** Writes only bring the next measurement closer, to at most the minimal delay after the first of them. */
  lemma {:induction false} WritesNeverPostpone(s: Schedule, ws: seq<Wakeup>)
    requires forall i :: 0 <= i < |ws| ==> ws[i].Written?
    ensures AfterWakeups(s, ws).check <= s.check
    ensures forall i :: 0 <= i < |ws| ==> AfterWakeups(s, ws).check <= ws[i].time + MIN_DELAY
    ensures AfterWakeups(s, ws).check == s.check
         || exists i :: 0 <= i < |ws| && AfterWakeups(s, ws).check == ws[i].time + MIN_DELAY
  {
    if ws != [] {
      WritesNeverPostpone(s, ws[..|ws| - 1]);
    }
  }

  /** Measurements without a change, after which the delay is doubled each time. */
  ghost predicate AreUnchanged(size: int, ws: seq<Wakeup>) {
    forall i :: 0 <= i < |ws| ==> ws[i].Due? && ws[i].ok && ws[i].size == size
  }

  /** A change, or a write, brings the delay back to the minimum of about 7 minutes. After that, each measurement
      without a change doubles it, up to 8 times that. A failed measurement doesn't affect it. */
  lemma {:induction false} DelaysDouble(s: Schedule, w: Wakeup, ws: seq<Wakeup>)
    requires w.Written? || (w.ok && w.size != s.size)
    requires AreUnchanged(if w.Due? then w.size else s.size, ws)
    ensures var t := AfterWakeups(AfterWakeup(s, w), ws);
      && t.delay == 421 * (if |ws| == 0 then 1 else if |ws| == 1 then 2 else if |ws| == 2 then 4 else 8)
      && (ws != [] ==> t.check == ws[|ws| - 1].time + t.delay)
      && t.size == if w.Due? then w.size else s.size
    decreases |ws|
  {
    if ws != [] {
      DelaysDouble(s, w, ws[..|ws| - 1]);
    }
  }

  lemma FailuresChangeNothing(s: Schedule, w: Wakeup)
    requires w.Due? && !w.ok
    ensures AfterWakeup(s, w) == s.(check := w.time + s.delay)
  {}
}
