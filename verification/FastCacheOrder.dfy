/** What concurrent calls on a key of the cache without a lock may rely on, and what they may not. */
module FastCacheOrder {
  import opened FastCacheRaces
  import opened Windows
  import opened Wrappers
  import CacheSpec

  // ---- In general: each call takes effect once, but its reading of the clock may be a different moment.

  /** In every run, the results of the calls are those of the log, in which each call takes effect exactly once, at a
      moment between its beginning and its end, with readings of the clock from that time. The moments are in order,
      but the readings may not be: the effect of a load is decided only later, and that of a replacement earlier. */
  lemma CallsFollowTheLog<V>(initial: Option<Item<V>>, clock: int, es: seq<Event<V>>, c: nat)
    requires IsRun(Start(initial, clock), es)
    ensures var s := After(Start(initial, clock), es);
      && IsLegal(initial, s.log) && AreOrdered(s.log)
      && (c < |s.calls| && s.calls[c].Returned? ==>
            var call := s.calls[c];
            && call.start <= call.entry < |s.log|
            && var e := s.log[call.entry];
            && e.counts && e.call == c && IsOf(e, call.op) && e.result == Some(call.result)
            && call.since <= e.moment <= call.end && call.since <= e.at <= e.decided <= call.end
            && (forall i :: 0 <= i < |s.log| && s.log[i].counts && s.log[i].call == c ==> i == call.entry))
  {
    InvRun(initial, Start(initial, clock), es);
    var s := After(Start(initial, clock), es);
    hide After, IsRun, IsLegal, Replay, AreOrdered;
    assert c < |s.calls| ==> IsConsistent(initial, s, c);
    forall i | 0 <= i < |s.log| && s.log[i].counts && s.log[i].call == c && c < |s.calls| && s.calls[c].Returned?
      ensures i == s.calls[c].entry
    {
      assert HasCall(s, i);
    }
    hide IsOf;
  }

  // ---- The same effects with other readings of the clock.

  function WithReadings<V>(log: seq<Entry<V>>, ats: seq<int>): seq<Entry<V>>
    requires |ats| == |log|
  {
    seq(|log|, i requires 0 <= i < |log| => log[i].(at := ats[i]))
  }

  /** The stored item is expired at both readings, or at neither of them, unless it makes no difference. */
  predicate IsSameReading<V(==)>(item: Option<Item<V>>, e: Entry<V>, at: int) {
    e.counts && e.result.Some? && !e.op.Set? ==> IsDead(item, at) == IsDead(item, e.at)
  }

  ghost predicate AreSameReadings<V>(initial: Option<Item<V>>, log: seq<Entry<V>>, ats: seq<int>)
    requires |ats| == |log|
  {
    forall i :: 0 <= i < |log| ==> IsSameReading(Replay(initial, log[..i]), log[i], ats[i])
  }

  lemma ReadingOfEntry<V>(item: Option<Item<V>>, e: Entry<V>, at: int)
    requires IsDetermined(e) && EntryIsLegal(item, e)
    ensures EntryIsLegal(item, e.(at := at)) <==> IsSameReading(item, e, at)
    ensures IsSameReading(item, e, at) ==> EntryItem(item, e.(at := at)) == EntryItem(item, e)
  {}

  /** The results remain legal with other readings if and only if each of them gives the same answer. */
  lemma {:induction false} ReadingsOfLog<V>(initial: Option<Item<V>>, log: seq<Entry<V>>, ats: seq<int>)
    requires IsLegal(initial, log) && |ats| == |log| && forall i :: 0 <= i < |log| ==> IsDetermined(log[i])
    ensures IsLegal(initial, WithReadings(log, ats)) <==> AreSameReadings(initial, log, ats)
    ensures AreSameReadings(initial, log, ats) ==> Replay(initial, WithReadings(log, ats)) == Replay(initial, log)
    decreases |log|
  {
    hide EntryIsLegal, EntryItem, IsSameReading, IsDetermined, AreSameReadings;
    PartsOfReadings(initial, log, ats);
    if log != [] {
      var n := |log| - 1;
      ReadingsOfLog(initial, log[..n], ats[..n]);
      assert WithReadings(log, ats)[..n] == WithReadings(log[..n], ats[..n]);
      ReadingOfEntry(Replay(initial, log[..n]), log[n], ats[n]);
    }
  }

  lemma PartsOfReadings<V>(initial: Option<Item<V>>, log: seq<Entry<V>>, ats: seq<int>)
    requires |ats| == |log|
    ensures log == [] ==> AreSameReadings(initial, log, ats)
    ensures log != [] ==>
      var n := |log| - 1;
      (AreSameReadings(initial, log, ats) <==>
         AreSameReadings(initial, log[..n], ats[..n]) && IsSameReading(Replay(initial, log[..n]), log[n], ats[n]))
  {
    hide Replay, IsSameReading;
    if log != [] {
      var init := log[..|log| - 1];
      forall i | 0 <= i < |init|
        ensures init[i] == log[i] && Replay(initial, init[..i]) == Replay(initial, log[..i])
      {
        assert init[..i] == log[..i];
      }
    }
  }

  // ---- When there are readings in the order of the effects.

  function Beginning<V>(s: State<V>, c: nat): int {
    if c < |s.calls| then s.calls[c].since else s.clock
  }

  function Ending<V>(s: State<V>, c: nat): int {
    if c < |s.calls| && s.calls[c].Returned? then s.calls[c].end else s.clock
  }

  /** When a call may have read the clock to find what it found: while it lasted, and after the stored item's expiration
      if it found it expired, or not after that if it found it live. */
  function WindowOf<V>(item: Option<Item<V>>, e: Entry<V>, since: int, end: int): Window {
    if !e.counts then Any
    else if e.result.None? || e.op.Set? || item == None || item.value.expiration == None then Within(since, end)
    else
      var x := item.value.expiration.value;
      if item.value.Expired(e.at) then Within(if x >= since then x + 1 else since, end)
      else Within(since, if x < end then x else end)
  }

  function WindowsOf<V>(initial: Option<Item<V>>, s: State<V>): seq<Window> {
    seq(|s.log|, i requires 0 <= i < |s.log| =>
      var e := s.log[i]; WindowOf(Replay(initial, s.log[..i]), e, Beginning(s, e.call), Ending(s, e.call)))
  }

  /** Readings in the order of the effects, each between the beginning and the end of its call. */
  ghost predicate AreReadings<V>(s: State<V>, ats: seq<int>) {
    && |ats| == |s.log| && AreAscending(ats)
    && forall i :: 0 <= i < |s.log| && s.log[i].counts ==>
         Beginning(s, s.log[i].call) <= ats[i] <= Ending(s, s.log[i].call)
  }

  lemma WindowHas<V>(item: Option<Item<V>>, e: Entry<V>, since: int, end: int, at: int)
    ensures WindowOf(item, e, since, end).Has(at) <==> (e.counts ==> since <= at <= end && IsSameReading(item, e, at))
  {}

  lemma FittingReadings<V>(initial: Option<Item<V>>, s: State<V>, ats: seq<int>)
    requires Inv(initial, s) && |ats| == |s.log|
    ensures Fit(WindowsOf(initial, s), ats) <==> AreReadings(s, ats) && IsLegal(initial, WithReadings(s.log, ats))
  {
    forall i | 0 <= i < |s.log|
      ensures IsDetermined(s.log[i])
    {
      assert HasCall(s, i);
    }
    ReadingsOfLog(initial, s.log, ats);
    hide IsDetermined, Replay, IsLegal, Inv, AreAscending, Beginning, Ending, WithReadings;
    var ws := WindowsOf(initial, s);
    forall i | 0 <= i < |s.log|
      ensures ws[i].Has(ats[i]) <==>
        (s.log[i].counts ==> Beginning(s, s.log[i].call) <= ats[i] <= Ending(s, s.log[i].call))
        && IsSameReading(Replay(initial, s.log[..i]), s.log[i], ats[i])
    {
      var e := s.log[i];
      WindowHas(Replay(initial, s.log[..i]), e, Beginning(s, e.call), Ending(s, e.call), ats[i]);
    }
    hide WindowsOf, IsSameReading;
  }

  /** In any run: the same results, in the order of their effects, are legal with readings of the clock in that order
      too, each during its call, if and only if no call's window begins after that of a later effect ends. */
  lemma OrderedReadingsIff<V>(initial: Option<Item<V>>, clock: int, es: seq<Event<V>>)
    requires IsRun(Start(initial, clock), es)
    ensures var s := After(Start(initial, clock), es);
      (exists ats :: AreReadings(s, ats) && IsLegal(initial, WithReadings(s.log, ats)))
      <==> AreCompatible(WindowsOf(initial, s))
  {
    InvRun(initial, Start(initial, clock), es);
    var s := After(Start(initial, clock), es);
    hide After, IsRun, Inv, IsLegal, Fit, AreCompatible, WithReadings;
    var ws := WindowsOf(initial, s);
    FitIff(ws);
    if ats :| AreReadings(s, ats) && IsLegal(initial, WithReadings(s.log, ats)) {
      FittingReadings(initial, s, ats);
    }
    if ats :| Fit(ws, ats) {
      assert |ats| == |ws| by { FitHasAll(ws, ats); }
      FittingReadings(initial, s, ats);
    }
  }

  lemma FitHasAll(ws: seq<Window>, ts: seq<int>)
    requires Fit(ws, ts)
    ensures |ts| == |ws|
  {}

  // ---- Sequential explanations.

  predicate IsResolvedAt<V(==)>(op: Op<V>, call: Call<V>, now: int)
    requires call.Returned? && call.op.Replace?
  {
    call.since <= now <= call.end && op == call.op.(deadline := Resolved(call.op.deadline, now))
  }

  /** The operation of a call, where the deadline of a replacement is computed some time during the call. */
  ghost predicate IsDuring<V>(op: Op<V>, call: Call<V>)
    requires call.Returned?
  {
    || op == call.op
    || (call.op.Replace? && exists now :: IsResolvedAt(op, call, now))
  }

  ghost predicate IsEntryOf<V>(log: seq<Entry<V>>, c: nat, i: nat) {
    i < |log| && log[i].counts && log[i].call == c
  }

  /** A sequential run which explains all the results: each call has one effect, with a reading of the clock
      between its beginning and its end, and the readings are in order. */
  ghost predicate Explains<V>(initial: Option<Item<V>>, calls: seq<Call<V>>, log: seq<Entry<V>>) {
    && IsLegal(initial, log)
    && (forall i, j :: 0 <= i < j < |log| ==> log[i].at <= log[j].at)
    && (forall c :: 0 <= c < |calls| && calls[c].Returned? ==> exists i: nat :: IsEntryOf(log, c, i))
    && (forall c: nat, i: nat, j: nat :: IsEntryOf(log, c, i) && IsEntryOf(log, c, j) ==> i == j)
    && (forall c: nat, i: nat :: IsEntryOf(log, c, i) ==>
          && c < |calls| && calls[c].Returned? && log[i].result == Some(calls[c].result)
          && IsDuring(log[i].op, calls[c]) && calls[c].since <= log[i].at <= calls[c].end)
  }

  /** When all the calls returned, the effects in their order explain all the results, with suitable readings,
      if and only if no call's window begins after that of a later effect ends. */
  lemma ExplainedInOrderIff<V>(initial: Option<Item<V>>, clock: int, es: seq<Event<V>>)
    requires IsRun(Start(initial, clock), es)
    requires forall c :: 0 <= c < |After(Start(initial, clock), es).calls| ==>
      After(Start(initial, clock), es).calls[c].Returned?
    ensures var s := After(Start(initial, clock), es);
      (exists ats :: |ats| == |s.log| && Explains(initial, s.calls, WithReadings(s.log, ats)))
      <==> AreCompatible(WindowsOf(initial, s))
  {
    OrderedReadingsIff(initial, clock, es);
    InvRun(initial, Start(initial, clock), es);
    var s := After(Start(initial, clock), es);
    hide After, IsRun, Inv, IsLegal, AreCompatible, WindowsOf, WithReadings, Explains, AreReadings;
    if ats :| |ats| == |s.log| && Explains(initial, s.calls, WithReadings(s.log, ats)) {
      ExplainedByReadings(initial, s, ats);
    }
    if ats :| AreReadings(s, ats) && IsLegal(initial, WithReadings(s.log, ats)) {
      assert |ats| == |s.log| by { ReadingsOfAll(s, ats); }
      ExplainedByReadings(initial, s, ats);
    }
  }

  lemma ReadingsOfAll<V>(s: State<V>, ats: seq<int>)
    requires AreReadings(s, ats)
    ensures |ats| == |s.log|
  {}

  lemma ExplainedByReadings<V>(initial: Option<Item<V>>, s: State<V>, ats: seq<int>)
    requires Inv(initial, s) && |ats| == |s.log| && forall c :: 0 <= c < |s.calls| ==> s.calls[c].Returned?
    ensures Explains(initial, s.calls, WithReadings(s.log, ats)) <==>
      AreReadings(s, ats) && IsLegal(initial, WithReadings(s.log, ats))
  {
    EntriesOfCalls(initial, s, ats);
    var log := WithReadings(s.log, ats);
    hide IsLegal, IsDuring, Inv;
    if Explains(initial, s.calls, log) {
      forall i | 0 <= i < |s.log| && s.log[i].counts
        ensures Beginning(s, s.log[i].call) <= ats[i] <= Ending(s, s.log[i].call)
      {
        assert IsEntryOf(log, log[i].call, i);
      }
      forall i, j | 0 <= i <= j < |ats|
        ensures ats[i] <= ats[j]
      {
        assert i < j ==> log[i].at <= log[j].at;
      }
    }
    if AreReadings(s, ats) && IsLegal(initial, log) {
      hide IsEntryOf;
      assert forall i, j :: 0 <= i < j < |log| ==> log[i].at <= log[j].at;
      assert Explains(initial, s.calls, log) by {
        hide WithReadings, AreReadings;
      }
    }
  }

  lemma EntriesOfCalls<V>(initial: Option<Item<V>>, s: State<V>, ats: seq<int>)
    requires Inv(initial, s) && |ats| == |s.log| && forall c :: 0 <= c < |s.calls| ==> s.calls[c].Returned?
    ensures var log := WithReadings(s.log, ats);
      && (forall c :: 0 <= c < |s.calls| ==> IsEntryOf(log, c, s.calls[c].entry))
      && (forall c: nat, i: nat :: IsEntryOf(log, c, i) ==>
            && c < |s.calls| && i == s.calls[c].entry && log[i].result == Some(s.calls[c].result)
            && IsDuring(log[i].op, s.calls[c])
            && (AreReadings(s, ats) ==> s.calls[c].since <= log[i].at <= s.calls[c].end))
  {
    hide IsLegal, Replay, IsSame, AreOrdered, AreAscending;
    var log := WithReadings(s.log, ats);
    forall c | 0 <= c < |s.calls|
      ensures IsEntryOf(log, c, s.calls[c].entry)
    {
      assert IsConsistent(initial, s, c);
    }
    forall c: nat, i: nat | IsEntryOf(log, c, i)
      ensures && c < |s.calls| && i == s.calls[c].entry && log[i].result == Some(s.calls[c].result)
              && IsDuring(log[i].op, s.calls[c])
              && (AreReadings(s, ats) ==> s.calls[c].since <= log[i].at <= s.calls[c].end)
    {
      assert HasCall(s, i) && IsConsistent(initial, s, c);
      var e, call := s.log[i], s.calls[c];
      assert OwnsEntry(s, c, i) && IsOf(e, call.op);
      assert e.op != call.op ==> IsResolvedAt(e.op, call, e.decided);
    }
  }

  // ---- A simple sufficient condition.

  function Moments<V>(log: seq<Entry<V>>): seq<int> {
    seq(|log|, i requires 0 <= i < |log| => log[i].moment)
  }

  /** When all the calls returned, and no item expired between an access and the reading which decided its effect, each
      call may as well have read the clock at the moment of its effect. */
  lemma PunctualRunsAreExplained<V>(initial: Option<Item<V>>, clock: int, es: seq<Event<V>>)
    requires IsRun(Start(initial, clock), es)
    requires var s := After(Start(initial, clock), es);
      && AreSameReadings(initial, s.log, Moments(s.log)) && (forall c :: 0 <= c < |s.calls| ==> s.calls[c].Returned?)
    ensures var s := After(Start(initial, clock), es);
      Explains(initial, s.calls, WithReadings(s.log, Moments(s.log)))
  {
    InvRun(initial, Start(initial, clock), es);
    var s := After(Start(initial, clock), es);
    hide After, IsRun, IsLegal, Replay, AreSameReadings, Explains, WithReadings, IsSame;
    forall i | 0 <= i < |s.log|
      ensures IsDetermined(s.log[i])
      ensures s.log[i].counts ==>
        Beginning(s, s.log[i].call) <= s.log[i].moment <= Ending(s, s.log[i].call)
    {
      assert HasCall(s, i) && IsConsistent(initial, s, s.log[i].call);
    }
    hide IsDetermined, IsConsistent, HasCall;
    ReadingsOfLog(initial, s.log, Moments(s.log));
    MomentsAscend(s.log);
    assert AreReadings(s, Moments(s.log));
    hide Inv;
    ExplainedByReadings(initial, s, Moments(s.log));
  }

  lemma MomentsAscend<V>(log: seq<Entry<V>>)
    requires AreOrdered(log)
    ensures AreAscending(Moments(log))
  {
    forall i, j | 0 <= i <= j < |log|
      ensures Moments(log)[i] <= Moments(log)[j]
    {}
  }

  // ---- A call may miss a key that was live all the time.

  /** A call loads an item; another one replaces it while it's still live; then it expires, and only now the first call
      reads the clock. */
  function LateReading(old': Item<int>, new': Item<int>, later: int): seq<Event<int>> {
    [Begin(Read), Step(0), Begin(Set(new')), Step(1), Tick(later), Step(0), Step(0)]
  }

  function Missed(new': Item<int>, old': Item<int>, later: int): State<int> {
    State(Some(new'), later,
      [Returned(Read, 0, 0, Found(None), 0, later), Returned(Set(new'), 1, 0, Done, 1, 0)],
      [Entry(0, Read, 0, later, later, Some(Found(None)), true), Entry(1, Set(new'), 0, 0, 0, Some(Done), true)])
  }

  predicate IsLiveIn(s: State<int>) {
    !IsDead(s.cell, s.clock)
  }

  /** All the states of a run, including the first one. */
  ghost predicate AlwaysLive(s: State<int>, es: seq<Event<int>>)
    requires IsRun(s, es)
    decreases |es|
  {
    IsLiveIn(s) && (es != [] ==> AlwaysLive(Apply(s, es[0]), es[1..]))
  }

  lemma OneStep(s: State<int>, e: Event<int>, es: seq<Event<int>>)
    requires Enabled(s, e) && IsRun(Apply(s, e), es) && IsLiveIn(s) && AlwaysLive(Apply(s, e), es)
    ensures IsRun(s, [e] + es) && After(s, [e] + es) == After(Apply(s, e), es) && AlwaysLive(s, [e] + es)
  {
    assert ([e] + es)[1..] == es;
  }

  /** The first call loaded the item, and the second one is about to replace it. */
  function Halfway(old': Item<int>, new': Item<int>): State<int> {
    State(Some(old'), 0, [Loaded(Read, 0, 0, old', 0), Calling(Set(new'), 1, 0)], [Entry(0, Read, 0, 0, 0, None, true)])
  }

  lemma FirstHalf(old': Item<int>, new': Item<int>, es: seq<Event<int>>)
    requires !old'.Expired(0) && IsRun(Halfway(old', new'), es) && AlwaysLive(Halfway(old', new'), es)
    ensures var s, first := Start(Some(old'), 0), [Event<int>.Begin(Read), Step(0), Begin(Set(new'))];
      && IsRun(s, first + es) && AlwaysLive(s, first + es) && After(s, first + es) == After(Halfway(old', new'), es)
  {
    var s0, e0, e1, e2 := Start(Some(old'), 0), Event<int>.Begin(Read), Event<int>.Step(0), Event<int>.Begin(Set(new'));
    var s1 := Apply(s0, e0);
    var s2 := Apply(s1, e1);
    assert Apply(s2, e2) == Halfway(old', new');
    hide Apply, After, IsRun, AlwaysLive, Halfway;
    OneStep(s2, e2, es);
    OneStep(s1, e1, [e2] + es);
    OneStep(s0, e0, [e1] + ([e2] + es));
    assert [e0] + ([e1] + ([e2] + es)) == [e0, e1, e2] + es;
  }

  lemma SecondHalf(old': Item<int>, new': Item<int>, later: int)
    requires later > 0 && old'.expiration.Some? && 0 <= old'.expiration.value < later && !new'.Expired(later)
    ensures var s, es := Halfway(old', new'), [Event<int>.Step(1), Tick(later), Step(0), Step(0)];
      IsRun(s, es) && AlwaysLive(s, es) && After(s, es) == Missed(new', old', later)
  {
    var e3, e4, e5, e6 := Event<int>.Step(1), Event<int>.Tick(later), Event<int>.Step(0), Event<int>.Step(0);
    var s3 := Halfway(old', new');
    var s4 := Apply(s3, e3);
    var s5 := Apply(s4, e4);
    var s6 := Apply(s5, e5);
    var s7 := Apply(s6, e6);
    assert s7 == Missed(new', old', later);
    assert IsRun(s7, []) && AlwaysLive(s7, []) && After(s7, []) == s7;
    hide Apply, After, IsRun, AlwaysLive, Halfway;
    OneStep(s6, e6, []);
    OneStep(s5, e5, [e6] + []);
    OneStep(s4, e4, [e5] + ([e6] + []));
    OneStep(s3, e3, [e4] + ([e5] + ([e6] + [])));
    assert [e3] + ([e4] + ([e5] + ([e6] + []))) == [e3, e4, e5, e6];
  }

  lemma LateReadingRuns(old': Item<int>, new': Item<int>, later: int)
    requires later > 0 && old'.expiration.Some? && 0 <= old'.expiration.value < later && !new'.Expired(later)
    ensures var s := Start(Some(old'), 0);
      && IsRun(s, LateReading(old', new', later))
      && After(s, LateReading(old', new', later)) == Missed(new', old', later)
      && AlwaysLive(s, LateReading(old', new', later))
  {
    var es := [Event<int>.Step(1), Tick(later), Step(0), Step(0)];
    hide Apply, After, IsRun, AlwaysLive, Halfway;
    SecondHalf(old', new', later);
    FirstHalf(old', new', es);
    assert LateReading(old', new', later) == [Event<int>.Begin(Read), Step(0), Begin(Set(new'))] + es;
  }

  lemma {:induction false} ReplayOfOthers<V>(initial: Option<Item<V>>, log: seq<Entry<V>>, i: nat, j: nat)
    requires i <= j <= |log| && forall k :: i <= k < j ==> !log[k].counts
    ensures Replay(initial, log[..j]) == Replay(initial, log[..i])
    decreases j
  {
    if i < j {
      assert log[..j][..j - 1] == log[..j - 1];
      ReplayOfOthers(initial, log, i, j - 1);
    }
  }

  lemma {:induction false} LegalAt<V>(initial: Option<Item<V>>, log: seq<Entry<V>>, i: nat)
    requires IsLegal(initial, log) && i < |log|
    ensures EntryIsLegal(Replay(initial, log[..i]), log[i])
    ensures Replay(initial, log[..i + 1]) == EntryItem(Replay(initial, log[..i]), log[i])
    decreases |log|
  {
    hide EntryIsLegal, EntryItem;
    assert log[..i + 1][..i] == log[..i];
    if i < |log| - 1 {
      LegalAt(initial, log[..|log| - 1], i);
      assert log[..|log| - 1][..i] == log[..i];
    } else {
      assert log[..|log| - 1] == log[..i] && log[..i + 1] == log;
    }
  }

  /** The first call didn't find the key, although it was live in every state of the run; and no sequential run with
      readings in their order explains that. */
  lemma LateReadingMissesLiveKey(old': Item<int>, new': Item<int>, later: int)
    requires later > 0 && old'.expiration.Some? && 0 <= old'.expiration.value < later && !new'.Expired(later)
    ensures var s, es := Start(Some(old'), 0), LateReading(old', new', later);
      && IsRun(s, es) && AlwaysLive(s, es)
      && |After(s, es).calls| == 2
      && After(s, es).calls[0].Returned? && After(s, es).calls[0].result == Found(None)
      && !exists log :: Explains(Some(old'), After(s, es).calls, log)
  {
    LateReadingRuns(old', new', later);
    var calls := Missed(new', old', later).calls;
    hide After, IsRun, AlwaysLive;
    forall log: seq<Entry<int>>
      ensures !Explains(Some(old'), calls, log)
    {
      NothingExplains(old', new', later, log);
    }
  }

  lemma NothingExplains(old': Item<int>, new': Item<int>, later: int, log: seq<Entry<int>>)
    requires later > 0 && old'.expiration.Some? && 0 <= old'.expiration.value < later && !new'.Expired(later)
    ensures !Explains(Some(old'), Missed(new', old', later).calls, log)
  {
    var initial := Some(old');
    var calls := Missed(new', old', later).calls;
    if Explains(initial, calls, log) {
      assert calls[0].Returned? && calls[1].Returned?;
      var r: nat :| IsEntryOf(log, 0, r);
      var w: nat :| IsEntryOf(log, 1, w);
      forall k: nat | k < |log| && log[k].counts
        ensures k == r || k == w
      {
        assert IsEntryOf(log, log[k].call, k);
      }
      hide Replay, IsLegal;
      ReadBesideSet(initial, log, r, w, new');
    }
  }

  /** What a read finds, when there's nothing else but a write. */
  lemma ReadBesideSet(initial: Option<Item<int>>, log: seq<Entry<int>>, r: nat, w: nat, new': Item<int>)
    requires IsLegal(initial, log) && r < |log| && w < |log| && r != w && log[r].result.Some?
    requires log[r].counts && log[r].op == Read && log[w].counts && log[w].op == Set(new')
    requires forall k :: 0 <= k < |log| && log[k].counts ==> k == r || k == w
    ensures var stored := if r < w then initial else Some(new');
      log[r].result.value == Found(if IsDead(stored, log[r].at) then None else stored)
  {
    LegalAt(initial, log, r);
    LegalAt(initial, log, w);
    assert log[..0] == [];
    if r < w {
      ReplayOfOthers(initial, log, 0, r);
    } else {
      ReplayOfOthers(initial, log, 0, w);
      ReplayOfOthers(initial, log, w + 1, r);
    }
    hide Replay, IsLegal;
  }

  // ---- A race of additions.

  /** Sequentially, the first addition wins, and all the others get its value. */
  lemma {:induction false} FirstAddWins<V>(initial: Option<Item<V>>, log: seq<Entry<V>>, w: nat)
    requires w < |log| && log[w].counts && IsLegal(initial, log) && forall i :: 0 <= i < w ==> !log[i].counts
    requires forall i :: 0 <= i < |log| && log[i].counts ==>
      log[i].op.Add? && log[i].result.Some? && IsDead(initial, log[i].at)
    requires forall i :: 0 <= i < |log| && log[i].counts ==> !log[w].op.item.Expired(log[i].at)
    ensures forall i :: 0 <= i < |log| && log[i].counts ==>
      log[i].result.value == Added(log[w].op.item.value, i == w)
    ensures Replay(initial, log) == Some(log[w].op.item)
    decreases |log|
  {
    var last, init := log[|log| - 1], log[..|log| - 1];
    if w < |init| {
      FirstAddWins(initial, init, w);
      assert forall i :: 0 <= i < |init| ==> log[i] == init[i];
    } else {
      ReplayOfOthers(initial, log, 0, w);
      assert log[..0] == [] && log[..w] == init;
    }
  }

  ghost predicate AreAdditions<V>(es: seq<Event<V>>) {
    forall e :: e in es && e.Begin? ==> e.op.Add?
  }

  ghost predicate AllAdd<V>(s: State<V>) {
    forall c :: 0 <= c < |s.calls| ==> s.calls[c].op.Add?
  }

  ghost predicate IsLater<V>(s: State<V>, clock: int) {
    s.clock >= clock && forall c :: 0 <= c < |s.calls| ==> s.calls[c].since >= clock
  }

  lemma AdditionStep<V>(s: State<V>, e: Event<V>, clock: int)
    requires AllAdd(s) && IsLater(s, clock) && Enabled(s, e) && (e.Begin? ==> e.op.Add?)
    ensures AllAdd(Apply(s, e)) && IsLater(Apply(s, e), clock)
  {}

  lemma {:induction false} AdditionRun<V>(s: State<V>, es: seq<Event<V>>, clock: int)
    requires AllAdd(s) && IsLater(s, clock) && IsRun(s, es) && AreAdditions(es)
    ensures AllAdd(After(s, es)) && IsLater(After(s, es), clock)
    decreases |es|
  {
    hide AllAdd, IsLater, Apply, Enabled;
    if es != [] {
      assert es[0] in es && forall e :: e in es[1..] ==> e in es;
      AdditionStep(s, es[0], clock);
      AdditionRun(Apply(s, es[0]), es[1..], clock);
    }
  }

  ghost predicate IsFirst<V>(log: seq<Entry<V>>, w: nat) {
    w < |log| && log[w].counts && forall i :: 0 <= i < w ==> !log[i].counts
  }

  lemma {:induction false} FirstEntry<V>(log: seq<Entry<V>>, i: nat) returns (w: nat)
    requires i < |log| && log[i].counts
    ensures IsFirst(log, w)
  {
    if forall k :: 0 <= k < i ==> !log[k].counts {
      w := i;
    } else {
      var k :| 0 <= k < i && log[k].counts;
      w := FirstEntry(log, k);
    }
  }

  /** What's in the log of a race. */
  lemma RaceLog<V>(initial: Option<Item<V>>, clock: int, s: State<V>)
    requires Inv(initial, s) && AllAdd(s) && IsLater(s, clock) && IsDead(initial, clock)
    requires forall c :: 0 <= c < |s.calls| ==> s.calls[c].op.Add? ==> !s.calls[c].op.item.Expired(s.clock)
    ensures forall i :: 0 <= i < |s.log| && s.log[i].counts ==>
      && s.log[i].op.Add? && s.log[i].result.Some? && IsDead(initial, s.log[i].at) && s.log[i].at <= s.clock
      && s.log[i].call < |s.calls| && s.log[i].op == s.calls[s.log[i].call].op
      && !s.log[i].op.item.Expired(s.clock)
  {
    hide IsLegal, Replay, IsSame, AreOrdered;
    forall i | 0 <= i < |s.log| && s.log[i].counts
      ensures && s.log[i].op.Add? && s.log[i].result.Some? && IsDead(initial, s.log[i].at) && s.log[i].at <= s.clock
              && s.log[i].call < |s.calls| && s.log[i].op == s.calls[s.log[i].call].op
              && !s.log[i].op.item.Expired(s.clock)
    {
      assert HasCall(s, i) && IsConsistent(initial, s, s.log[i].call);
    }
  }

  /** However concurrent additions of a key without a live item are interleaved, whenever they read the clock, and
      whatever the cleanup removes meanwhile: if none of the new items expires, then as soon as one of the additions
      returned, exactly one of them has won, and all those that return get its value. */
  lemma ExactlyOneAddWins<V>(initial: Option<Item<V>>, clock: int, es: seq<Event<V>>, r: nat)
    requires IsRun(Start(initial, clock), es) && AreAdditions(es) && IsDead(initial, clock)
    requires var s := After(Start(initial, clock), es);
      && (forall c :: 0 <= c < |s.calls| ==> s.calls[c].op.Add? ==> !s.calls[c].op.item.Expired(s.clock))
      && r < |s.calls| && s.calls[r].Returned?
    ensures var s := After(Start(initial, clock), es);
      exists winner: nat ::
        && winner < |s.calls| && s.calls[winner].Returned? && s.calls[winner].op.Add?
        && s.cell == Some(s.calls[winner].op.item)
        && forall c :: 0 <= c < |s.calls| && s.calls[c].Returned? ==>
             s.calls[c].result == Added(s.calls[winner].op.item.value, c == winner)
  {
    var s0 := Start(initial, clock);
    var s := After(s0, es);
    InvRun(initial, s0, es);
    AdditionRun(s0, es, clock);
    hide After, IsRun;
    RaceLog(initial, clock, s);
    RaceHasWinner(initial, s, r);
  }

  lemma RaceHasWinner<V>(initial: Option<Item<V>>, s: State<V>, r: nat)
    requires Inv(initial, s) && AllAdd(s) && r < |s.calls| && s.calls[r].Returned?
    requires forall i :: 0 <= i < |s.log| && s.log[i].counts ==>
      && s.log[i].op.Add? && s.log[i].result.Some? && IsDead(initial, s.log[i].at) && s.log[i].at <= s.clock
      && s.log[i].call < |s.calls| && s.log[i].op == s.calls[s.log[i].call].op
      && !s.log[i].op.item.Expired(s.clock)
    ensures exists winner: nat ::
        && winner < |s.calls| && s.calls[winner].Returned? && s.calls[winner].op.Add?
        && s.cell == Some(s.calls[winner].op.item)
        && forall c :: 0 <= c < |s.calls| && s.calls[c].Returned? ==>
             s.calls[c].result == Added(s.calls[winner].op.item.value, c == winner)
  {
    assert IsConsistent(initial, s, r);
    var w := FirstEntry(s.log, s.calls[r].entry);
    FirstAddWins(initial, s.log, w);
    hide IsLegal, Replay, AreOrdered;
    var winner := s.log[w].call;
    assert HasCall(s, w) && IsConsistent(initial, s, winner);
    forall c | 0 <= c < |s.calls| && s.calls[c].Returned?
      ensures s.calls[c].result == Added(s.calls[winner].op.item.value, c == winner)
    {
      assert IsConsistent(initial, s, c);
    }
    assert s.calls[winner].Returned?;
    hide IsConsistent, HasCall;
  }
}
