/** The batcher under concurrency: its methods are atomic, because they run under its lock, but a timer's callback
    may start before its batch is taken by others, and get the lock only long after that. */
module BatcherRuns {
  import opened Batches
  import opened Batching
  import opened Wrappers

  /** A started timer: when it expires, whether its callback is already running (too late to stop it),
      and the position of its batch's first item in the stream of all items. */
  datatype Flight = Flight(deadline: int, running: bool, first: nat)

  /** A batch that a callback took: the timer's position, the batch's own position, when it began, and when it ended. */
  datatype TimedOut = TimedOut(first: nat, start: int, since: int, at: int)

  datatype State<T> = State(
    p: Pending<T>, flights: map<nat, Flight>, refused: set<nat>, clock: int, since: int,
    added: seq<T>, taken: seq<seq<T>>, timedOut: seq<TimedOut>)

  datatype Event<T> =
    | Add(items: seq<T>)
    | Flush
    | Tick(now: int)
    | Expire(gen: nat)
    | Callback(gen: nat, admitted: bool) // The guard runs the callback's flush, or refuses it.

  function Start<T>(): State<T> {
    State(Pending([], None, 0), map[], {}, 0, 0, [], [], [])
  }

  predicate Enabled<T>(s: State<T>, e: Event<T>) {
    match e
    case Add(_) => true
    case Flush => true
    case Tick(now) => now >= s.clock
    case Expire(g) => g in s.flights && !s.flights[g].running && s.flights[g].deadline <= s.clock
    case Callback(g, _) => g in s.flights && s.flights[g].running
  }

  /** Taking a batch stops its timer, unless its callback is already running. */
  function Stopped<T>(s: State<T>): map<nat, Flight> {
    if s.p.timer.Some? && s.p.timer.value in s.flights && !s.flights[s.p.timer.value].running
    then s.flights - {s.p.timer.value} else s.flights
  }

  /** The position of the pending batch's first item. */
  function Position<T>(added: seq<T>, p: Pending<T>): int {
    |added| - |p.buf|
  }

  function AddTo<T>(l: Limits, size: T -> int, s: State<T>, items: seq<T>): State<T> {
    var out := AfterAdd(l, size, s.p, items);
    var taking := out.pending.gen != s.p.gen;
    var flights := if taking then Stopped(s) else s.flights;
    var starting := out.pending.timer.Some? && out.pending.timer != s.p.timer;
    var added := s.added + items;
    s.(p := out.pending,
       flights := if starting && Position(added, out.pending) >= 0
                  then flights[out.pending.gen := Flight(s.clock + l.window, false, Position(added, out.pending))]
                  else flights,
       since := if taking || s.p.buf == [] then s.clock else s.since,
       added := added, taken := s.taken + out.ready)
  }

  function Apply<T>(l: Limits, size: T -> int, s: State<T>, e: Event<T>): State<T>
    requires Enabled(s, e)
  {
    match e
    case Add(items) => AddTo(l, size, s, items)
    case Flush =>
      var out := AfterFlush(s.p);
      s.(p := out.pending, flights := Stopped(s), taken := s.taken + out.ready)
    case Tick(now) => s.(clock := now)
    case Expire(g) => s.(flights := s.flights[g := s.flights[g].(running := true)])
    case Callback(g, admitted) =>
      var out := if admitted then AfterTimedFlush(s.p, g) else Outcome(s.p, []);
      s.(p := out.pending, flights := s.flights - {g}, refused := if admitted then s.refused else s.refused + {g},
         taken := s.taken + out.ready,
         timedOut := if out.ready == [] then s.timedOut
                     else s.timedOut + [TimedOut(s.flights[g].first, Position(s.added, s.p), s.since, s.clock)])
  }

  predicate IsRun<T>(l: Limits, size: T -> int, s: State<T>, es: seq<Event<T>>)
    decreases |es|
  {
    es == [] || (Enabled(s, es[0]) && IsRun(l, size, Apply(l, size, s, es[0]), es[1..]))
  }

  function After<T>(l: Limits, size: T -> int, s: State<T>, es: seq<Event<T>>): State<T>
    requires IsRun(l, size, s, es)
    decreases |es|
  {
    if es == [] then s else After(l, size, Apply(l, size, s, es[0]), es[1..])
  }

  /** All the items are in batches or pending, in their order. */
  ghost predicate Conserved<T>(s: State<T>) {
    Flatten(s.taken) + s.p.buf == s.added
  }

  /** All batches are allowed, and the pending one is below the limits too. */
  ghost predicate Limited<T>(l: Limits, size: T -> int, s: State<T>) {
    && (forall batch :: batch in s.taken ==> Allowed(l, size, batch))
    && Below(l, size, s.p.buf)
    && (l.maxItems <= 0 && l.maxBytes <= 0 ==> s.p.buf == [])
  }

  /** A timer is recorded exactly when there's a pending batch with a window. It's the only one that may still be
      stopped, and its callback is yet to come, unless it was refused. Other callbacks belong to older batches. */
  ghost predicate Timed<T>(l: Limits, s: State<T>) {
    && (s.p.timer.Some? <==> s.p.buf != [] && l.window > 0)
    && (s.p.timer.Some? ==> s.p.timer.value == s.p.gen && (s.p.gen in s.flights || s.p.gen in s.refused))
    && (forall g :: g in s.flights && !s.flights[g].running ==> g == s.p.gen)
    && (forall g :: g in s.flights && s.flights[g].running ==> s.flights[g].deadline <= s.clock)
    && (forall g :: g in s.flights ==> g <= s.p.gen)
    && (forall g :: g in s.refused ==> g <= s.p.gen)
    && (s.p.gen in s.flights || s.p.gen in s.refused ==> s.p.timer.Some?)
    && (s.p.gen in s.flights ==>
          && s.flights[s.p.gen].deadline == s.since + l.window
          && s.flights[s.p.gen].first == Position(s.added, s.p))
  }

  /** Every batch that timed out is the one whose timer expired, after its whole window. */
  predicate Punctual<T>(l: Limits, s: State<T>) {
    forall t :: t in s.timedOut ==> t.start == t.first && t.at >= t.since + l.window
  }

  ghost predicate Inv<T>(l: Limits, size: T -> int, s: State<T>) {
    Conserved(s) && Limited(l, size, s) && Timed(l, s) && Punctual(l, s)
  }

  lemma InvAtStart<T>(l: Limits, size: T -> int)
    ensures Inv<T>(l, size, Start())
  {
    NothingIsBelow(l, size);
  }

  // ---- Each step keeps the invariant.

  lemma TakenItems<T>(taken: seq<seq<T>>, buf: seq<T>, ready: seq<seq<T>>, rest: seq<T>, before: seq<T>, items: seq<T>)
    requires Flatten(taken) + buf == before && Flatten(ready) + rest == buf + items
    ensures Flatten(taken + ready) + rest == before + items
  {
    FlattenConcat(taken, ready);
    hide Flatten;
    assert Flatten(taken) + Flatten(ready) + rest == Flatten(taken) + (Flatten(ready) + rest);
    assert Flatten(taken) + (buf + items) == before + items;
  }

  lemma AddConserves<T>(l: Limits, size: T -> int, p: Pending<T>, items: seq<T>)
    requires l.maxItems <= 0 && l.maxBytes <= 0 ==> p.buf == []
    ensures var out := AfterAdd(l, size, p, items); Flatten(out.ready) + out.pending.buf == p.buf + items
  {
    hide Feed, Flatten;
    FlattenNothing<T>();
    if items == [] {
      assert p.buf + items == p.buf;
    } else if l.maxItems <= 0 && l.maxBytes <= 0 {
      FlattenOne(items);
      assert items + [] == [] + items;
    } else {
      FeedConserves(l, size, p.buf, items);
    }
  }

  /** Either no batch was taken, or the timer is as new as the pending batch. */
  lemma AddTimer<T>(l: Limits, size: T -> int, p: Pending<T>, items: seq<T>)
    requires (p.timer.Some? <==> p.buf != [] && l.window > 0) && (l.maxItems <= 0 && l.maxBytes <= 0 ==> p.buf == [])
    ensures var p' := AfterAdd(l, size, p, items).pending;
      && p'.gen >= p.gen && |p'.buf| <= |p.buf| + |items|
      && (p'.timer.Some? <==> p'.buf != [] && l.window > 0)
      && (p'.gen == p.gen && p.timer.Some? ==> p'.timer == p.timer && Position(items, p') == Position([], p))
      && (p'.timer.Some? && (p'.gen > p.gen || p.timer == None) ==> p'.timer == Some(p'.gen))
  {
    AddConserves(l, size, p, items);
    if items != [] && (l.maxItems > 0 || l.maxBytes > 0) {
      FeedWithoutTaking(l, size, p.buf, items);
    }
    hide Feed, Flatten;
  }

  lemma AddIsTimed<T>(l: Limits, size: T -> int, s: State<T>, items: seq<T>)
    requires Conserved(s) && Timed(l, s) && (l.maxItems <= 0 && l.maxBytes <= 0 ==> s.p.buf == [])
    ensures Timed(l, AddTo(l, size, s, items))
  {
    hide AfterAdd, Flatten;
    AddTimer(l, size, s.p, items);
    if AfterAdd(l, size, s.p, items).pending.gen == s.p.gen {
      KeepingIsTimed(l, size, s, items);
    } else {
      TakingIsTimed(l, size, s, items);
    }
    hide AddTo, Timed;
  }

  lemma KeepingIsTimed<T>(l: Limits, size: T -> int, s: State<T>, items: seq<T>)
    requires Conserved(s) && Timed(l, s) && (l.maxItems <= 0 && l.maxBytes <= 0 ==> s.p.buf == [])
    requires AfterAdd(l, size, s.p, items).pending.gen == s.p.gen
    ensures Timed(l, AddTo(l, size, s, items))
  {
    hide AfterAdd, Flatten, Stopped, Conserved;
    AddTimer(l, size, s.p, items);
    PendingIsAdded(s);
  }

  /** Once a batch is taken, its timer can't be stopped anymore only because it's already running. */
  lemma TakingIsTimed<T>(l: Limits, size: T -> int, s: State<T>, items: seq<T>)
    requires Conserved(s) && Timed(l, s) && (l.maxItems <= 0 && l.maxBytes <= 0 ==> s.p.buf == [])
    requires AfterAdd(l, size, s.p, items).pending.gen != s.p.gen
    ensures Timed(l, AddTo(l, size, s, items))
  {
    hide AfterAdd, Flatten, Stopped, Conserved;
    AddTimer(l, size, s.p, items);
    StoppedAreRunning(l, s);
    PendingIsAdded(s);
  }

  lemma StoppedAreRunning<T>(l: Limits, s: State<T>)
    requires Timed(l, s)
    ensures forall g :: g in Stopped(s) ==>
              g in s.flights && s.flights[g].running && Stopped(s)[g] == s.flights[g] && g <= s.p.gen
  {}

  lemma PendingIsAdded<T>(s: State<T>)
    requires Conserved(s)
    ensures |s.p.buf| <= |s.added|
  {}

  /** As long as no batch is completed, the pending one only grows. */
  lemma FeedWithoutTaking<T>(l: Limits, size: T -> int, buf: seq<T>, items: seq<T>)
    ensures var fed := Feed(l, size, buf, items); fed.batches == [] ==> fed.rest == buf + items
  {
    FeedConserves(l, size, buf, items);
    assert Flatten<T>([]) == [];
  }

  lemma AddStep<T>(l: Limits, size: T -> int, s: State<T>, items: seq<T>)
    requires Inv(l, size, s)
    ensures Inv(l, size, AddTo(l, size, s, items))
  {
    AddConserves(l, size, s.p, items);
    AddIsLimited(l, size, s.p, items);
    AddIsTimed(l, size, s, items);
    var out := AfterAdd(l, size, s.p, items);
    assert l.maxItems <= 0 && l.maxBytes <= 0 ==> out.pending.buf == [];
    hide AfterAdd, Timed, Allowed, Below, Flatten;
    TakenItems(s.taken, s.p.buf, out.ready, out.pending.buf, s.added, items);
  }

  lemma FlushConserves<T>(s: State<T>)
    requires Conserved(s)
    ensures var out := AfterFlush(s.p); Flatten(s.taken + out.ready) + out.pending.buf == s.added
  {
    hide Flatten;
    FlattenNothing<T>();
    FlattenOne(s.p.buf);
    var out := AfterFlush(s.p);
    assert Flatten(out.ready) + out.pending.buf == s.p.buf + [];
    TakenItems(s.taken, s.p.buf, out.ready, out.pending.buf, s.added, []);
    assert s.added + [] == s.added;
  }

  lemma InvStep<T>(l: Limits, size: T -> int, s: State<T>, e: Event<T>)
    requires Inv(l, size, s) && Enabled(s, e)
    ensures Inv(l, size, Apply(l, size, s, e))
  {
    hide AddTo, Flatten, Allowed, Below;
    NothingIsBelow(l, size);
    BelowIsAllowed(l, size, s.p.buf);
    match e
    case Add(items) => AddStep(l, size, s, items);
    case Flush => FlushConserves(s);
    case Callback(g, admitted) => FlushConserves(s); assert s.taken + [] == s.taken;
    case _ =>
  }

  /** What all runs keep, with any timing of the callbacks, and any choices of the guard. */
  lemma {:induction false} InvRun<T>(l: Limits, size: T -> int, s: State<T>, es: seq<Event<T>>)
    requires Inv(l, size, s) && IsRun(l, size, s, es)
    ensures Inv(l, size, After(l, size, s, es))
    decreases |es|
  {
    hide Apply, Inv, Enabled;
    if es != [] {
      InvStep(l, size, s, es[0]);
      InvRun(l, size, Apply(l, size, s, es[0]), es[1..]);
    }
  }

  /** Nothing is ever lost, duplicated or reordered, and a flush leaves nothing behind. */
  lemma FlushCompletes<T>(l: Limits, size: T -> int, es: seq<Event<T>>)
    requires IsRun(l, size, Start(), es)
    ensures var s := After(l, size, Start(), es);
      && Flatten(s.taken) + s.p.buf == s.added
      && Flatten(Apply(l, size, s, Flush).taken) == s.added
  {
    InvAtStart(l, size);
    InvRun(l, size, Start(), es);
    FlushConserves(After(l, size, Start(), es));
  }

  /** In every run, the batches are within the limits, but a single item may exceed the byte limit. What's pending is
      below both limits, and nothing is when there are none. */
  lemma LimitsHold<T>(l: Limits, size: T -> int, es: seq<Event<T>>)
    requires IsRun(l, size, Start(), es)
    ensures var s := After(l, size, Start(), es);
      && (forall batch :: batch in s.taken ==> batch != [])
      && (l.maxItems > 0 ==> |s.p.buf| < l.maxItems && forall batch :: batch in s.taken ==> |batch| <= l.maxItems)
      && (l.maxBytes > 0 ==>
            && Total(l, size, s.p.buf) < l.maxBytes
            && forall batch :: batch in s.taken && |batch| > 1 ==> Total(l, size, batch) <= l.maxBytes)
      && (l.maxItems <= 0 && l.maxBytes <= 0 ==> s.p.buf == [])
  {
    InvAtStart(l, size);
    InvRun(l, size, Start(), es);
    hide After, IsRun, Total, Conserved, Timed, Punctual;
    var s := After(l, size, Start(), es);
    forall batch | batch in s.taken
      ensures Allowed(l, size, batch)
    {}
  }

  /** A refused callback, or one whose batch is gone, leaves the pending batch and all others as they are. */
  lemma LateCallbacksTakeNothing<T>(l: Limits, size: T -> int, es: seq<Event<T>>, g: nat, admitted: bool)
    requires IsRun(l, size, Start(), es) && Enabled(After(l, size, Start(), es), Callback(g, admitted))
    ensures var s := After(l, size, Start(), es);
            var s' := Apply(l, size, s, Callback(g, admitted));
      if admitted && g == s.p.gen
      then && s.flights[g].first == Position(s.added, s.p) && s.clock >= s.since + l.window
           && s'.taken == s.taken + [s.p.buf] && s'.p.buf == []
      else s'.taken == s.taken && s'.p == s.p
  {
    InvAtStart(l, size);
    InvRun(l, size, Start(), es);
    hide Flatten, Allowed, Below;
  }

  // ---- Runs in which no batch is flushed early.

  /** Flushes, and callbacks that are let in, find nothing to take. */
  ghost predicate IsQuietStep<T>(s: State<T>, e: Event<T>) {
    e.Flush? || (e.Callback? && e.admitted && e.gen == s.p.gen) ==> s.p.buf == []
  }

  ghost predicate IsQuiet<T>(l: Limits, size: T -> int, s: State<T>, es: seq<Event<T>>)
    requires IsRun(l, size, s, es)
    decreases |es|
  {
    es == [] || (IsQuietStep(s, es[0]) && IsQuiet(l, size, Apply(l, size, s, es[0]), es[1..]))
  }

  function ItemsOf<T>(es: seq<Event<T>>): seq<T> {
    if es == [] then [] else (if es[0].Add? then es[0].items else []) + ItemsOf(es[1..])
  }

  function Progress<T>(s: State<T>): Fed<T> {
    Fed(s.taken, s.p.buf)
  }

  lemma QuietStepFeeds<T>(l: Limits, size: T -> int, s: State<T>, e: Event<T>)
    requires (l.maxItems > 0 || l.maxBytes > 0) && Enabled(s, e) && IsQuietStep(s, e)
    ensures var items := if e.Add? then e.items else [];
      Progress(Apply(l, size, s, e)) == Then(Progress(s), Feed(l, size, s.p.buf, items))
  {
    hide Feed;
    FeedNothing(l, size, s.p.buf);
    assert s.taken + [] == s.taken;
  }

  /** The batches are the same as if all the items were added at once. */
  lemma {:induction false} QuietRunsFeed<T>(l: Limits, size: T -> int, s: State<T>, es: seq<Event<T>>)
    requires (l.maxItems > 0 || l.maxBytes > 0) && IsRun(l, size, s, es) && IsQuiet(l, size, s, es)
    ensures Progress(After(l, size, s, es)) == Then(Progress(s), Feed(l, size, s.p.buf, ItemsOf(es)))
    decreases |es|
  {
    hide Apply, Feed, Enabled, IsQuietStep;
    if es == [] {
      FeedNothing(l, size, s.p.buf);
      assert s.taken + [] == s.taken;
    } else {
      var e, s' := es[0], Apply(l, size, s, es[0]);
      var items := if e.Add? then e.items else [];
      QuietStepFeeds(l, size, s, e);
      QuietRunsFeed(l, size, s', es[1..]);
      FeedInParts(l, size, s.p.buf, items, ItemsOf(es[1..]));
      ThenIsAssociative(Progress(s), Feed(l, size, s.p.buf, items), Feed(l, size, s'.p.buf, ItemsOf(es[1..])));
    }
  }

  /** What was taken in the end, by a flush after the run. */
  function TakenBy<T>(l: Limits, size: T -> int, es: seq<Event<T>>): seq<seq<T>>
    requires IsRun(l, size, Start(), es)
  {
    Apply(l, size, After(l, size, Start(), es), Flush).taken
  }

  lemma QuietRunsClose<T>(l: Limits, size: T -> int, es: seq<Event<T>>)
    requires (l.maxItems > 0 || l.maxBytes > 0) && IsRun(l, size, Start(), es) && IsQuiet(l, size, Start(), es)
    ensures TakenBy(l, size, es) == Closed(Feed(l, size, [], ItemsOf(es)))
  {
    QuietRunsFeed(l, size, Start(), es);
    var fed := Feed(l, size, [], ItemsOf(es));
    hide Feed, IsRun, IsQuiet, After;
    assert [] + fed.batches == fed.batches && fed.batches + [] == fed.batches;
  }

  /** So if no empty item can be wasted, then no other way to cut them, within the limits, has fewer batches. */
  lemma QuietRunsAreOptimal<T(!new)>(l: Limits, size: T -> int, es: seq<Event<T>>, batches: seq<seq<T>>)
    requires (l.maxItems > 0 || l.maxBytes > 0) && IsRun(l, size, Start(), es) && IsQuiet(l, size, Start(), es)
    requires AreSized(l, size, ItemsOf(es)) && IsWasteless(l, size, ItemsOf(es))
    requires IsCut(l, size, ItemsOf(es), batches)
    ensures TakenBy(l, size, es) == Greedy(l, size, ItemsOf(es)) && |TakenBy(l, size, es)| <= |batches|
  {
    var items := ItemsOf(es);
    QuietRunsClose(l, size, es);
    NothingIsBelow(l, size);
    hide Feed, Greedy, IsCut, AreSized, IsWasteless, Below, TakenBy, IsRun, IsQuiet;
    assert [] + items == items;
    FeedIsGreedy(l, size, [], items);
    GreedyIsOptimal(l, size, items, batches);
  }

  /** All such runs are optimal if and only if there are no empty items, or they never find a batch full
      which has room for them. */
  lemma QuietRunsAreOptimalIff<T(!new)>(l: Limits, size: T -> int)
    requires (l.maxItems > 0 || l.maxBytes > 0) && IsNeverNegative(l, size)
    ensures (forall es: seq<Event<T>>, batches: seq<seq<T>> ::
               IsRun(l, size, Start(), es) && IsQuiet(l, size, Start(), es) && IsCut(l, size, ItemsOf(es), batches) ==>
                 |TakenBy(l, size, es)| <= |batches|)
       <==> !CanWaste(l, size)
  {
    if CanWaste(l, size) {
      hide FillsExactly, Feed, IsCut, Closed;
      var z, items :| size(z) == 0 && FillsExactly(l, size, items);
      WastefulRun(l, size, items, z);
    } else {
      forall es: seq<Event<T>>, batches: seq<seq<T>> |
          IsRun(l, size, Start(), es) && IsQuiet(l, size, Start(), es) && IsCut(l, size, ItemsOf(es), batches)
        ensures |TakenBy(l, size, es)| <= |batches|
      {
        hide IsRun, IsQuiet, IsCut, TakenBy, ItemsOf, FillsExactly;
        QuietRunsAreOptimal(l, size, es, batches);
      }
    }
  }

  lemma OneCall<T>(l: Limits, size: T -> int, items: seq<T>)
    ensures var es := [Event<T>.Add(items)];
      IsRun(l, size, Start(), es) && IsQuiet(l, size, Start(), es) && ItemsOf(es) == items
  {
    hide Apply;
    var es := [Event<T>.Add(items)];
    var s := Apply(l, size, Start(), es[0]);
    assert es[1..] == [];
    assert IsRun(l, size, s, []) && IsQuiet(l, size, s, []);
    assert ItemsOf<T>([]) == [] && items + [] == items;
  }

  /** A single call is enough to waste a batch. */
  lemma WastefulRun<T(!new)>(l: Limits, size: T -> int, items: seq<T>, z: T)
    requires l.maxBytes > 0 && IsNeverNegative(l, size) && size(z) == 0 && FillsExactly(l, size, items)
    ensures exists es: seq<Event<T>>, batches: seq<seq<T>> ::
              && IsRun(l, size, Start(), es) && IsQuiet(l, size, Start(), es) && IsCut(l, size, ItemsOf(es), batches)
              && |TakenBy(l, size, es)| > |batches|
  {
    hide FillsExactly, Feed, IsCut, Closed;
    var stream, batches := WastefulStream(l, size, items, z);
    var es: seq<Event<T>> := [Add(stream)];
    OneCall(l, size, stream);
    hide IsRun, IsQuiet, After;
    QuietRunsClose(l, size, es);
  }
}
