/** An SQL collector as a state machine: a scheduler that runs queries within a limit on their concurrency and finally
    closes the collector, the queries themselves, and callbacks of the batcher's timers. A batch that was taken from
    the batcher isn't safe until its goroutine passes it to a sender. */
module SqlCollector {
  import opened Batches
  import opened Batching
  import opened Gathering
  import opened Wrappers
  import BatcherRuns

  datatype Config<!T> = Config(concurrency: int, limits: Limits, size: T -> int) {
    function Capacity(): nat {
      if concurrency < 1 then 1 else concurrency
    }
  }

  /** A query, the batches which it took but didn't send yet, and whether it still has to flush its rows. */
  datatype Query<T> = Running(todo: seq<seq<T>>, unflushed: bool) | Ended

  /** A callback of a timer: waiting for the read lock; holding it before and after taking the batch. */
  datatype Callback<T> = Fired(gen: nat) | Holding(gen: nat) | Sending(todo: seq<seq<T>>) | Returned

  /** The scheduler's goroutine: scheduling queries; closing, while it waits for the queries in progress; holding the
      write lock, before and after the last flush; and done. */
  datatype Scheduler<T> = Scheduling | Waiting | Locked | Flushing(todo: seq<seq<T>>) | Done

  /** `abandoned` means that the scheduler gave up waiting for a query that didn't stop after it was aborted. */
  datatype State<T(==)> = State(
    batch: Pending<T>, queries: seq<Query<T>>, slots: set<nat>, callbacks: seq<Callback<T>>,
    scheduler: Scheduler<T>, abandoned: bool, collected: multiset<T>, sent: multiset<T>)

  datatype Event<T> =
    | Execute
    | Collect(q: nat, row: T)
    | SendRows(q: nat)
    | FlushRows(q: nat)
    | EndQuery(q: nat)
    | Fire(gen: nat)
    | Enter(k: nat)
    | Take(k: nat)
    | SendBatch(k: nat)
    | Leave(k: nat)
    | BeginClose
    | StopWaiting // All the queries ended, or the last timeout expired.
    | LastFlush
    | SendLast
    | FinishClose

  function Start<T(==)>(): State<T> {
    State(Pending([], None, 0), [], {}, [], Scheduling, false, multiset{}, multiset{})
  }

  predicate IsReader<T>(k: Callback<T>) {
    k.Holding? || k.Sending?
  }

  predicate HasWriter<T>(s: State<T>) {
    s.scheduler.Locked? || s.scheduler.Flushing?
  }

  ghost predicate NoReaders<T>(s: State<T>) {
    forall k :: 0 <= k < |s.callbacks| ==> !IsReader(s.callbacks[k])
  }

  ghost predicate AllEnded<T>(s: State<T>) {
    forall q :: 0 <= q < |s.queries| ==> s.queries[q].Ended?
  }

  ghost predicate Enabled<T>(s: State<T>, e: Event<T>) {
    match e
    case Execute => s.scheduler.Scheduling?
    case Collect(q, _) => q < |s.queries| && s.queries[q].Running? && s.queries[q].todo == []
    case SendRows(q) => q < |s.queries| && s.queries[q].Running? && s.queries[q].todo != []
    case FlushRows(q) => q < |s.queries| && s.queries[q].Running? && s.queries[q].todo == []
    case EndQuery(q) => q < |s.queries| && s.queries[q] == Running([], false)
    case Fire(_) => true
    case Enter(k) => k < |s.callbacks| && s.callbacks[k].Fired? && !HasWriter(s)
    case Take(k) => k < |s.callbacks| && s.callbacks[k].Holding?
    case SendBatch(k) => k < |s.callbacks| && s.callbacks[k].Sending? && s.callbacks[k].todo != []
    case Leave(k) => k < |s.callbacks| && s.callbacks[k] == Sending([])
    case BeginClose => s.scheduler.Scheduling? && NoReaders(s)
    case StopWaiting => s.scheduler.Waiting? && NoReaders(s)
    case LastFlush => s.scheduler.Locked?
    case SendLast => s.scheduler.Flushing? && s.scheduler.todo != []
    case FinishClose => s.scheduler == Flushing([])
  }

  function WithQuery<T>(s: State<T>, q: nat, query: Query<T>): State<T>
    requires q < |s.queries|
  {
    s.(queries := s.queries[q := query])
  }

  function WithCallback<T>(s: State<T>, k: nat, callback: Callback<T>): State<T>
    requires k < |s.callbacks|
  {
    s.(callbacks := s.callbacks[k := callback])
  }

  ghost function Apply<T>(c: Config<T>, s: State<T>, e: Event<T>): State<T>
    requires Enabled(s, e)
  {
    match e
    case Execute =>
      if |s.slots| < c.Capacity()
      then s.(queries := s.queries + [Running([], false)], slots := s.slots + {|s.queries|})
      else s // Skipped.
    case Collect(q, row) =>
      var out := AfterAdd(c.limits, c.size, s.batch, [row]);
      WithQuery(s, q, Running(out.ready, true)).(batch := out.pending, collected := s.collected + multiset{row})
    case SendRows(q) =>
      var query := s.queries[q];
      WithQuery(s, q, query.(todo := query.todo[1..])).(sent := s.sent + multiset(query.todo[0]))
    case FlushRows(q) =>
      var out := AfterFlush(s.batch);
      WithQuery(s, q, Running(out.ready, false)).(batch := out.pending)
    case EndQuery(q) => WithQuery(s, q, Ended).(slots := s.slots - {q})
    case Fire(g) => s.(callbacks := s.callbacks + [Fired(g)])
    case Enter(k) => WithCallback(s, k, Holding(s.callbacks[k].gen))
    case Take(k) =>
      var out := AfterTimedFlush(s.batch, s.callbacks[k].gen);
      WithCallback(s, k, Sending(out.ready)).(batch := out.pending)
    case SendBatch(k) =>
      var todo := s.callbacks[k].todo;
      WithCallback(s, k, Sending(todo[1..])).(sent := s.sent + multiset(todo[0]))
    case Leave(k) => WithCallback(s, k, Returned)
    case BeginClose => s.(scheduler := Waiting)
    case StopWaiting => s.(scheduler := Locked, abandoned := !AllEnded(s))
    case LastFlush =>
      var out := AfterFlush(s.batch);
      s.(scheduler := Flushing(out.ready), batch := out.pending)
    case SendLast =>
      var todo := s.scheduler.todo;
      s.(scheduler := Flushing(todo[1..]), sent := s.sent + multiset(todo[0]))
    case FinishClose => s.(scheduler := Done)
  }

  ghost predicate IsRun<T>(c: Config<T>, s: State<T>, es: seq<Event<T>>)
    decreases |es|
  {
    es == [] || (Enabled(s, es[0]) && IsRun(c, Apply(c, s, es[0]), es[1..]))
  }

  ghost function After<T>(c: Config<T>, s: State<T>, es: seq<Event<T>>): State<T>
    requires IsRun(c, s, es)
    decreases |es|
  {
    if es == [] then s else After(c, Apply(c, s, es[0]), es[1..])
  }

  // ---- Every row that was collected is somewhere.

  function QueryItems<T>(q: Query<T>): seq<T> {
    if q.Running? then Flatten(q.todo) else []
  }

  function CallbackItems<T>(k: Callback<T>): seq<T> {
    if k.Sending? then Flatten(k.todo) else []
  }

  function SchedulerItems<T>(s: Scheduler<T>): seq<T> {
    if s.Flushing? then Flatten(s.todo) else []
  }

  /** How many times a row is held, and not sent yet. */
  ghost function Held<T>(s: State<T>, x: T): nat {
    Count(s.batch.buf, x) + Gather(QueryItems<T>, s.queries, x) + Gather(CallbackItems<T>, s.callbacks, x)
    + Count(SchedulerItems(s.scheduler), x)
  }

  ghost predicate Balanced<T>(c: Config<T>, s: State<T>, x: T) {
    s.collected[x] == s.sent[x] + Held(s, x) && (c.limits.Passthrough() ==> s.batch.buf == [])
  }

  lemma QueryHeld<T>(s: State<T>, q: nat, query: Query<T>, batch: Pending<T>, x: T)
    requires q < |s.queries|
    ensures Held(WithQuery(s, q, query).(batch := batch), x) + Count(QueryItems(s.queries[q]), x) + Count(s.batch.buf, x)
         == Held(s, x) + Count(QueryItems(query), x) + Count(batch.buf, x)
  {
    GatherUpdate(QueryItems<T>, s.queries, q, query, x);
    hide Gather, Count;
  }

  lemma CallbackHeld<T>(s: State<T>, k: nat, callback: Callback<T>, batch: Pending<T>, x: T)
    requires k < |s.callbacks|
    ensures Held(WithCallback(s, k, callback).(batch := batch), x)
          + Count(CallbackItems(s.callbacks[k]), x) + Count(s.batch.buf, x)
         == Held(s, x) + Count(CallbackItems(callback), x) + Count(batch.buf, x)
  {
    GatherUpdate(CallbackItems<T>, s.callbacks, k, callback, x);
    hide Gather, Count;
  }

  lemma HeldByThese<T>(s: State<T>, s': State<T>, x: T)
    requires s'.queries == s.queries && s'.callbacks == s.callbacks
    ensures Held(s', x) + Count(s.batch.buf, x) + Count(SchedulerItems(s.scheduler), x)
         == Held(s, x) + Count(s'.batch.buf, x) + Count(SchedulerItems(s'.scheduler), x)
  {
    hide Gather, Count;
  }

  lemma CountSent<T>(todo: seq<seq<T>>, x: T)
    requires todo != []
    ensures Count(Flatten(todo), x) == multiset(todo[0])[x] + Count(Flatten(todo[1..]), x)
  {
    CountFirst(todo, x);
    hide Flatten;
  }

  lemma CountFlush<T>(p: Pending<T>, x: T)
    ensures var out := AfterFlush(p);
      Count(Flatten(out.ready), x) == Count(p.buf, x) && Count(out.pending.buf, x) == 0 && out.pending.buf == []
  {
    FlattenOne(p.buf);
    FlattenNothing<T>();
  }

  lemma BalancedQueryStep<T>(c: Config<T>, s: State<T>, e: Event<T>, x: T)
    requires Balanced(c, s, x) && (e.SendRows? || e.FlushRows? || e.EndQuery?) && Enabled(s, e)
    ensures Balanced(c, Apply(c, s, e), x)
  {
    hide Held, Flatten, Count;
    FlattenNothing<T>();
    CountNothing(x);
    var s' := Apply(c, s, e);
    QueryHeld(s, e.q, s'.queries[e.q], s'.batch, x);
    HeldByThese(WithQuery(s, e.q, s'.queries[e.q]).(batch := s'.batch), s', x);
    if e.SendRows? {
      CountSent(s.queries[e.q].todo, x);
    } else {
      CountFlush(s.batch, x);
    }
  }

  lemma BalancedCollect<T>(c: Config<T>, s: State<T>, q: nat, row: T, x: T)
    requires Balanced(c, s, x) && Enabled(s, Event<T>.Collect(q, row))
    ensures Balanced(c, Apply(c, s, Event<T>.Collect(q, row)), x)
  {
    hide Held, Flatten, Count, AfterAdd;
    var e := Event<T>.Collect(q, row);
    var out := AfterAdd(c.limits, c.size, s.batch, [row]);
    var middle := WithQuery(s, q, Running(out.ready, true)).(batch := out.pending);
    var s' := Apply(c, s, e);
    assert s' == middle.(collected := s.collected + multiset{row});
    assert s.queries[q] == Running([], s.queries[q].unflushed);
    hide Apply, Enabled, WithQuery;
    FlattenNothing<T>();
    CountNothing(x);
    CountAdd(c, s.batch, row, x);
    QueryHeld(s, q, Running(out.ready, true), out.pending, x);
    HeldByThese(middle, s', x);
    PassThroughAdd(c, s.batch, row);
  }

  lemma CountAdd<T>(c: Config<T>, p: Pending<T>, row: T, x: T)
    requires c.limits.Passthrough() ==> p.buf == []
    ensures var out := AfterAdd(c.limits, c.size, p, [row]);
      Count(Flatten(out.ready), x) + Count(out.pending.buf, x) == Count(p.buf, x) + multiset{row}[x]
  {
    var out := AfterAdd(c.limits, c.size, p, [row]);
    BatcherRuns.AddConserves(c.limits, c.size, p, [row]);
    assert Count([row], x) == multiset{row}[x];
    hide Flatten, Count, AfterAdd;
    CountConcat(Flatten(out.ready), out.pending.buf, x);
    CountConcat(p.buf, [row], x);
  }

  lemma PassThroughAdd<T>(c: Config<T>, p: Pending<T>, row: T)
    requires c.limits.Passthrough() ==> p.buf == []
    ensures c.limits.Passthrough() ==> AfterAdd(c.limits, c.size, p, [row]).pending.buf == []
  {}

  lemma BalancedCallbackStep<T>(c: Config<T>, s: State<T>, e: Event<T>, x: T)
    requires Balanced(c, s, x) && (e.Enter? || e.Take? || e.SendBatch? || e.Leave?) && Enabled(s, e)
    ensures Balanced(c, Apply(c, s, e), x)
  {
    hide Held, Flatten, Count;
    FlattenNothing<T>();
    CountNothing(x);
    var s' := Apply(c, s, e);
    CallbackHeld(s, e.k, s'.callbacks[e.k], s'.batch, x);
    HeldByThese(WithCallback(s, e.k, s'.callbacks[e.k]).(batch := s'.batch), s', x);
    if e.SendBatch? {
      CountSent(s.callbacks[e.k].todo, x);
    } else {
      CountFlush(s.batch, x);
    }
  }

  lemma BalancedArrival<T>(c: Config<T>, s: State<T>, e: Event<T>, x: T)
    requires Balanced(c, s, x) && (e.Execute? || e.Fire?) && Enabled(s, e)
    ensures Balanced(c, Apply(c, s, e), x)
  {
    FlattenNothing<T>();
    CountNothing(x);
    GatherAppend(QueryItems<T>, s.queries, Running([], false), x);
    if e.Fire? {
      GatherAppend(CallbackItems<T>, s.callbacks, Fired(e.gen), x);
    }
    hide Gather, Count, Flatten;
  }

  lemma BalancedSchedulerStep<T>(c: Config<T>, s: State<T>, e: Event<T>, x: T)
    requires Balanced(c, s, x) && Enabled(s, e)
    requires e.BeginClose? || e.StopWaiting? || e.LastFlush? || e.SendLast? || e.FinishClose?
    ensures Balanced(c, Apply(c, s, e), x)
  {
    hide Held, Flatten, Count;
    FlattenNothing<T>();
    CountNothing(x);
    HeldByThese(s, Apply(c, s, e), x);
    if e.SendLast? {
      CountSent(s.scheduler.todo, x);
    } else {
      CountFlush(s.batch, x);
    }
  }

  lemma BalancedStep<T>(c: Config<T>, s: State<T>, e: Event<T>, x: T)
    requires Balanced(c, s, x) && Enabled(s, e)
    ensures Balanced(c, Apply(c, s, e), x)
  {
    hide Balanced, Apply, Enabled;
    match e
    case Execute => BalancedArrival(c, s, e, x);
    case Fire(_) => BalancedArrival(c, s, e, x);
    case Collect(q, row) => BalancedCollect(c, s, q, row, x);
    case SendRows(_) => BalancedQueryStep(c, s, e, x);
    case FlushRows(_) => BalancedQueryStep(c, s, e, x);
    case EndQuery(_) => BalancedQueryStep(c, s, e, x);
    case Enter(_) => BalancedCallbackStep(c, s, e, x);
    case Take(_) => BalancedCallbackStep(c, s, e, x);
    case SendBatch(_) => BalancedCallbackStep(c, s, e, x);
    case Leave(_) => BalancedCallbackStep(c, s, e, x);
    case _ => BalancedSchedulerStep(c, s, e, x);
  }

  // ---- Closing.

  ghost predicate AreSlotted<T>(c: Config<T>, s: State<T>) {
    && |s.slots| <= c.Capacity()
    && (forall q :: q in s.slots ==> q < |s.queries|)
    && (forall q :: 0 <= q < |s.queries| ==> (q in s.slots <==> s.queries[q].Running?))
  }

  /** Once the scheduler has the write lock, no timed dispatch is running, and unless a query was abandoned,
      nothing adds rows anymore. After the last flush the batcher is empty. */
  ghost predicate IsClosed<T>(s: State<T>) {
    && (HasWriter(s) ==> NoReaders(s))
    && ((HasWriter(s) || s.scheduler.Done?) && !s.abandoned ==> AllEnded(s))
    && ((s.scheduler.Flushing? || s.scheduler.Done?) && !s.abandoned ==> s.batch.buf == [])
    && (s.scheduler.Done? && !s.abandoned ==>
          forall k :: 0 <= k < |s.callbacks| && s.callbacks[k].Sending? ==> s.callbacks[k].todo == [])
  }

  lemma SlottedStep<T>(c: Config<T>, s: State<T>, e: Event<T>)
    requires AreSlotted(c, s) && Enabled(s, e)
    ensures AreSlotted(c, Apply(c, s, e))
  {
    if e.Execute? || e.EndQuery? {
      SlottedLimits(c, s, e);
    } else {
      QueriesKeepRunning(c, s, e);
      hide Apply, Enabled;
    }
  }

  lemma SlottedLimits<T>(c: Config<T>, s: State<T>, e: Event<T>)
    requires AreSlotted(c, s) && (e.Execute? || e.EndQuery?) && Enabled(s, e)
    ensures AreSlotted(c, Apply(c, s, e))
  {}

  lemma QueriesKeepRunning<T>(c: Config<T>, s: State<T>, e: Event<T>)
    requires Enabled(s, e) && !e.Execute? && !e.EndQuery?
    ensures var s' := Apply(c, s, e);
      && s'.slots == s.slots && |s'.queries| == |s.queries|
      && (forall q :: 0 <= q < |s.queries| ==> (s'.queries[q].Running? <==> s.queries[q].Running?))
  {
    hide AfterAdd, AfterTimedFlush;
  }

  lemma ClosedStep<T>(c: Config<T>, s: State<T>, e: Event<T>)
    requires IsClosed(s) && Enabled(s, e)
    ensures IsClosed(Apply(c, s, e))
  {
    hide AfterAdd, Gather, Count, Flatten;
  }

  lemma {:induction false} InvRun<T>(c: Config<T>, s: State<T>, es: seq<Event<T>>, x: T)
    requires Balanced(c, s, x) && AreSlotted(c, s) && IsClosed(s) && IsRun(c, s, es)
    ensures var s' := After(c, s, es); Balanced(c, s', x) && AreSlotted(c, s') && IsClosed(s')
    decreases |es|
  {
    hide Balanced, AreSlotted, IsClosed, Apply, Enabled;
    if es != [] {
      BalancedStep(c, s, es[0], x);
      SlottedStep(c, s, es[0]);
      ClosedStep(c, s, es[0]);
      InvRun(c, Apply(c, s, es[0]), es[1..], x);
    }
  }

  lemma AllSent<T>(s: State<T>, x: T)
    requires IsClosed(s) && s.scheduler.Done? && !s.abandoned
    ensures Held(s, x) == 0
  {
    FlattenNothing<T>();
    CountNothing(x);
    GatherNothing(QueryItems<T>, s.queries, x);
    GatherNothing(CallbackItems<T>, s.callbacks, x);
    hide Gather, Count, Flatten;
  }

  /** In every run, each collected row is sent exactly once or still held, and there are never too many queries. When
      the collector signals that it's done, no timed dispatch is running. And unless it abandoned a query, all the rows
      were already passed to a sender, the batcher is empty, and no timed dispatch finds anything anymore. */
  lemma DoneMeansSent<T>(c: Config<T>, es: seq<Event<T>>, x: T)
    requires IsRun(c, Start(), es)
    ensures var s := After(c, Start(), es);
      && s.collected[x] == s.sent[x] + Held(s, x)
      && |s.slots| <= (if c.concurrency < 1 then 1 else c.concurrency)
      && (forall q :: q in s.slots <==> 0 <= q < |s.queries| && s.queries[q].Running?)
      && (Enabled(s, FinishClose) ==> NoReaders(s))
      && (s.scheduler.Done? && !s.abandoned ==>
            && s.collected[x] == s.sent[x] && s.batch.buf == [] && AllEnded(s)
            && forall k :: 0 <= k < |s.callbacks| && s.callbacks[k].Sending? ==> s.callbacks[k].todo == [])
  {
    CountNothing(x);
    InvRun(c, Start(), es, x);
    var s := After(c, Start(), es);
    hide After, IsRun, Held;
    if s.scheduler.Done? && !s.abandoned {
      AllSent(s, x);
    }
  }

  /** A query is skipped if and only if the limit was already reached. */
  lemma SkippedIffFull<T>(c: Config<T>, es: seq<Event<T>>)
    requires IsRun(c, Start(), es) && Enabled(After(c, Start(), es), Event<T>.Execute)
    ensures var s := After(c, Start(), es);
      var s' := Apply(c, s, Execute);
      if |s.slots| == (if c.concurrency < 1 then 1 else c.concurrency) then s' == s
      else s'.queries == s.queries + [Running([], false)]
  {
    SlottedRun(c, Start(), es);
    hide IsRun, After;
  }

  lemma {:induction false} SlottedRun<T>(c: Config<T>, s: State<T>, es: seq<Event<T>>)
    requires AreSlotted(c, s) && IsRun(c, s, es)
    ensures AreSlotted(c, After(c, s, es))
    decreases |es|
  {
    hide AreSlotted, Apply, Enabled;
    if es != [] {
      SlottedStep(c, s, es[0]);
      SlottedRun(c, Apply(c, s, es[0]), es[1..]);
    }
  }

  // ---- Rows don't wait for other queries.

  /** Whatever is pending will be flushed by a query that's still running. */
  ghost predicate WillBeFlushed<T>(s: State<T>) {
    s.batch.buf != [] ==> exists q :: 0 <= q < |s.queries| && s.queries[q].Running? && s.queries[q].unflushed
  }

  lemma FlushedStep<T>(c: Config<T>, s: State<T>, e: Event<T>)
    requires WillBeFlushed(s) && Enabled(s, e)
    ensures WillBeFlushed(Apply(c, s, e))
  {
    hide AfterAdd;
    var s' := Apply(c, s, e);
    if s.batch.buf != [] {
      var q :| 0 <= q < |s.queries| && s.queries[q].Running? && s.queries[q].unflushed;
      assert e.FlushRows? || (s'.queries[q].Running? && s'.queries[q].unflushed);
    }
    if e.Collect? {
      assert s'.queries[e.q].Running? && s'.queries[e.q].unflushed;
    }
  }

  lemma {:induction false} FlushedRun<T>(c: Config<T>, s: State<T>, es: seq<Event<T>>)
    requires WillBeFlushed(s) && IsRun(c, s, es)
    ensures WillBeFlushed(After(c, s, es))
    decreases |es|
  {
    hide WillBeFlushed, Apply, Enabled;
    if es != [] {
      FlushedStep(c, s, es[0]);
      FlushedRun(c, Apply(c, s, es[0]), es[1..]);
    }
  }

  /** In every run, nothing is pending when all the queries ended, although no timer expired. */
  lemma RowsDontWait<T>(c: Config<T>, es: seq<Event<T>>)
    requires IsRun(c, Start(), es) && AllEnded(After(c, Start(), es))
    ensures After(c, Start(), es).batch.buf == []
  {
    FlushedRun(c, Start(), es);
  }
}
