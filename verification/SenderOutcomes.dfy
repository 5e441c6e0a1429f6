/** In every run of a sender, each item has exactly one outcome. */
module SenderOutcomes {
  import opened Batches
  import opened Batching
  import opened Gathering
  import opened SenderSteps
  import opened Wrappers
  import BatcherRuns

  function ThreadItems<T>(t: Thread<T>): seq<T> {
    match t
    case Arrived(chunk) => chunk.items
    case Locking(chunk) => chunk.items
    case Checking(chunk) => chunk.items
    case Adding(_, items) => items
    case Relaying(items) => items
    case Dispatching(batches) => Flatten(batches)
    case _ => []
  }

  function PendingItems<T>(p: Pending<T>): seq<T> {
    p.buf
  }

  function CloserItems<T>(closer: Closer<T>): seq<T> {
    if closer.CloseFlushing? then Flatten(closer.batches) else []
  }

  function WorkerItems<T>(w: Worker<T>): seq<T> {
    if w.phase.Leaving? || w.phase.Exited? then [] else w.payload
  }

  /** How many times the item is held by the goroutines and the batchers. */
  ghost function Held<T>(s: State<T>, x: T): nat {
    Gather(ThreadItems<T>, s.threads, x) + Gather(PendingItems<T>, s.batchers, x) + Count(CloserItems(s.closer), x)
    + Gather(WorkerItems<T>, s.workers, x)
  }

  /** How many times the item was settled. */
  ghost function Outcomes<T>(s: State<T>, x: T): nat {
    s.delivered[x] + s.diverted[x] + s.dropped[x]
  }

  /** An item that was given to the sender is accounted for, exactly as many times as it was given. */
  ghost predicate Balanced<T>(s: State<T>, x: T) {
    s.given[x] == Outcomes(s, x) + Held(s, x)
  }

  ghost predicate PassThrough<T>(c: Config<T>, s: State<T>) {
    c.limits.Passthrough() ==> forall b :: 0 <= b < |s.batchers| ==> s.batchers[b].buf == []
  }

  // ---- How each part of the state contributes to what's held.

  lemma RegisteredHeld<T>(c: Config<T>, s: State<T>, payload: seq<T>, structured: bool, x: T)
    ensures var s' := Registered(c, s, payload, structured);
      Held(s', x) == Held(s, x) + Count(payload, x) && Outcomes(s', x) == Outcomes(s, x) && s'.given == s.given
  {
    var worker := Worker(payload, structured, if |s.slots| < c.capacity then Ready else Waiting, 0, 0, 0);
    GatherAppend(WorkerItems<T>, s.workers, worker, x);
    hide Gather, Count;
  }

  lemma BecomeHeld<T>(s: State<T>, t: nat, thread: Thread<T>, x: T)
    requires t < |s.threads|
    ensures Held(Become(s, t, thread), x) + Count(ThreadItems(s.threads[t]), x)
         == Held(s, x) + Count(ThreadItems(thread), x)
  {
    GatherUpdate(ThreadItems<T>, s.threads, t, thread, x);
    hide Gather, Count;
  }

  lemma ArrivalHeld<T>(s: State<T>, thread: Thread<T>, given: multiset<T>, x: T)
    ensures Held(s.(threads := s.threads + [thread], given := s.given + given), x)
         == Held(s, x) + Count(ThreadItems(thread), x)
  {
    GatherAppend(ThreadItems<T>, s.threads, thread, x);
    hide Gather, Count;
  }

  lemma PendingHeld<T>(s: State<T>, b: nat, p: Pending<T>, x: T)
    requires b < |s.batchers|
    ensures Held(s.(batchers := s.batchers[b := p]), x) + Count(s.batchers[b].buf, x) == Held(s, x) + Count(p.buf, x)
  {
    GatherUpdate(PendingItems<T>, s.batchers, b, p, x);
    hide Gather, Count;
  }

  lemma WorkerHeld<T>(s: State<T>, w: nat, worker: Worker<T>, x: T)
    requires w < |s.workers|
    ensures Held(s.(workers := s.workers[w := worker]), x) + Count(WorkerItems(s.workers[w]), x)
         == Held(s, x) + Count(WorkerItems(worker), x)
  {
    GatherUpdate(WorkerItems<T>, s.workers, w, worker, x);
    hide Gather, Count;
  }

  /** What's held depends on nothing else. */
  lemma HeldByThese<T>(s: State<T>, s': State<T>, x: T)
    requires s.threads == s'.threads && s.batchers == s'.batchers && s.workers == s'.workers
    ensures Held(s', x) + Count(CloserItems(s.closer), x) == Held(s, x) + Count(CloserItems(s'.closer), x)
  {
    hide Gather, Count;
  }

  lemma FlushHeld<T>(s: State<T>, b: nat, x: T)
    requires b < |s.batchers|
    ensures var out := AfterFlush(s.batchers[b]);
      Held(s.(batchers := s.batchers[b := out.pending]), x) + Count(Flatten(out.ready), x) == Held(s, x)
  {
    var out := AfterFlush(s.batchers[b]);
    PendingHeld(s, b, out.pending, x);
    FlattenOne(s.batchers[b].buf);
    FlattenNothing<T>();
    CountNothing(x);
    hide Held, Flatten, Count;
  }

  lemma AddHeld<T>(c: Config<T>, s: State<T>, b: nat, items: seq<T>, x: T)
    requires b < |s.batchers| && PassThrough(c, s)
    ensures var out := AfterAdd(c.limits, c.size, s.batchers[b], items);
      Held(s.(batchers := s.batchers[b := out.pending]), x) + Count(Flatten(out.ready), x) == Held(s, x) + Count(items, x)
  {
    var p := s.batchers[b];
    var out := AfterAdd(c.limits, c.size, p, items);
    BatcherRuns.AddConserves(c.limits, c.size, p, items);
    hide Held, Flatten, AfterAdd, Count;
    PendingHeld(s, b, out.pending, x);
    CountConcat(Flatten(out.ready), out.pending.buf, x);
    CountConcat(p.buf, items, x);
  }

  // ---- Each step keeps the balance.

  /** Settling counts the worker's items once, when it stops holding them. */
  lemma SettledBalances<T>(s: State<T>, w: nat, success: bool, x: T)
    requires Balanced(s, x) && w < |s.workers| && WorkerItems(s.workers[w]) == s.workers[w].payload
    ensures Balanced(Settled(s, w, success), x)
  {
    var s' := Settled(s, w, success);
    WorkerHeld(s, w, s'.workers[w], x);
    HeldByThese(s.(workers := s'.workers), s', x);
    CountNothing(x);
    assert Count(s.workers[w].payload, x) == multiset(s.workers[w].payload)[x];
    hide Held, Count;
  }

  lemma WorkerKeepsItems<T>(s: State<T>, w: nat, worker: Worker<T>, slots: set<nat>, x: T)
    requires Balanced(s, x) && w < |s.workers| && WorkerItems(worker) == WorkerItems(s.workers[w])
    ensures Balanced(s.(workers := s.workers[w := worker], slots := slots), x)
  {
    var s' := s.(workers := s.workers[w := worker], slots := slots);
    WorkerHeld(s, w, worker, x);
    HeldByThese(s.(workers := s'.workers), s', x);
    hide Held, Count;
  }

  lemma BalancedRecheck<T>(c: Config<T>, s: State<T>, w: nat, x: T)
    requires Balanced(s, x) && WorkerEnabled(c, s, Event<T>.Recheck(w))
    ensures Balanced(WorkerStep(c, s, Event<T>.Recheck(w)), x)
  {
    hide Balanced;
    var worker := s.workers[w];
    if s.closing {
      WorkerKeepsItems(s, w, worker.(rejects := worker.rejects + 1), s.slots, x);
      var middle := s.(workers := s.workers[w := worker.(rejects := worker.rejects + 1)]);
      assert middle == middle.(slots := s.slots);
      SettledBalances(middle, w, false, x);
      hide Settled;
    } else {
      WorkerKeepsItems(s, w, BeginSend(s, w).workers[w], s.slots, x);
    }
  }

  lemma BalancedWorkerStep<T>(c: Config<T>, s: State<T>, e: Event<T>, x: T)
    requires Balanced(s, x) && e.IsWorkers() && WorkerEnabled(c, s, e)
    ensures Balanced(WorkerStep(c, s, e), x)
  {
    hide Balanced;
    if e.Recheck? {
      BalancedRecheck(c, s, e.w, x);
    } else if e.Prepare? || e.CheckLoop? || e.Answer? {
      BalancedSendStep(c, s, e, x);
    } else {
      var s' := WorkerStep(c, s, e);
      WorkerKeepsItems(s, e.w, s'.workers[e.w], s'.slots, x);
    }
  }

  lemma BalancedSendStep<T>(c: Config<T>, s: State<T>, e: Event<T>, x: T)
    requires Balanced(s, x) && (e.Prepare? || e.CheckLoop? || e.Answer?) && WorkerEnabled(c, s, e)
    ensures Balanced(WorkerStep(c, s, e), x)
  {
    hide Balanced, Settled, Advance;
    var phase := s.workers[e.w].phase;
    match e
    case Prepare(w, _) => SendStepBalances(s, w, Looping(0), x);
    case CheckLoop(w) => SendStepBalances(s, w, Checked(phase.attempt), x);
    case Answer(w, _) => SendStepBalances(s, w, Looping(phase.attempt + 1), x);
  }

  lemma SendStepBalances<T>(s: State<T>, w: nat, phase: Phase, x: T)
    requires Balanced(s, x) && w < |s.workers| && !phase.Leaving? && !phase.Exited?
    requires !s.workers[w].phase.Leaving? && !s.workers[w].phase.Exited?
    ensures Balanced(Settled(s, w, true), x) && Balanced(Settled(s, w, false), x) && Balanced(Advance(s, w, phase), x)
  {
    hide Balanced, Settled;
    SettledBalances(s, w, true, x);
    SettledBalances(s, w, false, x);
    WorkerKeepsItems(s, w, s.workers[w].(phase := phase), s.slots, x);
  }

  lemma BalancedCloserStep<T>(c: Config<T>, s: State<T>, e: Event<T>, x: T)
    requires Balanced(s, x) && e.IsClosers() && CloserEnabled(c, s, e)
    ensures Balanced(CloserStep(c, s, e), x)
  {
    hide Held, Flatten, Count;
    var s' := CloserStep(c, s, e);
    FlattenNothing<T>();
    CountNothing(x);
    if e.CloseFlush? {
      var b, out := s.closer.next, AfterFlush(s.batchers[s.closer.next]);
      FlushHeld(s, b, x);
      HeldByThese(s.(batchers := s.batchers[b := out.pending]), s', x);
    } else if e.CloseDispatch? {
      var batches := s.closer.batches;
      var middle := s.(closer := CloseFlushing(s.closer.next, batches[1..]));
      CountFirst(batches, x);
      HeldByThese(s, middle, x);
      RegisteredHeld(c, middle, batches[0], true, x);
      hide Registered;
    } else {
      HeldByThese(s, s', x);
    }
  }

  lemma RejectedBalances<T>(s: State<T>, t: nat, x: T)
    requires Balanced(s, x) && t < |s.threads| && (s.threads[t].Arrived? || s.threads[t].Checking?)
    ensures Balanced(Rejected(s, t), x)
  {
    BecomeHeld(s, t, Gone, x);
    HeldByThese(Become(s, t, Gone), Rejected(s, t), x);
    CountNothing(x);
    var items := s.threads[t].chunk.items;
    assert Count(items, x) == multiset(items)[x];
    hide Held, Count;
  }

  lemma ThreadKeepsItems<T>(s: State<T>, t: nat, thread: Thread<T>, x: T)
    requires Balanced(s, x) && t < |s.threads| && ThreadItems(thread) == ThreadItems(s.threads[t])
    ensures Balanced(Become(s, t, thread), x)
  {
    BecomeHeld(s, t, thread, x);
    hide Held, Count;
  }

  lemma BalancedCheck<T>(c: Config<T>, s: State<T>, e: Event<T>, x: T)
    requires Balanced(s, x) && (e.CheckFirst? || e.Lock? || e.CheckAgain? || e.Unlock?) && ThreadEnabled(c, s, e)
    ensures Balanced(ThreadStep(c, s, e), x)
  {
    hide Balanced, Flatten;
    FlattenNothing<T>();
    if (e.CheckFirst? || e.CheckAgain?) && s.closing && !s.threads[e.t].FiredChecking? {
      RejectedBalances(s, e.t, x);
    } else {
      ThreadKeepsItems(s, e.t, ThreadStep(c, s, e).threads[e.t], x);
    }
  }

  lemma BalancedAdd<T>(c: Config<T>, s: State<T>, t: nat, x: T)
    requires Balanced(s, x) && PassThrough(c, s) && ThreadEnabled(c, s, Event<T>.Add(t))
    ensures Balanced(ThreadStep(c, s, Event<T>.Add(t)), x)
  {
    hide Held, Flatten, AfterAdd, Count;
    var b, items := s.threads[t].batcher, s.threads[t].items;
    var out := AfterAdd(c.limits, c.size, s.batchers[b], items);
    AddHeld(c, s, b, items, x);
    BecomeHeld(s.(batchers := s.batchers[b := out.pending]), t, Dispatching(out.ready), x);
  }

  lemma BalancedFlush<T>(c: Config<T>, s: State<T>, t: nat, x: T)
    requires Balanced(s, x) && ThreadEnabled(c, s, Event<T>.Flush(t))
    ensures Balanced(ThreadStep(c, s, Event<T>.Flush(t)), x)
  {
    hide Held, Flatten, Count;
    var b, g := s.threads[t].batcher, s.threads[t].gen;
    var out := AfterTimedFlush(s.batchers[b], g);
    FlattenNothing<T>();
    CountNothing(x);
    FlushHeld(s, b, x);
    assert g != s.batchers[b].gen ==> s.batchers[b := out.pending] == s.batchers;
    BecomeHeld(s.(batchers := s.batchers[b := out.pending]), t, Dispatching(out.ready), x);
  }

  /** A direct item that's usable gets a worker of its own, otherwise it's dropped. */
  lemma BalancedRelay<T>(c: Config<T>, s: State<T>, t: nat, x: T)
    requires Balanced(s, x) && ThreadEnabled(c, s, Event<T>.Relay(t))
    ensures Balanced(ThreadStep(c, s, Event<T>.Relay(t)), x)
  {
    hide Held, Count, Registered;
    var item, rest := s.threads[t].items[0], s.threads[t].items[1..];
    var middle := Become(s, t, Relaying(rest));
    assert s.threads[t].items == [item] + rest;
    CountConcat([item], rest, x);
    BecomeHeld(s, t, Relaying(rest), x);
    CountOne(item, x);
    RegisteredHeld(c, middle, [item], false, x);
    var dropped := middle.(dropped := middle.dropped + multiset{item});
    HeldByThese(middle, dropped, x);
    assert ThreadStep(c, s, Event<T>.Relay(t)) ==
      if c.usable(item) then Registered(c, middle, [item], false) else dropped;
    hide ThreadStep, Become;
  }

  lemma CountOne<T>(item: T, x: T)
    ensures Count([item], x) == multiset{item}[x]
  {
    assert multiset([item]) == multiset{item};
  }

  lemma BalancedDispatch<T>(c: Config<T>, s: State<T>, t: nat, x: T)
    requires Balanced(s, x) && ThreadEnabled(c, s, Event<T>.Dispatch(t))
    ensures Balanced(ThreadStep(c, s, Event<T>.Dispatch(t)), x)
  {
    hide Held, Flatten, Count;
    var batches := s.threads[t].batches;
    BecomeHeld(s, t, Dispatching(batches[1..]), x);
    RegisteredHeld(c, Become(s, t, Dispatching(batches[1..])), batches[0], true, x);
    CountFirst(batches, x);
    hide Registered;
  }

  lemma BalancedThreadStep<T>(c: Config<T>, s: State<T>, e: Event<T>, x: T)
    requires Balanced(s, x) && PassThrough(c, s) && e.IsThreads() && ThreadEnabled(c, s, e)
    ensures Balanced(ThreadStep(c, s, e), x)
  {
    hide Held, Flatten, AfterAdd, Registered;
    match e
    case Send(chunk) => ArrivalHeld(s, Arrived(chunk), multiset(chunk.items), x);
    case Fire(b, g) => ArrivalHeld(s, Fired(b, g), multiset{}, x); assert s.given + multiset{} == s.given;
    case Add(t) => BalancedAdd(c, s, t, x);
    case Flush(t) => BalancedFlush(c, s, t, x);
    case Relay(t) => BalancedRelay(c, s, t, x);
    case Dispatch(t) => BalancedDispatch(c, s, t, x);
    case _ => BalancedCheck(c, s, e, x);
  }

  predicate TouchesBatcher<T>(e: Event<T>) {
    e.Add? || e.Flush? || e.CloseFlush?
  }

  lemma WorkersKeepBatchers<T>(c: Config<T>, s: State<T>, e: Event<T>)
    requires e.IsWorkers() && WorkerEnabled(c, s, e)
    ensures WorkerStep(c, s, e).batchers == s.batchers
  {}

  lemma OthersKeepBatchers<T>(c: Config<T>, s: State<T>, e: Event<T>)
    requires Enabled(c, s, e) && !TouchesBatcher(e)
    ensures Apply(c, s, e).batchers == s.batchers
  {
    if e.IsWorkers() {
      WorkersKeepBatchers(c, s, e);
    }
    hide WorkerStep, WorkerEnabled;
  }

  /** Without batching, nothing is ever pending. */
  lemma PassThroughStep<T>(c: Config<T>, s: State<T>, e: Event<T>)
    requires PassThrough(c, s) && Enabled(c, s, e)
    ensures PassThrough(c, Apply(c, s, e))
  {
    hide WorkerStep, WorkerEnabled;
    if !TouchesBatcher(e) {
      OthersKeepBatchers(c, s, e);
      hide Apply, Enabled;
    }
  }

  lemma BalancedStep<T>(c: Config<T>, s: State<T>, e: Event<T>, x: T)
    requires Balanced(s, x) && PassThrough(c, s) && Enabled(c, s, e)
    ensures Balanced(Apply(c, s, e), x) && PassThrough(c, Apply(c, s, e))
  {
    PassThroughStep(c, s, e);
    hide ThreadEnabled, CloserEnabled, WorkerEnabled, ThreadStep, CloserStep, WorkerStep, Balanced, PassThrough;
    if e.IsThreads() {
      BalancedThreadStep(c, s, e, x);
    } else if e.IsClosers() {
      BalancedCloserStep(c, s, e, x);
    } else {
      BalancedWorkerStep(c, s, e, x);
    }
  }

  lemma {:induction false} BalancedRun<T>(c: Config<T>, s: State<T>, es: seq<Event<T>>, x: T)
    requires Balanced(s, x) && PassThrough(c, s) && IsRun(c, s, es)
    ensures Balanced(After(c, s, es), x) && PassThrough(c, After(c, s, es))
    decreases |es|
  {
    hide Apply, Enabled, Balanced, PassThrough;
    if es != [] {
      BalancedStep(c, s, es[0], x);
      BalancedRun(c, Apply(c, s, es[0]), es[1..], x);
    }
  }

  lemma BalancedStart<T>(c: Config<T>, batchers: nat, x: T)
    ensures Balanced(Start(batchers), x) && PassThrough(c, Start(batchers))
  {
    CountNothing(x);
    GatherNothing(PendingItems<T>, Start<T>(batchers).batchers, x);
  }
}
