/** What a sender's payloads are made of, in whole runs: batches of structured data, and single direct items. */
module SenderPayloads {
  import opened Batches
  import opened Batching
  import opened SenderLifecycle
  import opened SenderSteps

  predicate IsPayload<T>(c: Config<T>, w: Worker<T>) {
    if w.structured then Allowed(c.limits, c.size, w.payload) else |w.payload| == 1 && c.usable(w.payload[0])
  }

  ghost predicate AreAllowed<T>(c: Config<T>, batches: seq<seq<T>>) {
    forall batch :: batch in batches ==> Allowed(c.limits, c.size, batch)
  }

  /** Batches are within the limits, wherever they are. */
  ghost predicate Sized<T>(c: Config<T>, s: State<T>) {
    && (forall w :: 0 <= w < |s.workers| ==> IsPayload(c, s.workers[w]))
    && (forall t :: 0 <= t < |s.threads| && s.threads[t].Dispatching? ==> AreAllowed(c, s.threads[t].batches))
    && (s.closer.CloseFlushing? ==> AreAllowed(c, s.closer.batches))
    && (forall b :: 0 <= b < |s.batchers| ==> Below(c.limits, c.size, s.batchers[b].buf))
  }

  lemma SizedAtStart<T>(c: Config<T>, batchers: nat)
    ensures Sized(c, Start<T>(batchers))
  {
    NothingIsBelow(c.limits, c.size);
  }

  lemma RegisteredIsSized<T>(c: Config<T>, s: State<T>, payload: seq<T>, structured: bool)
    requires Sized(c, s)
    requires if structured then Allowed(c.limits, c.size, payload) else |payload| == 1 && c.usable(payload[0])
    ensures Sized(c, Registered(c, s, payload, structured))
  {
    hide Below, Allowed, AreAllowed;
  }

  lemma BecomeIsSized<T>(c: Config<T>, s: State<T>, t: nat, thread: Thread<T>)
    requires Sized(c, s) && t < |s.threads| && (thread.Dispatching? ==> AreAllowed(c, thread.batches))
    ensures Sized(c, Become(s, t, thread))
  {
    hide Below, AreAllowed, IsPayload;
  }

  lemma RejectedIsSized<T>(c: Config<T>, s: State<T>, t: nat)
    requires Sized(c, s) && t < |s.threads| && (s.threads[t].Arrived? || s.threads[t].Checking?)
    ensures Sized(c, Rejected(s, t))
  {
    hide Below, AreAllowed, IsPayload;
  }

  lemma BatcherIsSized<T>(c: Config<T>, s: State<T>, b: nat, p: Pending<T>)
    requires Sized(c, s) && b < |s.batchers| && Below(c.limits, c.size, p.buf)
    ensures Sized(c, s.(batchers := s.batchers[b := p]))
  {
    hide Below, AreAllowed, IsPayload;
  }

  lemma FlushIsSized<T>(c: Config<T>, p: Pending<T>)
    requires Below(c.limits, c.size, p.buf)
    ensures var out := AfterFlush(p); AreAllowed(c, out.ready) && Below(c.limits, c.size, out.pending.buf)
  {
    NothingIsBelow(c.limits, c.size);
    BelowIsAllowed(c.limits, c.size, p.buf);
    hide Below, Allowed;
  }

  lemma SizedAdd<T>(c: Config<T>, s: State<T>, t: nat)
    requires Sized(c, s) && ThreadEnabled(c, s, Event<T>.Add(t))
    ensures Sized(c, ThreadStep(c, s, Event<T>.Add(t)))
  {
    hide AfterAdd, Below, Allowed, IsPayload;
    var b := s.threads[t].batcher;
    AddIsLimited(c.limits, c.size, s.batchers[b], s.threads[t].items);
    var out := AfterAdd(c.limits, c.size, s.batchers[b], s.threads[t].items);
    BecomeIsSized(c, s, t, Dispatching(out.ready));
    BatcherIsSized(c, Become(s, t, Dispatching(out.ready)), b, out.pending);
    hide Sized;
  }

  lemma SizedFlush<T>(c: Config<T>, s: State<T>, t: nat)
    requires Sized(c, s) && ThreadEnabled(c, s, Event<T>.Flush(t))
    ensures Sized(c, ThreadStep(c, s, Event<T>.Flush(t)))
  {
    hide Below, Allowed, IsPayload, AfterFlush;
    var b := s.threads[t].batcher;
    FlushIsSized(c, s.batchers[b]);
    var out := AfterTimedFlush(s.batchers[b], s.threads[t].gen);
    BecomeIsSized(c, s, t, Dispatching(out.ready));
    BatcherIsSized(c, Become(s, t, Dispatching(out.ready)), b, out.pending);
    hide Sized;
  }

  lemma SizedRelay<T>(c: Config<T>, s: State<T>, t: nat)
    requires Sized(c, s) && ThreadEnabled(c, s, Event<T>.Relay(t))
    ensures Sized(c, ThreadStep(c, s, Event<T>.Relay(t)))
  {
    hide Below, Allowed, IsPayload, AreAllowed, Registered;
    var items := s.threads[t].items;
    var s' := Become(s, t, Relaying(items[1..]));
    BecomeIsSized(c, s, t, Relaying(items[1..]));
    if c.usable(items[0]) {
      RegisteredIsSized(c, s', [items[0]], false);
    }
  }

  lemma SizedDispatch<T>(c: Config<T>, s: State<T>, t: nat)
    requires Sized(c, s) && ThreadEnabled(c, s, Event<T>.Dispatch(t))
    ensures Sized(c, ThreadStep(c, s, Event<T>.Dispatch(t)))
  {
    hide Below, Allowed, IsPayload, Registered;
    var batches := s.threads[t].batches;
    assert batches[0] in batches && forall batch :: batch in batches[1..] ==> batch in batches;
    BecomeIsSized(c, s, t, Dispatching(batches[1..]));
    RegisteredIsSized(c, Become(s, t, Dispatching(batches[1..])), batches[0], true);
  }

  lemma SizedThreadStep<T>(c: Config<T>, s: State<T>, e: Event<T>)
    requires Sized(c, s) && e.IsThreads() && ThreadEnabled(c, s, e)
    ensures Sized(c, ThreadStep(c, s, e))
  {
    match e
    case Add(t) => SizedAdd(c, s, t); hide ThreadStep, Sized;
    case Flush(t) => SizedFlush(c, s, t); hide ThreadStep, Sized;
    case Relay(t) => SizedRelay(c, s, t); hide ThreadStep, Sized;
    case Dispatch(t) => SizedDispatch(c, s, t); hide ThreadStep, Sized;
    case _ => SizedCall(c, s, e); hide ThreadStep, Sized;
  }

  lemma SizedCall<T>(c: Config<T>, s: State<T>, e: Event<T>)
    requires Sized(c, s) && e.IsThreads() && ThreadEnabled(c, s, e)
    requires e.Send? || e.Fire? || e.CheckFirst? || e.Lock? || e.CheckAgain? || e.Unlock?
    ensures Sized(c, ThreadStep(c, s, e))
  {
    if e.CheckFirst? || e.CheckAgain? {
      SizedCheck(c, s, e);
      hide ThreadStep;
    } else if e.Lock? || e.Unlock? {
      var thread := ThreadStep(c, s, e).threads[e.t];
      BecomeIsSized(c, s, e.t, thread);
      hide Sized, Become;
    } else {
      SizedArrival(c, s, e);
      hide ThreadStep;
    }
  }

  lemma SizedArrival<T>(c: Config<T>, s: State<T>, e: Event<T>)
    requires Sized(c, s) && (e.Send? || e.Fire?) && ThreadEnabled(c, s, e)
    ensures Sized(c, ThreadStep(c, s, e))
  {
    hide AfterAdd, AfterTimedFlush, Registered, Rejected, Below, AreAllowed, IsPayload;
  }

  lemma SizedCheck<T>(c: Config<T>, s: State<T>, e: Event<T>)
    requires Sized(c, s) && (e.CheckFirst? || e.CheckAgain?) && ThreadEnabled(c, s, e)
    ensures Sized(c, ThreadStep(c, s, e))
  {
    hide AfterAdd, AfterTimedFlush, Registered, Rejected, Become, Sized;
    var thread := s.threads[e.t];
    if (thread.Arrived? || thread.Checking?) && s.closing {
      RejectedIsSized(c, s, e.t);
    }
    var after := if e.CheckFirst? then Locking(thread.chunk)
      else if thread.FiredChecking? then (if s.closing then Gone else Flushing(thread.batcher, thread.gen))
      else if thread.chunk.Structured? then Adding(thread.chunk.batcher, thread.chunk.items)
      else Relaying(thread.chunk.items);
    BecomeIsSized(c, s, e.t, after);
  }

  lemma SizedCloserStep<T>(c: Config<T>, s: State<T>, e: Event<T>)
    requires Sized(c, s) && e.IsClosers() && CloserEnabled(c, s, e)
    ensures Sized(c, CloserStep(c, s, e))
  {
    hide AfterFlush, Registered, Below, Allowed, IsPayload;
    if e.CloseFlush? {
      FlushIsSized(c, s.batchers[s.closer.next]);
    } else if e.CloseDispatch? {
      var batches := s.closer.batches;
      assert batches[0] in batches && forall batch :: batch in batches[1..] ==> batch in batches;
      RegisteredIsSized(c, s.(closer := CloseFlushing(s.closer.next, batches[1..])), batches[0], true);
    }
  }

  lemma SettledKeepsPayload<T>(s: State<T>, w: nat, success: bool)
    requires w < |s.workers|
    ensures var worker, worker' := s.workers[w], Settled(s, w, success).workers[w];
      worker'.payload == worker.payload && worker'.structured == worker.structured
  {}

  lemma WorkersKeepPayloads<T>(c: Config<T>, s: State<T>, e: Event<T>)
    requires e.IsWorkers() && WorkerEnabled(c, s, e)
    ensures var worker, worker' := s.workers[e.w], WorkerStep(c, s, e).workers[e.w];
      worker'.payload == worker.payload && worker'.structured == worker.structured
  {
    hide Settled;
    var worker := s.workers[e.w];
    SettledKeepsPayload(s, e.w, true);
    SettledKeepsPayload(s, e.w, false);
    SettledKeepsPayload(s.(workers := s.workers[e.w := worker.(rejects := worker.rejects + 1)]), e.w, false);
  }

  lemma SizedWorkerStep<T>(c: Config<T>, s: State<T>, e: Event<T>)
    requires Sized(c, s) && e.IsWorkers() && WorkerEnabled(c, s, e)
    ensures Sized(c, WorkerStep(c, s, e))
  {
    WorkerStepChanges(c, s, e);
    WorkersKeepPayloads(c, s, e);
    hide WorkerStep, WorkerEnabled, Below, Allowed, AreAllowed;
  }

  lemma {:induction false} SizedRun<T>(c: Config<T>, s: State<T>, es: seq<Event<T>>)
    requires Sized(c, s) && IsRun(c, s, es)
    ensures Sized(c, After(c, s, es))
    decreases |es|
  {
    hide Sized, ThreadStep, ThreadEnabled, CloserStep, CloserEnabled, WorkerStep, WorkerEnabled;
    if es != [] {
      var e := es[0];
      if e.IsThreads() {
        SizedThreadStep(c, s, e);
      } else if e.IsClosers() {
        SizedCloserStep(c, s, e);
      } else {
        SizedWorkerStep(c, s, e);
      }
      SizedRun(c, Apply(c, s, e), es[1..]);
    }
  }

  /** In every run, each payload of structured data is a batch within the limits, unless it's a single item.
      Each payload of other data is a single item, which can be sent. */
  lemma PayloadsAreBatches<T>(c: Config<T>, batchers: nat, es: seq<Event<T>>, w: nat)
    requires IsRun(c, Start(batchers), es) && w < |After(c, Start(batchers), es).workers|
    ensures var worker := After(c, Start(batchers), es).workers[w];
      var n := |worker.payload|;
      && n > 0
      && (worker.structured && c.limits.maxItems > 0 ==> n <= c.limits.maxItems)
      && (worker.structured && c.limits.maxBytes > 0 && n > 1 ==>
            Total(c.limits, c.size, worker.payload) <= c.limits.maxBytes)
      && (!worker.structured ==> n == 1 && c.usable(worker.payload[0]))
  {
    SizedAtStart(c, batchers);
    SizedRun(c, Start(batchers), es);
    hide IsRun, After, Total;
    assert IsPayload(c, After(c, Start(batchers), es).workers[w]);
  }

  // ---- Each batcher has its own items.

  /** Nobody has items for the given batcher, or is about to flush it. */
  ghost predicate IsUnused<T>(s: State<T>, b: nat) {
    && b < |s.batchers| && s.batchers[b].buf == []
    && forall t :: 0 <= t < |s.threads| ==>
         match s.threads[t]
         case Arrived(chunk) => chunk.Structured? ==> chunk.batcher != b
         case Locking(chunk) => chunk.Structured? ==> chunk.batcher != b
         case Checking(chunk) => chunk.Structured? ==> chunk.batcher != b
         case Adding(batcher, _) => batcher != b
         case _ => true
  }

  lemma UnusedThreadStep<T>(c: Config<T>, s: State<T>, e: Event<T>, b: nat)
    requires IsUnused(s, b) && e.IsThreads() && ThreadEnabled(c, s, e)
    requires e.Send? && e.chunk.Structured? ==> e.chunk.batcher != b
    ensures IsUnused(ThreadStep(c, s, e), b)
  {
    if e.Relay? || e.Dispatch? {
      RelayIsUnused(c, s, e, b);
    } else if e.Add? || e.Flush? {
      BatcherIsUnused(c, s, e, b);
    } else if e.CheckFirst? || e.CheckAgain? {
      CheckIsUnused(c, s, e, b);
    } else {
      CallIsUnused(c, s, e, b);
    }
    hide ThreadStep, ThreadEnabled, IsUnused;
  }

  lemma CallIsUnused<T>(c: Config<T>, s: State<T>, e: Event<T>, b: nat)
    requires IsUnused(s, b) && (e.Send? || e.Fire? || e.Lock? || e.Unlock?) && ThreadEnabled(c, s, e)
    requires e.Send? && e.chunk.Structured? ==> e.chunk.batcher != b
    ensures IsUnused(ThreadStep(c, s, e), b)
  {
    hide AfterAdd, AfterTimedFlush, Registered, Rejected;
  }

  lemma CheckIsUnused<T>(c: Config<T>, s: State<T>, e: Event<T>, b: nat)
    requires IsUnused(s, b) && (e.CheckFirst? || e.CheckAgain?) && ThreadEnabled(c, s, e)
    ensures IsUnused(ThreadStep(c, s, e), b)
  {
    hide AfterAdd, AfterTimedFlush, Registered, Rejected;
    if e.CheckFirst? || s.threads[e.t].Checking? {
      RejectedChanges(s, e.t);
      RejectedKeepsBatchers(s, e.t);
    }
  }

  lemma RejectedKeepsBatchers<T>(s: State<T>, t: nat)
    requires t < |s.threads| && (s.threads[t].Arrived? || s.threads[t].Checking?)
    ensures Rejected(s, t).batchers == s.batchers
  {}

  lemma BatcherIsUnused<T>(c: Config<T>, s: State<T>, e: Event<T>, b: nat)
    requires IsUnused(s, b) && (e.Add? || e.Flush?) && ThreadEnabled(c, s, e)
    ensures IsUnused(ThreadStep(c, s, e), b)
  {
    hide AfterAdd, Registered;
  }

  lemma RelayKeepsBatchers<T>(c: Config<T>, s: State<T>, e: Event<T>)
    requires (e.Relay? || e.Dispatch?) && ThreadEnabled(c, s, e)
    ensures var s' := ThreadStep(c, s, e);
      s'.batchers == s.batchers && e.t < |s'.threads| && (s'.threads[e.t].Relaying? || s'.threads[e.t].Dispatching?)
  {
    hide Registered;
    if e.Relay? {
      RegisteredChanges(c, Become(s, e.t, Relaying(s.threads[e.t].items[1..])), [s.threads[e.t].items[0]], false);
    } else {
      RegisteredChanges(c, Become(s, e.t, Dispatching(s.threads[e.t].batches[1..])), s.threads[e.t].batches[0], true);
    }
  }

  lemma RelayIsUnused<T>(c: Config<T>, s: State<T>, e: Event<T>, b: nat)
    requires IsUnused(s, b) && (e.Relay? || e.Dispatch?) && ThreadEnabled(c, s, e)
    ensures IsUnused(ThreadStep(c, s, e), b)
  {
    RelayIsFair(c, s, e);
    RelayKeepsBatchers(c, s, e);
    hide ThreadStep, ThreadEnabled;
  }

  lemma UnusedCloserStep<T>(c: Config<T>, s: State<T>, e: Event<T>, b: nat)
    requires IsUnused(s, b) && e.IsClosers() && CloserEnabled(c, s, e)
    ensures IsUnused(CloserStep(c, s, e), b)
  {
    if e.CloseDispatch? {
      var batches := s.closer.batches;
      RegisteredChanges(c, s.(closer := CloseFlushing(s.closer.next, batches[1..])), batches[0], true);
    }
    hide Registered;
  }

  /** A batcher remains empty as long as it isn't given anything, whatever others are given. */
  lemma {:induction false} BatchersAreSeparate<T>(c: Config<T>, s: State<T>, es: seq<Event<T>>, b: nat)
    requires IsUnused(s, b) && IsRun(c, s, es)
    requires forall e :: e in es && e.Send? && e.chunk.Structured? ==> e.chunk.batcher != b
    ensures b < |After(c, s, es).batchers| && After(c, s, es).batchers[b].buf == []
    decreases |es|
  {
    hide ThreadStep, ThreadEnabled, CloserStep, CloserEnabled, WorkerStep, WorkerEnabled;
    if es != [] {
      var e := es[0];
      assert e in es;
      if e.IsThreads() {
        UnusedThreadStep(c, s, e, b);
      } else if e.IsClosers() {
        UnusedCloserStep(c, s, e, b);
      } else {
        WorkerStepChanges(c, s, e);
      }
      BatchersAreSeparate(c, Apply(c, s, e), es[1..], b);
    }
  }

  // ---- Structured data is only batched, and other data never is.

  /** Only structured data, or only other data, was sent so far. */
  predicate IsOfKind<T>(t: Thread<T>, structured: bool) {
    match t
    case Arrived(chunk) => chunk.Structured? == structured
    case Locking(chunk) => chunk.Structured? == structured
    case Checking(chunk) => chunk.Structured? == structured
    case Adding(_, _) => structured
    case Relaying(_) => !structured
    case Dispatching(batches) => structured || batches == []
    case _ => true
  }

  ghost predicate IsOnly<T>(s: State<T>, structured: bool) {
    && (forall t :: 0 <= t < |s.threads| ==> IsOfKind(s.threads[t], structured))
    && (forall w :: 0 <= w < |s.workers| ==> s.workers[w].structured == structured)
    && (structured ==> s.dropped == multiset{})
    && (!structured ==> forall b :: 0 <= b < |s.batchers| ==> s.batchers[b].buf == [])
    && (!structured && s.closer.CloseFlushing? ==> s.closer.batches == [])
  }

  lemma RegisteredIsOnly<T>(c: Config<T>, s: State<T>, payload: seq<T>, structured: bool)
    requires IsOnly(s, structured)
    ensures IsOnly(Registered(c, s, payload, structured), structured)
  {
    hide IsOfKind;
  }

  lemma BecomeIsOnly<T>(s: State<T>, t: nat, thread: Thread<T>, structured: bool)
    requires IsOnly(s, structured) && t < |s.threads| && IsOfKind(thread, structured)
    ensures IsOnly(Become(s, t, thread), structured)
  {
    hide IsOfKind;
  }

  lemma RelayIsOnly<T>(c: Config<T>, s: State<T>, e: Event<T>, structured: bool)
    requires IsOnly(s, structured) && (e.Relay? || e.Dispatch?) && ThreadEnabled(c, s, e)
    ensures IsOnly(ThreadStep(c, s, e), structured)
  {
    hide Registered, Become;
    assert IsOfKind(s.threads[e.t], structured);
    if e.Relay? {
      var items := s.threads[e.t].items;
      BecomeIsOnly(s, e.t, Relaying(items[1..]), structured);
      RegisteredIsOnly(c, Become(s, e.t, Relaying(items[1..])), [items[0]], structured);
    } else {
      var batches := s.threads[e.t].batches;
      BecomeIsOnly(s, e.t, Dispatching(batches[1..]), structured);
      RegisteredIsOnly(c, Become(s, e.t, Dispatching(batches[1..])), batches[0], structured);
    }
  }

  lemma BatcherIsOnly<T>(c: Config<T>, s: State<T>, e: Event<T>, structured: bool)
    requires IsOnly(s, structured) && (e.Add? || e.Flush?) && ThreadEnabled(c, s, e)
    ensures IsOnly(ThreadStep(c, s, e), structured)
  {
    hide AfterAdd, Become;
    assert IsOfKind(s.threads[e.t], structured);
    var b := s.threads[e.t].batcher;
    var out := if e.Add? then AfterAdd(c.limits, c.size, s.batchers[b], s.threads[e.t].items)
               else AfterTimedFlush(s.batchers[b], s.threads[e.t].gen);
    BecomeIsOnly(s, e.t, Dispatching(out.ready), structured);
    hide IsOfKind;
  }

  lemma ArrivalIsOnly<T>(c: Config<T>, s: State<T>, e: Event<T>, structured: bool)
    requires IsOnly(s, structured) && (e.Send? || e.Fire?) && ThreadEnabled(c, s, e)
    requires e.Send? ==> e.chunk.Structured? == structured
    ensures IsOnly(ThreadStep(c, s, e), structured)
  {
    hide AfterAdd, AfterTimedFlush, Registered, Rejected, Become;
  }

  lemma CheckIsOnly<T>(c: Config<T>, s: State<T>, e: Event<T>, structured: bool)
    requires IsOnly(s, structured) && (e.CheckFirst? || e.CheckAgain? || e.Lock? || e.Unlock?) && ThreadEnabled(c, s, e)
    ensures IsOnly(ThreadStep(c, s, e), structured)
  {
    hide AfterAdd, AfterTimedFlush, Registered, Become, IsOnly;
    var thread := s.threads[e.t];
    KindOfThread(s, e.t, structured);
    BecomeIsOnly(s, e.t, Gone, structured);
    if (thread.Arrived? || thread.Checking?) && s.closing {
      DivertedIsOnly(Become(s, e.t, Gone), s.diverted + multiset(thread.chunk.items), structured);
    }
    var after := if e.CheckFirst? then Locking(thread.chunk)
      else if e.Unlock? then Gone
      else if thread.Locking? then Checking(thread.chunk)
      else if thread.Fired? then FiredChecking(thread.batcher, thread.gen)
      else if thread.FiredChecking? then (if s.closing then Gone else Flushing(thread.batcher, thread.gen))
      else if thread.chunk.Structured? then Adding(thread.chunk.batcher, thread.chunk.items)
      else Relaying(thread.chunk.items);
    BecomeIsOnly(s, e.t, after, structured);
  }

  lemma KindOfThread<T>(s: State<T>, t: nat, structured: bool)
    requires IsOnly(s, structured) && t < |s.threads|
    ensures IsOfKind(s.threads[t], structured)
  {}

  lemma DivertedIsOnly<T>(s: State<T>, diverted: multiset<T>, structured: bool)
    requires IsOnly(s, structured)
    ensures IsOnly(s.(diverted := diverted), structured)
  {}

  lemma CloserIsOnly<T>(c: Config<T>, s: State<T>, e: Event<T>, structured: bool)
    requires IsOnly(s, structured) && e.IsClosers() && CloserEnabled(c, s, e)
    ensures IsOnly(CloserStep(c, s, e), structured)
  {
    hide Registered, IsOfKind;
    if e.CloseDispatch? {
      var batches := s.closer.batches;
      RegisteredIsOnly(c, s.(closer := CloseFlushing(s.closer.next, batches[1..])), batches[0], structured);
    }
  }

  lemma WorkerIsOnly<T>(c: Config<T>, s: State<T>, e: Event<T>, structured: bool)
    requires IsOnly(s, structured) && e.IsWorkers() && WorkerEnabled(c, s, e)
    ensures IsOnly(WorkerStep(c, s, e), structured)
  {
    WorkerStepChanges(c, s, e);
    WorkersKeepPayloads(c, s, e);
    WorkersDropNothing(c, s, e);
    hide WorkerStep, WorkerEnabled, IsOfKind;
  }

  lemma WorkersDropNothing<T>(c: Config<T>, s: State<T>, e: Event<T>)
    requires e.IsWorkers() && WorkerEnabled(c, s, e)
    ensures WorkerStep(c, s, e).dropped == s.dropped
  {}

  lemma {:induction false} OnlyRun<T>(c: Config<T>, s: State<T>, es: seq<Event<T>>, structured: bool)
    requires IsOnly(s, structured) && IsRun(c, s, es)
    requires forall e :: e in es && e.Send? ==> e.chunk.Structured? == structured
    ensures IsOnly(After(c, s, es), structured)
    decreases |es|
  {
    hide IsOnly, ThreadStep, ThreadEnabled, CloserStep, CloserEnabled, WorkerStep, WorkerEnabled;
    if es != [] {
      var e := es[0];
      assert e in es;
      if e.IsClosers() {
        CloserIsOnly(c, s, e, structured);
      } else if e.IsWorkers() {
        WorkerIsOnly(c, s, e, structured);
      } else if e.Relay? || e.Dispatch? {
        RelayIsOnly(c, s, e, structured);
      } else if e.Add? || e.Flush? {
        BatcherIsOnly(c, s, e, structured);
      } else if e.Send? || e.Fire? {
        ArrivalIsOnly(c, s, e, structured);
      } else {
        CheckIsOnly(c, s, e, structured);
      }
      OnlyRun(c, Apply(c, s, e), es[1..], structured);
    }
  }

  /** Structured data is only ever sent in batches, and none of it is dropped. Other data is never batched. */
  lemma KindsAreSeparate<T>(c: Config<T>, batchers: nat, es: seq<Event<T>>, structured: bool)
    requires IsRun(c, Start(batchers), es)
    requires forall e :: e in es && e.Send? ==> e.chunk.Structured? == structured
    ensures var s := After(c, Start(batchers), es);
      && (forall w :: 0 <= w < |s.workers| ==> s.workers[w].structured == structured)
      && (structured ==> s.dropped == multiset{})
      && (!structured ==> forall b :: 0 <= b < |s.batchers| ==> s.batchers[b].buf == [])
  {
    OnlyRun(c, Start(batchers), es, structured);
    hide IsRun, After, IsOfKind;
  }
}
