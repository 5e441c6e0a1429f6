/** A sender as a state machine: concurrent calls to send data, callbacks of batch timers, the workers that deliver
    payloads within a limited number of slots, and one call to close the sender. Each event is one step of one
    goroutine, between which all the others may run. */
module SenderSteps {
  import opened Batches
  import opened Batching
  import opened SenderRetries
  import opened Wrappers

  /** The number of slots, the number of attempts, the batchers' limits, and which direct items can be sent. */
  datatype Config<!T> = Config(capacity: nat, maxAttempts: nat, limits: Limits, size: T -> int, usable: T -> bool)

  /** Structured data goes through a batcher. All other data is sent directly, item by item. */
  datatype Chunk<T> =
    | Structured(batcher: nat, items: seq<T>)
    | Direct(items: seq<T>)

  /** A call to send data, or a callback of a timer. From the second line on, it holds a read lock;
      from the third line on, it was admitted: it saw under the lock that the sender isn't closing. */
  datatype Thread<T> =
    | Arrived(chunk: Chunk<T>) | Locking(chunk: Chunk<T>) | Fired(batcher: nat, gen: nat) | Gone
    | Checking(chunk: Chunk<T>) | FiredChecking(batcher: nat, gen: nat)
    | Adding(batcher: nat, items: seq<T>) | Flushing(batcher: nat, gen: nat)
    | Relaying(items: seq<T>) | Dispatching(batches: seq<seq<T>>)
  {
    predicate IsReader() {
      Checking? || FiredChecking? || IsAdmitted()
    }

    predicate IsAdmitted() {
      Adding? || Flushing? || Relaying? || Dispatching?
    }
  }

  /** The call to close the sender: waiting for the write lock, holding it, before and after signalling to everyone,
      flushing the batchers in some order, and waiting for all the workers. */
  datatype Closer<T> =
    | Open | CloseLocking | CloseLocked | Signalled | CloseFlushing(next: nat, batches: seq<seq<T>>) | CloseWaiting | Done

  /** A worker, from its registration until its end. It holds a slot in the phases on the second line. */
  datatype Phase =
    | Waiting | Woken(slot: bool) | Leaving | Exited
    | Ready | Preparing | Looping(attempt: nat) | Checked(attempt: nat) | Attempting(attempt: nat)

  datatype Worker<T> = Worker(payload: seq<T>, structured: bool, phase: Phase, sends: nat, rejects: nat, attempts: nat) {
    predicate IsSending() {
      phase.Preparing? || phase.Looping? || phase.Checked? || phase.Attempting?
    }
  }

  datatype State<T(==)> = State(
    threads: seq<Thread<T>>, batchers: seq<Pending<T>>, workers: seq<Worker<T>>, slots: set<nat>,
    closing: bool, closer: Closer<T>,
    given: multiset<T>, delivered: multiset<T>, diverted: multiset<T>, dropped: multiset<T>)

  datatype Event<T> =
    // Calls and callbacks.
    | Send(chunk: Chunk<T>)
    | Fire(batcher: nat, gen: nat)
    | CheckFirst(t: nat)
    | Lock(t: nat)
    | CheckAgain(t: nat)
    | Add(t: nat)
    | Flush(t: nat)
    | Relay(t: nat)
    | Dispatch(t: nat)
    | Unlock(t: nat)
    // Closing.
    | Close
    | CloseLock
    | Signal
    | CloseUnlock
    | CloseFlush
    | CloseDispatch
    | CloseWait
    | CloseDone
    // Workers.
    | Acquire(w: nat)
    | WakeUp(w: nat)
    | Recheck(w: nat)
    | Begin(w: nat)
    | Prepare(w: nat, encoded: bool)
    | CheckLoop(w: nat)
    | Attempt(w: nat)
    | Answer(w: nat, answer: SenderRetries.Answer)
    | Exit(w: nat)
  {
    predicate IsThreads() {
      Send? || Fire? || CheckFirst? || Lock? || CheckAgain? || Add? || Flush? || Relay? || Dispatch? || Unlock?
    }

    predicate IsClosers() {
      Close? || CloseLock? || Signal? || CloseUnlock? || CloseFlush? || CloseDispatch? || CloseWait? || CloseDone?
    }

    predicate IsWorkers() {
      !IsThreads() && !IsClosers()
    }
  }

  function Start<T(==)>(batchers: nat): State<T> {
    State([], seq(batchers, _ => Pending([], None, 0)), [], {}, false, Open, multiset{}, multiset{}, multiset{}, multiset{})
  }

  // ---- Registration of workers.

  /** If there's a free slot then it's taken immediately, otherwise the worker waits for one. */
  function Registered<T>(c: Config<T>, s: State<T>, payload: seq<T>, structured: bool): State<T> {
    var free := |s.slots| < c.capacity;
    s.(workers := s.workers + [Worker(payload, structured, if free then Ready else Waiting, 0, 0, 0)],
       slots := if free then s.slots + {|s.workers|} else s.slots)
  }

  // ---- Calls and callbacks.

  predicate ThreadEnabled<T(==)>(c: Config<T>, s: State<T>, e: Event<T>)
    requires e.IsThreads()
  {
    match e
    case Send(chunk) => chunk.Structured? ==> chunk.batcher < |s.batchers|
    case Fire(b, _) => b < |s.batchers|
    case CheckFirst(t) => t < |s.threads| && s.threads[t].Arrived?
    case Lock(t) =>
      t < |s.threads| && (s.threads[t].Locking? || s.threads[t].Fired?) && !s.closer.CloseLocked? && !s.closer.Signalled?
    case CheckAgain(t) => t < |s.threads| && (s.threads[t].Checking? || s.threads[t].FiredChecking?)
    case Add(t) => t < |s.threads| && s.threads[t].Adding? && s.threads[t].batcher < |s.batchers|
    case Flush(t) => t < |s.threads| && s.threads[t].Flushing? && s.threads[t].batcher < |s.batchers|
    case Relay(t) => t < |s.threads| && s.threads[t].Relaying? && s.threads[t].items != []
    case Dispatch(t) => t < |s.threads| && s.threads[t].Dispatching? && s.threads[t].batches != []
    case Unlock(t) =>
      t < |s.threads| && (s.threads[t] == Relaying([]) || s.threads[t] == Dispatching([]))
  }

  function Become<T>(s: State<T>, t: nat, thread: Thread<T>): State<T>
    requires t < |s.threads|
  {
    s.(threads := s.threads[t := thread])
  }

  /** A whole chunk is rejected, by one call of the fallback. */
  function Rejected<T>(s: State<T>, t: nat): State<T>
    requires t < |s.threads| && (s.threads[t].Arrived? || s.threads[t].Checking?)
  {
    Become(s, t, Gone).(diverted := s.diverted + multiset(s.threads[t].chunk.items))
  }

  function ThreadStep<T>(c: Config<T>, s: State<T>, e: Event<T>): (s': State<T>)
    requires e.IsThreads() && ThreadEnabled(c, s, e)
    ensures |s'.threads| >= |s.threads|
  {
    match e
    case Send(chunk) =>
      if chunk.items == [] then s
      else s.(threads := s.threads + [Arrived(chunk)], given := s.given + multiset(chunk.items))
    case Fire(b, g) => s.(threads := s.threads + [Fired(b, g)])
    case CheckFirst(t) => if s.closing then Rejected(s, t) else Become(s, t, Locking(s.threads[t].chunk))
    case Lock(t) =>
      (match s.threads[t]
       case Locking(chunk) => Become(s, t, Checking(chunk))
       case Fired(b, g) => Become(s, t, FiredChecking(b, g)))
    case CheckAgain(t) =>
      (match s.threads[t]
       case Checking(chunk) =>
         if s.closing then Rejected(s, t)
         else if chunk.Structured? then Become(s, t, Adding(chunk.batcher, chunk.items))
         else Become(s, t, Relaying(chunk.items))
       case FiredChecking(b, g) => Become(s, t, if s.closing then Gone else Flushing(b, g)))
    case Add(t) =>
      var b := s.threads[t].batcher;
      var out := AfterAdd(c.limits, c.size, s.batchers[b], s.threads[t].items);
      Become(s, t, Dispatching(out.ready)).(batchers := s.batchers[b := out.pending])
    case Flush(t) =>
      var b := s.threads[t].batcher;
      var out := AfterTimedFlush(s.batchers[b], s.threads[t].gen);
      Become(s, t, Dispatching(out.ready)).(batchers := s.batchers[b := out.pending])
    case Relay(t) =>
      var items := s.threads[t].items;
      var s' := Become(s, t, Relaying(items[1..]));
      if c.usable(items[0]) then Registered(c, s', [items[0]], false)
      else s'.(dropped := s'.dropped + multiset{items[0]})
    case Dispatch(t) =>
      var batches := s.threads[t].batches;
      Registered(c, Become(s, t, Dispatching(batches[1..])), batches[0], true)
    case Unlock(t) => Become(s, t, Gone)
  }

  // ---- Closing.

  predicate CloserEnabled<T(==)>(c: Config<T>, s: State<T>, e: Event<T>)
    requires e.IsClosers()
  {
    match e
    case Close => s.closer.Open?
    case CloseLock => s.closer.CloseLocking? && forall t :: t in s.threads ==> !t.IsReader()
    case Signal => s.closer.CloseLocked?
    case CloseUnlock => s.closer.Signalled?
    case CloseFlush => s.closer.CloseFlushing? && s.closer.next < |s.batchers| && s.closer.batches == []
    case CloseDispatch => s.closer.CloseFlushing? && s.closer.batches != []
    case CloseWait => s.closer.CloseFlushing? && s.closer.next == |s.batchers| && s.closer.batches == []
    case CloseDone => s.closer.CloseWaiting? && forall w :: w in s.workers ==> w.phase.Exited?
  }

  function CloserStep<T>(c: Config<T>, s: State<T>, e: Event<T>): State<T>
    requires e.IsClosers() && CloserEnabled(c, s, e)
  {
    match e
    case Close => s.(closer := CloseLocking)
    case CloseLock => s.(closer := CloseLocked)
    case Signal => s.(closer := Signalled, closing := true)
    case CloseUnlock => s.(closer := CloseFlushing(0, []))
    case CloseFlush =>
      var b := s.closer.next;
      var out := AfterFlush(s.batchers[b]);
      s.(closer := CloseFlushing(b + 1, out.ready), batchers := s.batchers[b := out.pending])
    case CloseDispatch =>
      var batches := s.closer.batches;
      Registered(c, s.(closer := CloseFlushing(s.closer.next, batches[1..])), batches[0], true)
    case CloseWait => s.(closer := CloseWaiting)
    case CloseDone => s.(closer := Done)
  }

  // ---- Workers.

  predicate WorkerEnabled<T(==)>(c: Config<T>, s: State<T>, e: Event<T>)
    requires e.IsWorkers()
  {
    e.w < |s.workers| &&
    var phase := s.workers[e.w].phase;
    match e
    case Acquire(_) => phase.Waiting? && |s.slots| < c.capacity
    case WakeUp(_) => phase.Waiting? && s.closing
    case Recheck(_) => phase.Woken?
    case Begin(_) => phase.Ready?
    case Prepare(_, _) => phase.Preparing?
    case CheckLoop(_) => phase.Looping?
    case Attempt(_) => phase.Checked?
    case Answer(_, _) => phase.Attempting?
    case Exit(_) => phase.Leaving?
  }

  function Advance<T>(s: State<T>, w: nat, phase: Phase): State<T>
    requires w < |s.workers|
  {
    s.(workers := s.workers[w := s.workers[w].(phase := phase)])
  }

  /** The worker's payload was delivered, or diverted by one call of the fallback. */
  function Settled<T>(s: State<T>, w: nat, success: bool): State<T>
    requires w < |s.workers|
  {
    var items := multiset(s.workers[w].payload);
    var s' := Advance(s, w, Leaving);
    if success then s'.(delivered := s.delivered + items) else s'.(diverted := s.diverted + items)
  }

  function BeginSend<T>(s: State<T>, w: nat): State<T>
    requires w < |s.workers|
  {
    s.(workers := s.workers[w := s.workers[w].(phase := Preparing, sends := s.workers[w].sends + 1)])
  }

  function WorkerStep<T>(c: Config<T>, s: State<T>, e: Event<T>): (s': State<T>)
    requires e.IsWorkers() && WorkerEnabled(c, s, e)
    ensures |s'.workers| == |s.workers|
  {
    var worker := s.workers[e.w];
    match e
    case Acquire(w) => Advance(s, w, Woken(true)).(slots := s.slots + {w})
    case WakeUp(w) => Advance(s, w, Woken(false))
    case Recheck(w) =>
      if s.closing then
        Settled(s.(workers := s.workers[w := worker.(rejects := worker.rejects + 1)]), w, false)
      else BeginSend(s, w)
    case Begin(w) => BeginSend(s, w)
    case Prepare(w, encoded) =>
      if worker.structured && !encoded then Settled(s, w, false) else Advance(s, w, Looping(0))
    case CheckLoop(w) =>
      var i := worker.phase.attempt;
      if i >= c.maxAttempts || (i > 0 && s.closing) then Settled(s, w, false) else Advance(s, w, Checked(i))
    case Attempt(w) =>
      s.(workers := s.workers[w := worker.(phase := Attempting(worker.phase.attempt), attempts := worker.attempts + 1)])
    case Answer(w, answer) =>
      if answer.IsSuccess() then Settled(s, w, true)
      else if !answer.Retry() then Settled(s, w, false)
      else Advance(s, w, Looping(worker.phase.attempt + 1))
    case Exit(w) => Advance(s, w, Exited).(slots := s.slots - {w})
  }

  // ---- Runs.

  predicate Enabled<T(==)>(c: Config<T>, s: State<T>, e: Event<T>) {
    if e.IsThreads() then ThreadEnabled(c, s, e)
    else if e.IsClosers() then CloserEnabled(c, s, e)
    else WorkerEnabled(c, s, e)
  }

  function Apply<T>(c: Config<T>, s: State<T>, e: Event<T>): State<T>
    requires Enabled(c, s, e)
  {
    if e.IsThreads() then ThreadStep(c, s, e)
    else if e.IsClosers() then CloserStep(c, s, e)
    else WorkerStep(c, s, e)
  }

  predicate IsRun<T(==)>(c: Config<T>, s: State<T>, es: seq<Event<T>>)
    decreases |es|
  {
    es == [] || (Enabled(c, s, es[0]) && IsRun(c, Apply(c, s, es[0]), es[1..]))
  }

  function After<T>(c: Config<T>, s: State<T>, es: seq<Event<T>>): State<T>
    requires IsRun(c, s, es)
    decreases |es|
  {
    if es == [] then s else After(c, Apply(c, s, es[0]), es[1..])
  }
}
