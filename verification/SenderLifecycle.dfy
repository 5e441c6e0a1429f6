/** What all the runs of a sender keep: who's admitted, who holds a slot, and what closing waits for. */
module SenderLifecycle {
  import opened Batches
  import opened Batching
  import opened Gathering
  import opened SenderOutcomes
  import opened SenderRetries
  import opened SenderSteps
  import opened Wrappers

  /** The closing flag flips only under the write lock, so those who were admitted are gone by then. */
  ghost predicate Exclusive<T>(s: State<T>) {
    && (s.closing <==> s.closer.Signalled? || s.closer.CloseFlushing? || s.closer.CloseWaiting? || s.closer.Done?)
    && (s.closer.CloseLocked? || s.closer.Signalled? ==> forall t :: 0 <= t < |s.threads| ==> !s.threads[t].IsReader())
    && (s.closing ==> forall t :: 0 <= t < |s.threads| ==> !s.threads[t].IsAdmitted())
  }

  /** A worker runs either the sending function or the rejecting one, exactly once, within the number of attempts. */
  predicate IsProper<T>(c: Config<T>, closing: bool, w: Worker<T>) {
    match w.phase
    case Waiting => w.sends == w.rejects == w.attempts == 0
    case Woken(slot) => w.sends == w.rejects == w.attempts == 0 && (slot || closing)
    case Ready => w.sends == w.rejects == w.attempts == 0
    case Preparing => w.sends == 1 && w.rejects == w.attempts == 0
    case Looping(i) => w.sends == 1 && w.rejects == 0 && w.attempts == i <= c.maxAttempts
    case Checked(i) => w.sends == 1 && w.rejects == 0 && w.attempts == i < c.maxAttempts
    case Attempting(i) => w.sends == 1 && w.rejects == 0 && w.attempts == i + 1 <= c.maxAttempts
    case _ => w.sends + w.rejects == 1 && w.attempts <= c.maxAttempts && (w.rejects == 1 ==> w.attempts == 0)
  }

  predicate HasSlot(phase: Phase, taken: bool) {
    match phase
    case Waiting => !taken
    case Woken(slot) => slot == taken
    case Exited => !taken
    case Leaving => true
    case _ => taken
  }

  ghost predicate AreProper<T>(c: Config<T>, s: State<T>) {
    forall w :: 0 <= w < |s.workers| ==> IsProper(c, s.closing, s.workers[w])
  }

  ghost predicate AreSlotted<T>(c: Config<T>, s: State<T>) {
    && |s.slots| <= c.capacity
    && (forall w :: w in s.slots ==> w < |s.workers|)
    && (forall w :: 0 <= w < |s.workers| ==> HasSlot(s.workers[w].phase, w in s.slots))
  }

  /** Batchers which were flushed while closing remain empty. */
  ghost predicate AreEmptied<T>(s: State<T>) {
    && (s.closer.CloseFlushing? ==> s.closer.next <= |s.batchers|)
    && (s.closing && !s.closer.Signalled? ==>
          forall b :: 0 <= b < |s.batchers| && (s.closer.CloseFlushing? ==> b < s.closer.next) ==> s.batchers[b].buf == [])
  }

  ghost predicate IsFinished<T>(s: State<T>) {
    s.closer.Done? ==> forall w :: 0 <= w < |s.workers| ==> s.workers[w].phase.Exited?
  }

  ghost predicate Inv<T>(c: Config<T>, s: State<T>) {
    Exclusive(s) && AreProper(c, s) && AreSlotted(c, s) && AreEmptied(s) && IsFinished(s)
  }

  lemma InvAtStart<T>(c: Config<T>, batchers: nat)
    ensures Inv(c, Start<T>(batchers))
  {}

  // ---- Each step keeps the invariant.

  lemma RegisteredKeeps<T>(c: Config<T>, s: State<T>, payload: seq<T>, structured: bool)
    requires AreProper(c, s) && AreSlotted(c, s)
    ensures AreProper(c, Registered(c, s, payload, structured)) && AreSlotted(c, Registered(c, s, payload, structured))
  {
    RegisteredIsProper(c, s, payload, structured);
    hide AreProper, IsProper;
    var s' := Registered(c, s, payload, structured);
    forall w | 0 <= w < |s'.workers|
      ensures HasSlot(s'.workers[w].phase, w in s'.slots)
    {
      if w < |s.workers| {
        assert s'.workers[w] == s.workers[w] && (w in s'.slots <==> w in s.slots);
      }
    }
  }

  lemma RegisteredIsProper<T>(c: Config<T>, s: State<T>, payload: seq<T>, structured: bool)
    requires AreProper(c, s)
    ensures AreProper(c, Registered(c, s, payload, structured))
  {
    var s' := Registered(c, s, payload, structured);
    forall w | 0 <= w < |s'.workers|
      ensures IsProper(c, s.closing, s'.workers[w])
    {
      if w < |s.workers| {
        assert s'.workers[w] == s.workers[w];
      }
    }
  }

  /** Registration affects nothing but the workers. */
  lemma RegisteredChanges<T>(c: Config<T>, s: State<T>, payload: seq<T>, structured: bool)
    ensures var s' := Registered(c, s, payload, structured);
      && s'.threads == s.threads && s'.batchers == s.batchers && s'.closing == s.closing && s'.closer == s.closer
      && |s'.workers| == |s.workers| + 1 && s'.workers[..|s.workers|] == s.workers
      && s'.workers[|s.workers|].attempts == 0
      && (s'.workers[|s.workers|].phase.Waiting? || s'.workers[|s.workers|].phase.Ready?)
  {}

  /** Reading begins only when nobody's writing, and admission only when the sender isn't closing. */
  predicate IsFair<T>(s: State<T>, before: Thread<T>, after: Thread<T>) {
    && (after.IsAdmitted() ==> before.IsAdmitted() || !s.closing)
    && (after.IsReader() ==> before.IsReader() || (!s.closer.CloseLocked? && !s.closer.Signalled?))
  }

  lemma RelayIsFair<T>(c: Config<T>, s: State<T>, e: Event<T>)
    requires (e.Relay? || e.Dispatch?) && ThreadEnabled(c, s, e)
    ensures var s' := ThreadStep(c, s, e);
      && s'.closing == s.closing && s'.closer == s.closer
      && s'.threads == s.threads[e.t := s'.threads[e.t]] && IsFair(s, s.threads[e.t], s'.threads[e.t])
  {
    if e.Relay? {
      RegisteredChanges(c, Become(s, e.t, Relaying(s.threads[e.t].items[1..])), [s.threads[e.t].items[0]], false);
    } else {
      RegisteredChanges(c, Become(s, e.t, Dispatching(s.threads[e.t].batches[1..])), s.threads[e.t].batches[0], true);
    }
    hide Registered;
  }

  lemma ThreadStepIsFair<T>(c: Config<T>, s: State<T>, e: Event<T>)
    requires e.IsThreads() && !e.Send? && !e.Fire? && ThreadEnabled(c, s, e)
    ensures var s' := ThreadStep(c, s, e);
      && s'.closing == s.closing && s'.closer == s.closer
      && s'.threads == s.threads[e.t := s'.threads[e.t]] && IsFair(s, s.threads[e.t], s'.threads[e.t])
  {
    hide AfterAdd, Registered;
    if e.Relay? || e.Dispatch? {
      RelayIsFair(c, s, e);
      hide ThreadStep, ThreadEnabled;
    } else if e.Lock? {
      LockIsFair(c, s, e);
      hide ThreadStep, ThreadEnabled;
    } else if e.CheckFirst? || e.CheckAgain? {
      CheckIsFair(c, s, e);
      hide ThreadStep, ThreadEnabled;
    }
  }

  lemma LockIsFair<T>(c: Config<T>, s: State<T>, e: Event<T>)
    requires e.Lock? && ThreadEnabled(c, s, e)
    ensures var s' := ThreadStep(c, s, e);
      && s'.closing == s.closing && s'.closer == s.closer
      && s'.threads == s.threads[e.t := s'.threads[e.t]] && IsFair(s, s.threads[e.t], s'.threads[e.t])
  {
    hide AfterAdd, AfterTimedFlush, Registered, Rejected;
  }

  lemma CheckIsFair<T>(c: Config<T>, s: State<T>, e: Event<T>)
    requires (e.CheckFirst? || e.CheckAgain?) && ThreadEnabled(c, s, e)
    ensures var s' := ThreadStep(c, s, e);
      && s'.closing == s.closing && s'.closer == s.closer
      && s'.threads == s.threads[e.t := s'.threads[e.t]] && IsFair(s, s.threads[e.t], s'.threads[e.t])
  {
    hide AfterAdd, AfterTimedFlush, Registered, Rejected;
    if e.CheckFirst? || s.threads[e.t].Checking? {
      RejectedChanges(s, e.t);
    }
  }

  lemma RejectedChanges<T>(s: State<T>, t: nat)
    requires t < |s.threads| && (s.threads[t].Arrived? || s.threads[t].Checking?)
    ensures var s' := Rejected(s, t);
      s'.threads == s.threads[t := Gone] && s'.closing == s.closing && s'.closer == s.closer
  {}

  lemma ThreadStepIsExclusive<T>(c: Config<T>, s: State<T>, e: Event<T>)
    requires Exclusive(s) && e.IsThreads() && ThreadEnabled(c, s, e)
    ensures Exclusive(ThreadStep(c, s, e))
  {
    if e.Send? || e.Fire? {
      hide Registered, AfterAdd, AfterTimedFlush;
    } else {
      ThreadStepIsFair(c, s, e);
      FairStepIsExclusive(s, ThreadStep(c, s, e), e.t);
      hide ThreadStep, ThreadEnabled;
    }
  }

  lemma FairStepIsExclusive<T>(s: State<T>, s': State<T>, t: nat)
    requires Exclusive(s) && s'.closing == s.closing && s'.closer == s.closer && t < |s.threads| == |s'.threads|
    requires s'.threads == s.threads[t := s'.threads[t]] && IsFair(s, s.threads[t], s'.threads[t])
    ensures Exclusive(s')
  {
    forall i | 0 <= i < |s.threads|
      ensures IsFair(s, s.threads[i], s'.threads[i])
    {}
  }

  /** Only those who were admitted register workers. */
  lemma ThreadStepWorkers<T>(c: Config<T>, s: State<T>, e: Event<T>)
    requires Inv(c, s) && e.IsThreads() && ThreadEnabled(c, s, e)
    ensures var s' := ThreadStep(c, s, e);
      && AreProper(c, s') && AreSlotted(c, s') && s'.closing == s.closing && s'.closer == s.closer
      && (s.closing ==> s'.workers == s.workers && s'.slots == s.slots && s'.batchers == s.batchers)
      && |s'.batchers| == |s.batchers|
  {
    hide AfterAdd, AreProper, AreSlotted;
    if e.Relay? {
      RelayWorkers(c, s, e.t);
    } else if e.Dispatch? {
      var batches := s.threads[e.t].batches;
      var middle := Become(s, e.t, Dispatching(batches[1..]));
      SameWorkers(c, s, middle);
      RegisteredKeeps(c, middle, batches[0], true);
    } else {
      OthersRegisterNothing(c, s, e);
      SameWorkers(c, s, ThreadStep(c, s, e));
      hide ThreadStep, ThreadEnabled;
    }
  }

  lemma OthersRegisterNothing<T>(c: Config<T>, s: State<T>, e: Event<T>)
    requires Exclusive(s) && e.IsThreads() && ThreadEnabled(c, s, e) && !e.Relay? && !e.Dispatch?
    ensures var s' := ThreadStep(c, s, e);
      && s'.workers == s.workers && s'.slots == s.slots && s'.closing == s.closing && s'.closer == s.closer
      && (s.closing ==> s'.batchers == s.batchers) && |s'.batchers| == |s.batchers|
  {
    hide AfterAdd, AfterTimedFlush, Registered;
    if e.Add? || e.Flush? {
      BatchersAreChanged(c, s, e);
      hide ThreadStep, ThreadEnabled;
    }
  }

  lemma BatchersAreChanged<T>(c: Config<T>, s: State<T>, e: Event<T>)
    requires Exclusive(s) && (e.Add? || e.Flush?) && ThreadEnabled(c, s, e)
    ensures var s' := ThreadStep(c, s, e);
      && s'.workers == s.workers && s'.slots == s.slots && s'.closing == s.closing && s'.closer == s.closer
      && !s.closing && |s'.batchers| == |s.batchers|
  {
    hide AfterAdd, AfterTimedFlush, Registered;
    assert s.threads[e.t].IsAdmitted();
  }

  lemma RelayWorkers<T>(c: Config<T>, s: State<T>, t: nat)
    requires Inv(c, s) && ThreadEnabled(c, s, Event<T>.Relay(t))
    ensures var s' := ThreadStep(c, s, Event<T>.Relay(t));
      AreProper(c, s') && AreSlotted(c, s') && s'.closing == s.closing && s'.closer == s.closer && !s.closing
      && |s'.batchers| == |s.batchers|
  {
    hide AreProper, AreSlotted;
    var items := s.threads[t].items;
    var middle := Become(s, t, Relaying(items[1..]));
    SameWorkers(c, s, middle);
    RegisteredKeeps(c, middle, [items[0]], false);
    SameWorkers(c, middle, middle.(dropped := middle.dropped + multiset{items[0]}));
  }

  lemma SameWorkers<T>(c: Config<T>, s: State<T>, s': State<T>)
    requires AreProper(c, s) && AreSlotted(c, s)
    requires s'.workers == s.workers && s'.slots == s.slots && (s.closing ==> s'.closing)
    ensures AreProper(c, s') && AreSlotted(c, s')
  {}

  lemma ThreadStepKeeps<T>(c: Config<T>, s: State<T>, e: Event<T>)
    requires Inv(c, s) && e.IsThreads() && ThreadEnabled(c, s, e)
    ensures Inv(c, ThreadStep(c, s, e))
  {
    ThreadStepIsExclusive(c, s, e);
    ThreadStepWorkers(c, s, e);
    hide ThreadStep, ThreadEnabled, AreProper, AreSlotted;
  }

  lemma CloserStepWorkers<T>(c: Config<T>, s: State<T>, e: Event<T>)
    requires AreProper(c, s) && AreSlotted(c, s) && Exclusive(s) && e.IsClosers() && CloserEnabled(c, s, e)
    ensures AreProper(c, CloserStep(c, s, e)) && AreSlotted(c, CloserStep(c, s, e))
  {
    hide AreProper, AreSlotted;
    if e.CloseDispatch? {
      var batches := s.closer.batches;
      var middle := s.(closer := CloseFlushing(s.closer.next, batches[1..]));
      SameWorkers(c, s, middle);
      RegisteredKeeps(c, middle, batches[0], true);
    } else {
      SameWorkers(c, s, CloserStep(c, s, e));
    }
  }

  lemma CloserStepIsExclusive<T>(c: Config<T>, s: State<T>, e: Event<T>)
    requires Exclusive(s) && e.IsClosers() && CloserEnabled(c, s, e)
    ensures Exclusive(CloserStep(c, s, e))
  {
    hide AfterFlush;
    forall t | 0 <= t < |s.threads|
      ensures s.threads[t] in s.threads
    {}
  }

  lemma CloserStepEmpties<T>(c: Config<T>, s: State<T>, e: Event<T>)
    requires AreEmptied(s) && Exclusive(s) && e.IsClosers() && CloserEnabled(c, s, e)
    ensures AreEmptied(CloserStep(c, s, e))
  {
    hide Registered;
    if e.CloseDispatch? {
      var batches := s.closer.batches;
      RegisteredChanges(c, s.(closer := CloseFlushing(s.closer.next, batches[1..])), batches[0], true);
    }
  }

  lemma CloserStepFinishes<T>(c: Config<T>, s: State<T>, e: Event<T>)
    requires IsFinished(s) && e.IsClosers() && CloserEnabled(c, s, e)
    ensures IsFinished(CloserStep(c, s, e))
  {
    hide Registered, AfterFlush;
    forall w | 0 <= w < |s.workers|
      ensures s.workers[w] in s.workers
    {}
    if e.CloseDispatch? {
      var batches := s.closer.batches;
      RegisteredChanges(c, s.(closer := CloseFlushing(s.closer.next, batches[1..])), batches[0], true);
    }
  }

  lemma CloserStepKeeps<T>(c: Config<T>, s: State<T>, e: Event<T>)
    requires Inv(c, s) && e.IsClosers() && CloserEnabled(c, s, e)
    ensures Inv(c, CloserStep(c, s, e))
  {
    hide CloserStep, CloserEnabled, AreProper, AreSlotted, AreEmptied, IsFinished, Exclusive;
    CloserStepIsExclusive(c, s, e);
    CloserStepWorkers(c, s, e);
    CloserStepEmpties(c, s, e);
    CloserStepFinishes(c, s, e);
  }

  predicate ChangesOnly<T>(s: State<T>, w: nat, s': State<T>) {
    && s'.threads == s.threads && s'.batchers == s.batchers && s'.closing == s.closing && s'.closer == s.closer
    && |s'.workers| == |s.workers| && w < |s.workers| && s'.workers == s.workers[w := s'.workers[w]]
  }

  lemma SettledChanges<T>(s: State<T>, w: nat, success: bool)
    requires w < |s.workers|
    ensures ChangesOnly(s, w, Settled(s, w, success)) && Settled(s, w, success).slots == s.slots
  {}

  lemma RecheckChanges<T>(c: Config<T>, s: State<T>, w: nat)
    requires WorkerEnabled(c, s, Event<T>.Recheck(w))
    ensures var s' := WorkerStep(c, s, Event<T>.Recheck(w)); ChangesOnly(s, w, s') && s'.slots == s.slots
  {
    var worker := s.workers[w];
    SettledChanges(s.(workers := s.workers[w := worker.(rejects := worker.rejects + 1)]), w, false);
    hide Settled;
  }

  lemma WorkerStepChanges<T>(c: Config<T>, s: State<T>, e: Event<T>)
    requires e.IsWorkers() && WorkerEnabled(c, s, e)
    ensures var s' := WorkerStep(c, s, e);
      && ChangesOnly(s, e.w, s')
      && s'.slots == (if e.Acquire? then s.slots + {e.w} else if e.Exit? then s.slots - {e.w} else s.slots)
  {
    if e.Recheck? {
      RecheckChanges(c, s, e.w);
      hide WorkerStep, WorkerEnabled;
    } else {
      SettledChanges(s, e.w, true);
      SettledChanges(s, e.w, false);
      hide Settled;
    }
  }

  predicate IsSound<T>(c: Config<T>, s: State<T>, w: nat) {
    w < |s.workers| && IsProper(c, s.closing, s.workers[w]) && HasSlot(s.workers[w].phase, w in s.slots)
  }

  lemma SettledIsSound<T>(c: Config<T>, s: State<T>, w: nat, success: bool)
    requires IsSound(c, s, w) && s.workers[w].IsSending()
    ensures IsSound(c, Settled(s, w, success), w)
  {}

  lemma SlotStepIsSound<T>(c: Config<T>, s: State<T>, e: Event<T>)
    requires (e.Acquire? || e.WakeUp? || e.Recheck? || e.Begin? || e.Exit?) && WorkerEnabled(c, s, e) && IsSound(c, s, e.w)
    ensures IsSound(c, WorkerStep(c, s, e), e.w)
  {}

  lemma WorkerStepIsSound<T>(c: Config<T>, s: State<T>, e: Event<T>)
    requires e.IsWorkers() && WorkerEnabled(c, s, e) && IsSound(c, s, e.w)
    ensures IsSound(c, WorkerStep(c, s, e), e.w) && !s.workers[e.w].phase.Exited?
  {
    if e.Acquire? || e.WakeUp? || e.Recheck? || e.Begin? || e.Exit? {
      SlotStepIsSound(c, s, e);
      hide WorkerStep, IsProper, HasSlot;
    } else {
      SettledIsSound(c, s, e.w, true);
      SettledIsSound(c, s, e.w, false);
      hide Settled;
    }
  }

  lemma WorkerStepKeeps<T>(c: Config<T>, s: State<T>, e: Event<T>)
    requires Inv(c, s) && e.IsWorkers() && WorkerEnabled(c, s, e)
    ensures Inv(c, WorkerStep(c, s, e))
  {
    assert e.Acquire? ==> |s.slots| < c.capacity;
    WorkerStepChanges(c, s, e);
    WorkerStepIsSound(c, s, e);
    hide WorkerStep, WorkerEnabled, IsProper, HasSlot;
    var s' := WorkerStep(c, s, e);
    AreSlottedAfter(c, s, e, s');
    hide AreSlotted;
    AreProperAfter(c, s, e.w, s');
    hide AreProper;
  }

  lemma AreProperAfter<T>(c: Config<T>, s: State<T>, w: nat, s': State<T>)
    requires AreProper(c, s) && ChangesOnly(s, w, s') && IsProper(c, s.closing, s'.workers[w])
    ensures AreProper(c, s')
  {
    hide IsProper;
  }

  lemma AreSlottedAfter<T>(c: Config<T>, s: State<T>, e: Event<T>, s': State<T>)
    requires AreSlotted(c, s) && e.IsWorkers() && ChangesOnly(s, e.w, s') && (e.Acquire? ==> |s.slots| < c.capacity)
    requires s'.slots == (if e.Acquire? then s.slots + {e.w} else if e.Exit? then s.slots - {e.w} else s.slots)
    requires HasSlot(s'.workers[e.w].phase, e.w in s'.slots)
    ensures AreSlotted(c, s')
  {
    hide HasSlot;
    forall w | 0 <= w < |s'.workers|
      ensures HasSlot(s'.workers[w].phase, w in s'.slots)
    {
      if w != e.w {
        assert s'.workers[w] == s.workers[w] && (w in s'.slots <==> w in s.slots);
      }
    }
  }

  lemma InvStep<T>(c: Config<T>, s: State<T>, e: Event<T>)
    requires Inv(c, s) && Enabled(c, s, e)
    ensures Inv(c, Apply(c, s, e))
  {
    hide Inv, ThreadStep, CloserStep, WorkerStep, ThreadEnabled, CloserEnabled, WorkerEnabled;
    if e.IsThreads() {
      ThreadStepKeeps(c, s, e);
    } else if e.IsClosers() {
      CloserStepKeeps(c, s, e);
    } else {
      WorkerStepKeeps(c, s, e);
    }
  }

  lemma {:induction false} InvRun<T>(c: Config<T>, s: State<T>, es: seq<Event<T>>)
    requires Inv(c, s) && IsRun(c, s, es)
    ensures Inv(c, After(c, s, es))
    decreases |es|
  {
    hide Inv, Apply, Enabled;
    if es != [] {
      InvStep(c, s, es[0]);
      InvRun(c, Apply(c, s, es[0]), es[1..]);
    }
  }
}
