/** The guarantees of a sender over its whole runs. */
module SenderRuns {
  import opened Batches
  import opened Batching
  import opened Gathering
  import opened SenderLifecycle
  import opened SenderOutcomes
  import opened SenderRetries
  import opened SenderSteps

  // ---- Exactly one outcome for each item.

  ghost predicate AllGone<T>(s: State<T>) {
    forall t :: 0 <= t < |s.threads| ==> s.threads[t].Gone?
  }

  /** When closing is done, nothing is left in a batcher, a worker, or in the hands of a call that was admitted:
      only calls that aren't rejected yet hold items. */
  lemma DoneHoldsNothing<T>(c: Config<T>, s: State<T>, x: T)
    requires Inv(c, s) && s.closer.Done?
    ensures Held(s, x) == Gather(ThreadItems<T>, s.threads, x)
    ensures forall t :: 0 <= t < |s.threads| ==> !s.threads[t].IsAdmitted()
    ensures AllGone(s) ==> Held(s, x) == 0
  {
    GatherNothing(PendingItems<T>, s.batchers, x);
    GatherNothing(WorkerItems<T>, s.workers, x);
    CountNothing(x);
    if AllGone(s) {
      GatherNothing(ThreadItems<T>, s.threads, x);
    }
    hide Gather, Count;
  }

  /** In every run, an item has exactly as many outcomes as the times it was given: each time it was either delivered,
      or diverted by one call of the fallback, or dropped because it's unusable; or else it's still held.
      It isn't held anymore when closing is done, and the calls which it interrupted have returned. */
  lemma ExactlyOneOutcome<T>(c: Config<T>, batchers: nat, es: seq<Event<T>>, x: T)
    requires IsRun(c, Start(batchers), es)
    ensures var s := After(c, Start(batchers), es);
      && s.given[x] == s.delivered[x] + s.diverted[x] + s.dropped[x] + Held(s, x)
      && (s.closer.Done? ==> Held(s, x) == Gather(ThreadItems<T>, s.threads, x))
      && (s.closer.Done? && AllGone(s) ==> s.given[x] == s.delivered[x] + s.diverted[x] + s.dropped[x])
  {
    BalancedStart(c, batchers, x);
    BalancedRun(c, Start(batchers), es, x);
    InvAtStart(c, batchers);
    InvRun(c, Start(batchers), es);
    var s := After(c, Start(batchers), es);
    hide After, IsRun, Inv, Held, PassThrough, AllGone;
    if s.closer.Done? {
      DoneHoldsNothing(c, s, x);
    }
  }

  /** Usable items are never dropped. */
  lemma {:induction false} UsableItemsAreNotDropped<T>(c: Config<T>, s: State<T>, es: seq<Event<T>>, x: T)
    requires IsRun(c, s, es) && c.usable(x)
    ensures After(c, s, es).dropped[x] == s.dropped[x]
    decreases |es|
  {
    hide Apply, Enabled;
    if es != [] {
      DroppedByRelayOnly(c, s, es[0], x);
      UsableItemsAreNotDropped(c, Apply(c, s, es[0]), es[1..], x);
    }
  }

  lemma DroppedByRelayOnly<T>(c: Config<T>, s: State<T>, e: Event<T>, x: T)
    requires Enabled(c, s, e) && c.usable(x)
    ensures Apply(c, s, e).dropped[x] == s.dropped[x]
  {
    hide AfterAdd;
    if e.IsWorkers() {
      WorkerStepDropsNothing(c, s, e);
    }
    hide WorkerStep, WorkerEnabled;
  }

  lemma WorkerStepDropsNothing<T>(c: Config<T>, s: State<T>, e: Event<T>)
    requires e.IsWorkers() && WorkerEnabled(c, s, e)
    ensures WorkerStep(c, s, e).dropped == s.dropped
  {}

  // ---- Admission.

  /** Closing never begins while an admitted caller is still registering work. */
  lemma SignalExcludesAdmission<T>(c: Config<T>, batchers: nat, es: seq<Event<T>>)
    requires IsRun(c, Start(batchers), es) && Enabled(c, After(c, Start(batchers), es), Event<T>.Signal)
    ensures var s := After(c, Start(batchers), es);
      forall t :: 0 <= t < |s.threads| ==> !s.threads[t].IsReader()
  {
    InvAtStart(c, batchers);
    InvRun(c, Start(batchers), es);
  }

  lemma WorkersAfterStep<T>(c: Config<T>, s: State<T>, e: Event<T>)
    requires Inv(c, s) && Enabled(c, s, e) && (s.closer.CloseWaiting? || s.closer.Done?)
    ensures var s' := Apply(c, s, e); |s'.workers| == |s.workers| && (s'.closer.CloseWaiting? || s'.closer.Done?)
  {
    if e.IsThreads() {
      ThreadStepWorkers(c, s, e);
    } else if e.IsWorkers() {
      WorkerStepChanges(c, s, e);
    }
    hide ThreadStep, WorkerStep, ThreadEnabled, WorkerEnabled, AreProper, AreSlotted;
  }

  /** No worker is registered after closing starts to wait for the workers. */
  lemma {:induction false} NoWorkAfterWaiting<T>(c: Config<T>, s: State<T>, es: seq<Event<T>>)
    requires Inv(c, s) && IsRun(c, s, es) && (s.closer.CloseWaiting? || s.closer.Done?)
    ensures |After(c, s, es).workers| == |s.workers|
    decreases |es|
  {
    hide Inv, Apply, Enabled;
    if es != [] {
      WorkersAfterStep(c, s, es[0]);
      InvStep(c, s, es[0]);
      NoWorkAfterWaiting(c, Apply(c, s, es[0]), es[1..]);
    }
  }

  // ---- Slots and attempts.

  lemma SubsetIsSmaller(a: set<nat>, b: set<nat>)
    requires a <= b
    ensures |a| <= |b|
  {
    assert b == a + (b - a);
  }

  /** At any moment, the number of workers that are sending doesn't exceed the number of slots. Each worker that ended
      has run either the sending function or the rejecting one, once, and within the limit on attempts. */
  lemma SlotsAreRespected<T>(c: Config<T>, batchers: nat, es: seq<Event<T>>, sending: set<nat>)
    requires IsRun(c, Start(batchers), es)
    requires var s := After(c, Start(batchers), es);
      forall w :: w in sending ==> w < |s.workers| && s.workers[w].IsSending()
    ensures |sending| <= c.capacity
    ensures var s := After(c, Start(batchers), es);
      forall w :: 0 <= w < |s.workers| && s.workers[w].phase.Exited? ==>
        s.workers[w].sends + s.workers[w].rejects == 1 && s.workers[w].attempts <= c.maxAttempts
  {
    InvAtStart(c, batchers);
    InvRun(c, Start(batchers), es);
    var s := After(c, Start(batchers), es);
    hide After, IsRun;
    forall w | w in sending
      ensures w in s.slots
    {
      assert HasSlot(s.workers[w].phase, w in s.slots);
    }
    SubsetIsSmaller(sending, s.slots);
    forall w | 0 <= w < |s.workers|
      ensures IsProper(c, s.closing, s.workers[w])
    {}
    hide HasSlot;
  }

  /** How many attempts a worker may still begin after closing began. */
  function Budget<T>(w: Worker<T>): nat {
    match w.phase
    case Ready => 1
    case Preparing => 1
    case Looping(i) => if i == 0 then 1 else 0
    case Checked(_) => 1
    case _ => 0
  }

  function Spent<T>(s: State<T>, w: nat): nat {
    if w < |s.workers| then s.workers[w].attempts + Budget(s.workers[w]) else 1
  }

  predicate IsWaiting<T>(w: Worker<T>) {
    w.phase.Waiting? || w.phase.Woken?
  }

  /** A worker that was still waiting when closing began, or was rejected because of that. */
  predicate NeverSent<T>(s: State<T>, w: nat) {
    && w < |s.workers| && s.workers[w].sends == s.workers[w].attempts == 0
    && (IsWaiting(s.workers[w]) || s.workers[w].phase.Leaving? || s.workers[w].phase.Exited?)
  }

  predicate SpendsNoMore<T>(s: State<T>, s': State<T>, w: nat) {
    Spent(s', w) <= Spent(s, w) && (NeverSent(s, w) ==> NeverSent(s', w))
  }

  lemma SettledSpendsNothing<T>(s: State<T>, w: nat, success: bool)
    requires w < |s.workers| && s.workers[w].IsSending()
    ensures SpendsNoMore(s, Settled(s, w, success), w)
  {}

  lemma ClosingSlotStep<T>(c: Config<T>, s: State<T>, e: Event<T>)
    requires s.closing && (e.Acquire? || e.WakeUp? || e.Recheck? || e.Begin? || e.Exit?) && WorkerEnabled(c, s, e)
    ensures SpendsNoMore(s, WorkerStep(c, s, e), e.w)
  {}

  lemma ClosingSendStep<T>(c: Config<T>, s: State<T>, e: Event<T>)
    requires s.closing && (e.Prepare? || e.CheckLoop? || e.Attempt? || e.Answer?) && WorkerEnabled(c, s, e)
    ensures SpendsNoMore(s, WorkerStep(c, s, e), e.w)
  {
    SettledSpendsNothing(s, e.w, true);
    SettledSpendsNothing(s, e.w, false);
    hide Settled;
  }

  lemma ClosingCloserStep<T>(c: Config<T>, s: State<T>, e: Event<T>, w: nat)
    requires s.closing && e.IsClosers() && CloserEnabled(c, s, e)
    ensures CloserStep(c, s, e).closing && Spent(CloserStep(c, s, e), w) <= Spent(s, w)
    ensures NeverSent(s, w) ==> NeverSent(CloserStep(c, s, e), w)
  {
    if e.CloseDispatch? {
      var batches := s.closer.batches;
      var middle := s.(closer := CloseFlushing(s.closer.next, batches[1..]));
      RegisteredChanges(c, middle, batches[0], true);
      var s' := Registered(c, middle, batches[0], true);
      assert w < |s.workers| ==> s'.workers[w] == s'.workers[..|s.workers|][w];
      hide Registered;
    }
  }

  lemma ClosingStep<T>(c: Config<T>, s: State<T>, e: Event<T>, w: nat)
    requires Inv(c, s) && s.closing && Enabled(c, s, e)
    ensures Apply(c, s, e).closing && Spent(Apply(c, s, e), w) <= Spent(s, w)
    ensures NeverSent(s, w) ==> NeverSent(Apply(c, s, e), w)
  {
    hide ThreadStep, WorkerStep, CloserStep, ThreadEnabled, WorkerEnabled, CloserEnabled, Inv, Budget;
    if e.IsThreads() {
      ThreadStepWorkers(c, s, e);
    } else if e.IsWorkers() {
      WorkerStepChanges(c, s, e);
      if e.Prepare? || e.CheckLoop? || e.Attempt? || e.Answer? {
        ClosingSendStep(c, s, e);
      } else {
        ClosingSlotStep(c, s, e);
      }
    } else {
      ClosingCloserStep(c, s, e, w);
    }
  }

  lemma {:induction false} ClosingRun<T>(c: Config<T>, s: State<T>, es: seq<Event<T>>, w: nat)
    requires Inv(c, s) && s.closing && IsRun(c, s, es)
    ensures Spent(After(c, s, es), w) <= Spent(s, w)
    ensures NeverSent(s, w) ==> NeverSent(After(c, s, es), w)
    decreases |es|
  {
    hide Inv, Apply, Enabled, Spent, NeverSent;
    if es != [] {
      ClosingStep(c, s, es[0], w);
      InvStep(c, s, es[0]);
      ClosingRun(c, Apply(c, s, es[0]), es[1..], w);
    }
  }

  /** After closing began, each worker begins at most one more attempt, and one which was registered only after that
      begins at most one attempt at all. Those who were still waiting for a slot never send anything. */
  lemma ClosingAllowsOneMoreAttempt<T>(c: Config<T>, batchers: nat, es: seq<Event<T>>, more: seq<Event<T>>, w: nat)
    requires IsRun(c, Start(batchers), es)
    requires var s := After(c, Start(batchers), es); s.closing && IsRun(c, s, more)
    ensures var s := After(c, Start(batchers), es);
      var s' := After(c, s, more);
      w < |s'.workers| ==>
        var before := if w < |s.workers| then s.workers[w].attempts else 0;
        && s'.workers[w].attempts <= before + 1
        && (w < |s.workers| && IsWaiting(s.workers[w]) ==> s'.workers[w].sends == s'.workers[w].attempts == 0)
  {
    InvAtStart(c, batchers);
    InvRun(c, Start(batchers), es);
    var s := After(c, Start(batchers), es);
    ClosingRun(c, s, more, w);
    hide After, IsRun;
    assert w < |s.workers| ==> IsProper(c, s.closing, s.workers[w]);
  }

  // ---- Which outcome it is.

  lemma WorkerStepDelivers<T>(c: Config<T>, s: State<T>, e: Event<T>)
    requires e.IsWorkers() && WorkerEnabled(c, s, e)
    ensures WorkerStep(c, s, e).delivered == if e.Answer? && e.answer.IsSuccess()
      then s.delivered + multiset(s.workers[e.w].payload) else s.delivered
  {
    if e.Recheck? {
      RecheckDelivers(c, s, e.w);
      hide WorkerStep;
    }
  }

  lemma RecheckDelivers<T>(c: Config<T>, s: State<T>, w: nat)
    requires WorkerEnabled(c, s, Event<T>.Recheck(w))
    ensures WorkerStep(c, s, Event<T>.Recheck(w)).delivered == s.delivered
  {}

  lemma StepDelivers<T>(c: Config<T>, s: State<T>, e: Event<T>)
    requires Enabled(c, s, e)
    ensures Apply(c, s, e).delivered == if e.Answer? && e.answer.IsSuccess()
      then s.delivered + multiset(s.workers[e.w].payload) else s.delivered
  {
    hide AfterAdd, AfterTimedFlush;
    if e.IsWorkers() {
      WorkerStepDelivers(c, s, e);
    }
    hide WorkerStep, WorkerEnabled;
  }

  /** The payloads of all the successful answers of a run. */
  ghost function Successes<T>(c: Config<T>, s: State<T>, es: seq<Event<T>>): multiset<T>
    requires IsRun(c, s, es)
    decreases |es|
  {
    if es == [] then multiset{}
    else
      (if es[0].Answer? && es[0].answer.IsSuccess() then multiset(s.workers[es[0].w].payload) else multiset{})
      + Successes(c, Apply(c, s, es[0]), es[1..])
  }

  /** Items count as delivered if and only if a successful answer was received for their payload. */
  lemma {:induction false} DeliveredIsSuccessful<T>(c: Config<T>, s: State<T>, es: seq<Event<T>>)
    requires IsRun(c, s, es)
    ensures After(c, s, es).delivered == s.delivered + Successes(c, s, es)
    decreases |es|
  {
    hide Apply;
    if es != [] {
      StepDelivers(c, s, es[0]);
      hide Enabled;
      DeliveredIsSuccessful(c, Apply(c, s, es[0]), es[1..]);
    }
  }

  /** A run in which all the payloads can be encoded, all the attempts succeed, and closing doesn't begin. */
  ghost predicate IsHealthy<T>(es: seq<Event<T>>) {
    forall e :: e in es ==> (e.Answer? ==> e.answer.IsSuccess()) && (e.Prepare? ==> e.encoded) && !e.Signal?
  }

  ghost predicate AreFirstAttempts<T>(s: State<T>) {
    !s.closing && forall w :: 0 <= w < |s.workers| && s.workers[w].phase.Looping? ==> s.workers[w].phase.attempt == 0
  }

  lemma HealthyWorkerStep<T>(c: Config<T>, s: State<T>, e: Event<T>)
    requires AreFirstAttempts(s) && e.IsWorkers() && WorkerEnabled(c, s, e) && c.maxAttempts > 0
    requires (e.Answer? ==> e.answer.IsSuccess()) && (e.Prepare? ==> e.encoded)
    ensures var s' := WorkerStep(c, s, e); AreFirstAttempts(s') && s'.diverted == s.diverted
  {}

  lemma HealthyStep<T>(c: Config<T>, s: State<T>, e: Event<T>)
    requires AreFirstAttempts(s) && Enabled(c, s, e) && c.maxAttempts > 0
    requires (e.Answer? ==> e.answer.IsSuccess()) && (e.Prepare? ==> e.encoded) && !e.Signal?
    ensures var s' := Apply(c, s, e); AreFirstAttempts(s') && s'.diverted == s.diverted
  {
    if e.IsWorkers() {
      hide WorkerStep, WorkerEnabled, AreFirstAttempts;
      HealthyWorkerStep(c, s, e);
    } else if e.IsThreads() {
      hide ThreadStep, ThreadEnabled, AreFirstAttempts;
      HealthyThreadStep(c, s, e);
    } else {
      hide ThreadStep, ThreadEnabled, WorkerStep, WorkerEnabled;
    }
  }

  lemma HealthyThreadStep<T>(c: Config<T>, s: State<T>, e: Event<T>)
    requires AreFirstAttempts(s) && e.IsThreads() && ThreadEnabled(c, s, e) && c.maxAttempts > 0
    ensures var s' := ThreadStep(c, s, e); AreFirstAttempts(s') && s'.diverted == s.diverted
  {
    hide AfterAdd, AfterTimedFlush, Registered;
    if e.Relay? {
      RegisteredIsHealthy(c, Become(s, e.t, Relaying(s.threads[e.t].items[1..])), [s.threads[e.t].items[0]], false);
    } else if e.Dispatch? {
      RegisteredIsHealthy(c, Become(s, e.t, Dispatching(s.threads[e.t].batches[1..])), s.threads[e.t].batches[0], true);
    }
  }

  lemma RegisteredIsHealthy<T>(c: Config<T>, s: State<T>, payload: seq<T>, structured: bool)
    requires AreFirstAttempts(s)
    ensures var s' := Registered(c, s, payload, structured); AreFirstAttempts(s') && s'.diverted == s.diverted
  {}

  /** Nothing is diverted without a reason. */
  lemma {:induction false} HealthyRunsDivertNothing<T>(c: Config<T>, s: State<T>, es: seq<Event<T>>)
    requires AreFirstAttempts(s) && IsRun(c, s, es) && IsHealthy(es) && c.maxAttempts > 0
    ensures After(c, s, es).diverted == s.diverted
    decreases |es|
  {
    hide Apply, Enabled, AreFirstAttempts;
    if es != [] {
      assert es[0] in es && forall e :: e in es[1..] ==> e in es;
      HealthyStep(c, s, es[0]);
      HealthyRunsDivertNothing(c, Apply(c, s, es[0]), es[1..]);
    }
  }
}
