/** Why each payload of a sender ends as it does: what the answers to its attempts were, in whole runs. */
module SenderAnswers {
  import opened Batches
  import opened Batching
  import opened SenderLifecycle
  import opened SenderRetries
  import opened SenderSteps

  /** The answers to a worker's attempts, in their order. */
  function AnswersOf<T>(es: seq<Event<T>>, w: nat): seq<Answer>
    decreases |es|
  {
    if es == [] then []
    else (if es[0].Answer? && es[0].w == w then [es[0].answer] else []) + AnswersOf(es[1..], w)
  }

  /** Whether the encoding of a worker's payload failed. */
  predicate FailedToEncode<T>(es: seq<Event<T>>, w: nat)
    decreases |es|
  {
    es != [] && (es[0] == Event<T>.Prepare(w, false) || FailedToEncode(es[1..], w))
  }

  ghost predicate AreWorthRetry(answers: seq<Answer>) {
    forall i :: 0 <= i < |answers| ==> IsWorthRetry(answers[i])
  }

  /** Why a worker which began to send gave up, after the given answers. */
  ghost predicate HasReason<T>(c: Config<T>, closing: bool, structured: bool, answers: seq<Answer>, failed: bool) {
    || (answers == [] && ((structured && failed) || c.maxAttempts == 0))
    || (answers != [] && (!IsWorthRetry(answers[|answers| - 1]) || |answers| == c.maxAttempts || closing))
  }

  /** What a worker's phase means, in terms of the answers so far, and of whether its payload failed to be encoded. */
  ghost predicate Agrees<T>(c: Config<T>, closing: bool, w: Worker<T>, answers: seq<Answer>, failed: bool) {
    match w.phase
    case Waiting => answers == [] && !failed
    case Woken(_) => answers == [] && !failed
    case Ready => answers == [] && !failed
    case Preparing => answers == [] && !failed
    case Looping(i) => |answers| == i && AreWorthRetry(answers) && (w.structured ==> !failed)
    case Checked(i) => |answers| == i && AreWorthRetry(answers) && (w.structured ==> !failed)
    case Attempting(i) => |answers| == i && AreWorthRetry(answers) && (w.structured ==> !failed)
    case _ =>
      if w.sends == 0 then answers == [] && !failed && closing
      else
        && HasReason(c, closing, w.structured, answers, failed) && |answers| == w.attempts
        && (answers != [] ==> AreWorthRetry(answers[..|answers| - 1]))
  }

  ghost predicate AgreesAt<T>(c: Config<T>, s: State<T>, w: nat, answers: seq<Answer>, failed: bool) {
    if w < |s.workers| then Agrees(c, s.closing, s.workers[w], answers, failed) else answers == [] && !failed
  }

  // ---- Each step agrees with the answers.

  /** All the events except for those of workers register at most one worker, and change none. */
  ghost predicate AtMostRegisters<T>(c: Config<T>, s: State<T>, s': State<T>) {
    && (s.closing ==> s'.closing)
    && |s.workers| <= |s'.workers| <= |s.workers| + 1 && s'.workers[..|s.workers|] == s.workers
    && (|s'.workers| > |s.workers| ==>
          var w := s'.workers[|s.workers|];
          w.sends == w.rejects == w.attempts == 0 && w.phase == if |s.slots| < c.capacity then Ready else Waiting)
  }

  lemma RegisteredRegisters<T>(c: Config<T>, s: State<T>, payload: seq<T>, structured: bool)
    ensures AtMostRegisters(c, s, Registered(c, s, payload, structured))
  {}

  lemma CheckRegistersNothing<T>(c: Config<T>, s: State<T>, e: Event<T>)
    requires (e.CheckFirst? || e.CheckAgain?) && ThreadEnabled(c, s, e)
    ensures ThreadStep(c, s, e).workers == s.workers && ThreadStep(c, s, e).closing == s.closing
  {
    hide AfterAdd, AfterTimedFlush, Registered;
  }

  lemma ThreadStepRegisters<T>(c: Config<T>, s: State<T>, e: Event<T>)
    requires e.IsThreads() && ThreadEnabled(c, s, e)
    ensures AtMostRegisters(c, s, ThreadStep(c, s, e))
  {
    hide AfterAdd, AfterTimedFlush, Registered, Rejected;
    if e.Relay? {
      RegisteredRegisters(c, Become(s, e.t, Relaying(s.threads[e.t].items[1..])), [s.threads[e.t].items[0]], false);
    } else if e.Dispatch? {
      RegisteredRegisters(c, Become(s, e.t, Dispatching(s.threads[e.t].batches[1..])), s.threads[e.t].batches[0], true);
    } else if e.CheckFirst? || e.CheckAgain? {
      CheckRegistersNothing(c, s, e);
      hide ThreadStep;
    }
  }

  lemma CloserStepRegisters<T>(c: Config<T>, s: State<T>, e: Event<T>)
    requires e.IsClosers() && CloserEnabled(c, s, e)
    ensures AtMostRegisters(c, s, CloserStep(c, s, e))
  {
    hide AfterFlush, Registered;
    if e.CloseDispatch? {
      var batches := s.closer.batches;
      RegisteredRegisters(c, s.(closer := CloseFlushing(s.closer.next, batches[1..])), batches[0], true);
    }
  }

  function NewAnswer<T>(e: Event<T>, w: nat): seq<Answer> {
    if e.Answer? && e.w == w then [e.answer] else []
  }

  predicate FailsToEncode<T>(e: Event<T>, w: nat) {
    e == Event<T>.Prepare(w, false)
  }

  lemma SlotStepAgrees<T>(c: Config<T>, s: State<T>, e: Event<T>, answers: seq<Answer>, failed: bool)
    requires (e.Acquire? || e.WakeUp? || e.Recheck? || e.Begin? || e.Exit?) && WorkerEnabled(c, s, e)
    requires AgreesAt(c, s, e.w, answers, failed) && IsProper(c, s.closing, s.workers[e.w])
    ensures AgreesAt(c, WorkerStep(c, s, e), e.w, answers, failed)
  {
    hide HasReason, AreWorthRetry;
  }

  lemma SettledAgrees<T>(c: Config<T>, s: State<T>, w: nat, success: bool, answers: seq<Answer>, failed: bool)
    requires w < |s.workers| && s.workers[w].sends > 0 && |answers| == s.workers[w].attempts
    requires HasReason(c, s.closing, s.workers[w].structured, answers, failed)
    requires answers != [] ==> AreWorthRetry(answers[..|answers| - 1])
    ensures AgreesAt(c, Settled(s, w, success), w, answers, failed)
  {
    hide HasReason, AreWorthRetry;
  }

  lemma PrepareAgrees<T>(c: Config<T>, s: State<T>, e: Event<T>, answers: seq<Answer>, failed: bool)
    requires e.Prepare? && WorkerEnabled(c, s, e)
    requires AgreesAt(c, s, e.w, answers, failed) && IsProper(c, s.closing, s.workers[e.w])
    ensures AgreesAt(c, WorkerStep(c, s, e), e.w, answers, failed || FailsToEncode(e, e.w))
  {
    if s.workers[e.w].structured && !e.encoded {
      SettledAgrees(c, s, e.w, false, answers, true);
    }
    hide Settled, HasReason;
  }

  lemma CheckLoopAgrees<T>(c: Config<T>, s: State<T>, e: Event<T>, answers: seq<Answer>, failed: bool)
    requires e.CheckLoop? && WorkerEnabled(c, s, e)
    requires AgreesAt(c, s, e.w, answers, failed) && IsProper(c, s.closing, s.workers[e.w])
    ensures AgreesAt(c, WorkerStep(c, s, e), e.w, answers, failed)
  {
    hide AreWorthRetry;
    if |answers| >= c.maxAttempts || (|answers| > 0 && s.closing) {
      MostAreWorthRetry(answers);
      SettledAgrees(c, s, e.w, false, answers, failed);
    }
    hide Settled, HasReason;
  }

  lemma MostAreWorthRetry(answers: seq<Answer>)
    requires AreWorthRetry(answers)
    ensures answers != [] ==> AreWorthRetry(answers[..|answers| - 1])
  {}

  lemma AttemptAgrees<T>(c: Config<T>, s: State<T>, e: Event<T>, answers: seq<Answer>, failed: bool)
    requires e.Attempt? && WorkerEnabled(c, s, e) && AgreesAt(c, s, e.w, answers, failed)
    ensures AgreesAt(c, WorkerStep(c, s, e), e.w, answers, failed)
  {
    hide HasReason, AreWorthRetry;
  }

  lemma AnswerAgrees<T>(c: Config<T>, s: State<T>, e: Event<T>, answers: seq<Answer>, failed: bool)
    requires e.Answer? && WorkerEnabled(c, s, e)
    requires AgreesAt(c, s, e.w, answers, failed) && IsProper(c, s.closing, s.workers[e.w])
    ensures AgreesAt(c, WorkerStep(c, s, e), e.w, answers + [e.answer], failed)
  {
    RetryMeansWorth(e.answer);
    var now := answers + [e.answer];
    assert now[..|now| - 1] == answers;
    if !IsWorthRetry(e.answer) {
      SettledAgrees(c, s, e.w, e.answer.IsSuccess(), now, failed);
    }
    hide Settled, IsWorthRetry;
  }

  lemma WorkerStepAgrees<T>(c: Config<T>, s: State<T>, e: Event<T>, w: nat, answers: seq<Answer>, failed: bool)
    requires e.IsWorkers() && WorkerEnabled(c, s, e) && AreProper(c, s) && AgreesAt(c, s, w, answers, failed)
    ensures AgreesAt(c, WorkerStep(c, s, e), w, answers + NewAnswer(e, w), failed || FailsToEncode(e, w))
  {
    assert answers + [] == answers;
    WorkerStepChanges(c, s, e);
    if e.w == w {
      if e.Answer? {
        AnswerAgrees(c, s, e, answers, failed);
      } else if e.Prepare? {
        PrepareAgrees(c, s, e, answers, failed);
      } else if e.CheckLoop? {
        CheckLoopAgrees(c, s, e, answers, failed);
      } else if e.Attempt? {
        AttemptAgrees(c, s, e, answers, failed);
      } else {
        SlotStepAgrees(c, s, e, answers, failed);
      }
    }
    hide WorkerStep, WorkerEnabled, Agrees, IsProper;
  }

  lemma OtherStepAgrees<T>(c: Config<T>, s: State<T>, s': State<T>, w: nat, answers: seq<Answer>, failed: bool)
    requires AtMostRegisters(c, s, s') && AgreesAt(c, s, w, answers, failed)
    ensures AgreesAt(c, s', w, answers, failed)
  {
    hide AreWorthRetry;
    assert w < |s.workers| ==> s'.workers[w] == s'.workers[..|s.workers|][w];
  }

  lemma StepAgrees<T>(c: Config<T>, s: State<T>, e: Event<T>, w: nat, answers: seq<Answer>, failed: bool)
    requires Enabled(c, s, e) && Inv(c, s) && AgreesAt(c, s, w, answers, failed)
    ensures AgreesAt(c, Apply(c, s, e), w, answers + NewAnswer(e, w), failed || FailsToEncode(e, w))
  {
    hide WorkerStep, WorkerEnabled, ThreadStep, ThreadEnabled, CloserStep, CloserEnabled, AgreesAt, AtMostRegisters;
    if e.IsWorkers() {
      WorkerStepAgrees(c, s, e, w, answers, failed);
    } else {
      assert answers + [] == answers;
      if e.IsThreads() {
        ThreadStepRegisters(c, s, e);
      } else {
        CloserStepRegisters(c, s, e);
      }
      OtherStepAgrees(c, s, Apply(c, s, e), w, answers, failed);
    }
  }

  lemma {:induction false} RunAgrees<T>(
    c: Config<T>, s: State<T>, es: seq<Event<T>>, w: nat, answers: seq<Answer>, failed: bool)
    requires IsRun(c, s, es) && Inv(c, s) && AgreesAt(c, s, w, answers, failed)
    ensures AgreesAt(c, After(c, s, es), w, answers + AnswersOf(es, w), failed || FailedToEncode(es, w))
    decreases |es|
  {
    hide Apply, Enabled, Inv, AgreesAt;
    if es == [] {
      assert answers + [] == answers;
    } else {
      StepAgrees(c, s, es[0], w, answers, failed);
      InvStep(c, s, es[0]);
      var now := answers + NewAnswer(es[0], w);
      assert answers + AnswersOf(es, w) == now + AnswersOf(es[1..], w);
      RunAgrees(c, Apply(c, s, es[0]), es[1..], w, now, failed || FailsToEncode(es[0], w));
    }
  }

  // ---- The reasons, in every run.

  lemma AgreesFromStart<T>(c: Config<T>, batchers: nat, es: seq<Event<T>>, w: nat)
    requires IsRun(c, Start(batchers), es)
    ensures var s := After(c, Start(batchers), es);
      Inv(c, s) && AgreesAt(c, s, w, AnswersOf(es, w), FailedToEncode(es, w))
  {
    hide IsRun, After, Inv;
    InvAtStart(c, batchers);
    InvRun(c, Start(batchers), es);
    RunAgrees(c, Start(batchers), es, w, [], false);
    assert [] + AnswersOf(es, w) == AnswersOf(es, w);
  }

  lemma AgreementDecides<T>(c: Config<T>, closing: bool, worker: Worker<T>, answers: seq<Answer>, failed: bool)
    requires IsProper(c, closing, worker) && Agrees(c, closing, worker, answers, failed)
    ensures |answers| <= worker.attempts <= c.maxAttempts && worker.attempts <= |answers| + 1
    ensures var ended := worker.phase.Leaving? || worker.phase.Exited?;
      && (forall i :: 0 <= i < worker.attempts - 1 ==> IsWorthRetry(answers[i]))
      && (answers != [] && !IsWorthRetry(answers[|answers| - 1]) ==> ended && worker.attempts == |answers|)
      && (ended && worker.rejects > 0 ==> closing && answers == [])
      && (ended && worker.rejects == 0 && answers == [] ==>
            (worker.structured && failed) || c.maxAttempts == 0)
      && (ended && worker.rejects == 0 && answers != [] ==>
            !IsWorthRetry(answers[|answers| - 1]) || |answers| == c.maxAttempts || closing)
  {
    hide IsWorthRetry;
    assert forall i :: 0 <= i < |answers| - 1 ==> answers[i] == answers[..|answers| - 1][i];
  }

  /** A worker makes another attempt only after answers that are worth it. It ends at once after any other one, and
      otherwise only if the closing began, or after the maximal number of attempts, or if there was nothing to send. */
  lemma AnswersDecide<T>(c: Config<T>, batchers: nat, es: seq<Event<T>>, w: nat)
    requires IsRun(c, Start(batchers), es) && w < |After(c, Start(batchers), es).workers|
    ensures var s := After(c, Start(batchers), es);
      var worker, answers := s.workers[w], AnswersOf(es, w);
      var ended := worker.phase.Leaving? || worker.phase.Exited?;
      && |answers| <= worker.attempts <= c.maxAttempts && worker.attempts <= |answers| + 1
      && (forall i :: 0 <= i < worker.attempts - 1 ==> IsWorthRetry(answers[i]))
      && (answers != [] && !IsWorthRetry(answers[|answers| - 1]) ==> ended && worker.attempts == |answers|)
      && (ended && worker.rejects > 0 ==> s.closing && answers == [])
      && (ended && worker.rejects == 0 && answers == [] ==>
            (worker.structured && FailedToEncode(es, w)) || c.maxAttempts == 0)
      && (ended && worker.rejects == 0 && answers != [] ==>
            !IsWorthRetry(answers[|answers| - 1]) || |answers| == c.maxAttempts || s.closing)
  {
    hide IsRun, After, IsWorthRetry, Exclusive, AreSlotted, AreEmptied, IsFinished, Agrees, IsProper;
    AgreesFromStart(c, batchers, es, w);
    var s := After(c, Start(batchers), es);
    AgreementDecides(c, s.closing, s.workers[w], AnswersOf(es, w), FailedToEncode(es, w));
  }

  lemma WorkerStepDiverts<T>(c: Config<T>, s: State<T>, e: Event<T>)
    requires e.IsWorkers() && WorkerEnabled(c, s, e) && WorkerStep(c, s, e).diverted != s.diverted
    ensures WorkerStep(c, s, e).diverted == s.diverted + multiset(s.workers[e.w].payload)
    ensures WorkerStep(c, s, e).workers[e.w].phase.Leaving?
    ensures e.Recheck? ==> s.closing
    ensures !e.Recheck? ==> s.workers[e.w].IsSending() && WorkerStep(c, s, e).workers[e.w].sends == s.workers[e.w].sends
    ensures e.Answer? ==> !e.answer.IsSuccess()
    ensures WorkerStep(c, s, e).workers[e.w].structured == s.workers[e.w].structured
  {}

  lemma OtherStepDiverts<T>(c: Config<T>, s: State<T>, e: Event<T>)
    requires Enabled(c, s, e) && !e.IsWorkers() && Apply(c, s, e).diverted != s.diverted
    ensures s.closing && (e.CheckFirst? || e.CheckAgain?) && (s.threads[e.t].Arrived? || s.threads[e.t].Checking?)
    ensures Apply(c, s, e).diverted == s.diverted + multiset(s.threads[e.t].chunk.items)
  {
    hide AfterAdd, AfterTimedFlush, AfterFlush;
  }

  /** Nothing is diverted without a reason: the sender is closing when a call is about to be admitted, or when a worker
      is done waiting for a slot; or else the worker did begin to send, but the payload couldn't be encoded, or its last
      attempt failed in a way that isn't worth a retry, or was the last one allowed, or the closing began after it. */
  lemma DivertedHasReason<T>(c: Config<T>, batchers: nat, es: seq<Event<T>>, e: Event<T>)
    requires IsRun(c, Start(batchers), es) && Enabled(c, After(c, Start(batchers), es), e)
    requires var s := After(c, Start(batchers), es); Apply(c, s, e).diverted != s.diverted
    ensures var s := After(c, Start(batchers), es);
      var gained := Apply(c, s, e).diverted;
      if e.IsWorkers() then
        var worker, answers := s.workers[e.w], AnswersOf(es, e.w) + NewAnswer(e, e.w);
        && gained == s.diverted + multiset(worker.payload)
        && (answers != [] ==>
              var last := answers[|answers| - 1];
              && !(last.Response? && last.code < 300)
              && (!IsWorthRetry(last) || |answers| == c.maxAttempts || s.closing))
        && (answers == [] ==>
              || (e.Recheck? && s.closing)
              || (worker.structured && (FailedToEncode(es, e.w) || e == Event<T>.Prepare(e.w, false)))
              || c.maxAttempts == 0)
      else
        && s.closing && (e.CheckFirst? || e.CheckAgain?) && (s.threads[e.t].Arrived? || s.threads[e.t].Checking?)
        && gained == s.diverted + multiset(s.threads[e.t].chunk.items)
  {
    hide IsRun, After, ThreadStep, ThreadEnabled, CloserStep, CloserEnabled, IsWorthRetry;
    var s := After(c, Start(batchers), es);
    if e.IsWorkers() {
      AgreesFromStart(c, batchers, es, e.w);
      WorkerStepDiverts(c, s, e);
      DivertedAnswers(c, s, e, AnswersOf(es, e.w), FailedToEncode(es, e.w));
      hide WorkerStep, WorkerEnabled, Inv, AgreesAt;
    } else {
      OtherStepDiverts(c, s, e);
    }
  }

  lemma DivertedAnswers<T>(c: Config<T>, s: State<T>, e: Event<T>, before: seq<Answer>, failed: bool)
    requires e.IsWorkers() && WorkerEnabled(c, s, e) && Inv(c, s) && AgreesAt(c, s, e.w, before, failed)
    requires WorkerStep(c, s, e).diverted != s.diverted
    ensures var answers := before + NewAnswer(e, e.w);
      && (answers != [] ==>
            var last := answers[|answers| - 1];
            && !(last.Response? && last.code < 300)
            && (!IsWorthRetry(last) || |answers| == c.maxAttempts || s.closing))
      && (answers == [] ==>
            || (e.Recheck? && s.closing)
            || (s.workers[e.w].structured && (failed || FailsToEncode(e, e.w)))
            || c.maxAttempts == 0)
  {
    WorkerStepAgrees(c, s, e, e.w, before, failed);
    WorkerStepDiverts(c, s, e);
    assert IsProper(c, s.closing, s.workers[e.w]);
    WorkerStepChanges(c, s, e);
    hide WorkerStep, IsWorthRetry;
    var answers := before + NewAnswer(e, e.w);
    if answers != [] {
      RetryMeansWorth(answers[|answers| - 1]);
    }
  }

  /** An attempt follows only answers that are worth it, fewer than the maximal number of attempts. */
  lemma AttemptsFollowWorthyAnswers<T>(c: Config<T>, batchers: nat, es: seq<Event<T>>, w: nat)
    requires IsRun(c, Start(batchers), es) && Enabled(c, After(c, Start(batchers), es), Event<T>.Attempt(w))
    ensures |AnswersOf(es, w)| < c.maxAttempts && AreWorthRetry(AnswersOf(es, w))
  {
    hide IsRun, After, Enabled;
    AgreesFromStart(c, batchers, es, w);
    var s := After(c, Start(batchers), es);
    AttemptAfterCheck(c, s, w);
    assert IsProper(c, s.closing, s.workers[w]);
    hide AreWorthRetry, Exclusive, AreSlotted, AreEmptied, IsFinished;
  }

  lemma AttemptAfterCheck<T>(c: Config<T>, s: State<T>, w: nat)
    requires Enabled(c, s, Event<T>.Attempt(w))
    ensures w < |s.workers| && s.workers[w].phase.Checked?
  {}

  // ---- Slots and payloads.

  /** A worker that has a slot, or doesn't need one anymore, and wasn't rejected. */
  predicate IsKept<T>(w: Worker<T>) {
    !w.phase.Waiting? && !w.phase.Woken? && w.rejects == 0
  }

  lemma KeptStep<T>(c: Config<T>, s: State<T>, e: Event<T>, w: nat)
    requires Enabled(c, s, e) && w < |s.workers| && IsKept(s.workers[w])
    ensures w < |Apply(c, s, e).workers| && IsKept(Apply(c, s, e).workers[w])
  {
    var s' := Apply(c, s, e);
    if e.IsWorkers() {
      WorkerStepChanges(c, s, e);
      if e.w == w {
        KeptOwnStep(c, s, e);
      }
    } else if e.IsThreads() {
      ThreadStepRegisters(c, s, e);
      assert s'.workers[w] == s'.workers[..|s.workers|][w];
    } else {
      CloserStepRegisters(c, s, e);
      assert s'.workers[w] == s'.workers[..|s.workers|][w];
    }
    hide ThreadStep, ThreadEnabled, CloserStep, CloserEnabled, WorkerStep, WorkerEnabled;
  }

  lemma KeptOwnStep<T>(c: Config<T>, s: State<T>, e: Event<T>)
    requires e.IsWorkers() && WorkerEnabled(c, s, e) && IsKept(s.workers[e.w])
    ensures IsKept(WorkerStep(c, s, e).workers[e.w])
  {
    hide Settled;
    SettledIsKept(s, e.w, true);
    SettledIsKept(s, e.w, false);
  }

  lemma SettledIsKept<T>(s: State<T>, w: nat, success: bool)
    requires w < |s.workers| && IsKept(s.workers[w])
    ensures IsKept(Settled(s, w, success).workers[w])
  {}

  lemma {:induction false} KeptRun<T>(c: Config<T>, s: State<T>, es: seq<Event<T>>, w: nat)
    requires IsRun(c, s, es) && w < |s.workers| && IsKept(s.workers[w])
    ensures w < |After(c, s, es).workers| && IsKept(After(c, s, es).workers[w])
    decreases |es|
  {
    hide Apply, Enabled, IsKept;
    if es != [] {
      KeptStep(c, s, es[0], w);
      KeptRun(c, Apply(c, s, es[0]), es[1..], w);
    }
  }

  /** Work that's registered while there's a free slot takes it, and is never rejected, even if the closing begins right
      after that. Without a free slot, it has to wait for one. */
  lemma FreeSlotsAreTaken<T>(c: Config<T>, s: State<T>, e: Event<T>, more: seq<Event<T>>)
    requires Enabled(c, s, e) && IsRun(c, Apply(c, s, e), more) && |Apply(c, s, e).workers| > |s.workers|
    ensures var w := |s.workers|;
      if |s.slots| < c.capacity
      then w < |After(c, Apply(c, s, e), more).workers| && After(c, Apply(c, s, e), more).workers[w].rejects == 0
      else Apply(c, s, e).workers[w].phase.Waiting?
  {
    hide IsRun, After;
    if e.IsThreads() {
      ThreadStepRegisters(c, s, e);
    } else if e.IsClosers() {
      CloserStepRegisters(c, s, e);
    } else {
      WorkerStepChanges(c, s, e);
    }
    hide ThreadStep, ThreadEnabled, CloserStep, CloserEnabled, WorkerStep, WorkerEnabled;
    if |s.slots| < c.capacity {
      KeptRun(c, Apply(c, s, e), more, |s.workers|);
    }
  }
}
