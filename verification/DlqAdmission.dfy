/** The whole Dead-Letter Queue: the writes that wait for the first measurement, and the files that they write. */
module DlqAdmission {
  import opened DlqAccounts
  import DlqLimit
  import Queue = DlqProtocol
  import Waiting = DlqWaiting

  datatype State = State(queue: Queue.State, waiting: Waiting.State)

  /** A write is admitted, waits, or is discarded; a write that's ready reserves space for one of its files; or writers,
      the walk, or others go on. */
  datatype Event =
    | Admit(event: Waiting.Event)
    | Reserve(write: nat, path: string, size: nat)
    | Proceed(step: Queue.Event)

  function Start(l: Limits, disk: map<string, nat>): State {
    State(Queue.Start(disk), Waiting.Start(l.maxSize > 0))
  }

  predicate EndsMeasurement(e: Queue.Event) {
    e.EndWalk? || e.AbortWalk?
  }

  /** There's no condition on the measurement for reserving space. The measurements stop when the closing interrupts the
      first one. */
  ghost predicate Enabled(l: Limits, s: State, e: Event) {
    match e
    case Admit(event) => !event.FirstMeasurement? && Waiting.Enabled(s.waiting, event)
    case Reserve(w, p, _) => Waiting.Is(s.waiting, w, Waiting.Ready) && Queue.IsNew(s.queue, p)
    case Proceed(step) =>
      && !step.Reserve? && Queue.Enabled(l, s.queue, step)
      && (step.BeginWalk? ==> !s.waiting.first.Interrupted?)
      && (step.AbortWalk? ==> step.closing == s.waiting.closing)
  }

  ghost function Apply(l: Limits, s: State, e: Event): State
    requires Enabled(l, s, e)
  {
    match e
    case Admit(event) => s.(waiting := Waiting.Apply(s.waiting, event))
    case Reserve(_, p, size) => s.(queue := Queue.WithReservation(l, s.queue, p, size))
    case Proceed(step) =>
      State(Queue.Apply(l, s.queue, step),
            if EndsMeasurement(step) && s.waiting.first.Measuring?
            then Waiting.Apply(s.waiting, Waiting.FirstMeasurement(step.EndWalk?)) else s.waiting)
  }

  ghost predicate IsRun(l: Limits, s: State, es: seq<Event>)
    decreases |es|
  {
    es == [] || (Enabled(l, s, es[0]) && IsRun(l, Apply(l, s, es[0]), es[1..]))
  }

  ghost function After(l: Limits, s: State, es: seq<Event>): State
    requires IsRun(l, s, es)
    decreases |es|
  {
    if es == [] then s else After(l, Apply(l, s, es[0]), es[1..])
  }

  /** What happens to the files. */
  function QueueEvents(es: seq<Event>): seq<Queue.Event> {
    if es == [] then []
    else
      var rest := QueueEvents(es[1..]);
      match es[0]
      case Admit(_) => rest
      case Reserve(_, p, size) => [Queue.Reserve(p, size)] + rest
      case Proceed(step) => [step] + rest
  }

  /** Both parts agree on the first measurement. */
  ghost predicate Inv(l: Limits, s: State) {
    && Waiting.Inv(s.waiting) && (s.waiting.limited <==> l.maxSize > 0)
    && (s.queue.measured <==> s.waiting.first.Measured?)
    && (s.waiting.first.Interrupted? ==> s.queue.walk.Idle?)
  }

  /** What happens to the files is a step of the queue: in particular, nobody reserves space too early. */
  lemma StepIsQueueStep(l: Limits, s: State, e: Event)
    requires Inv(l, s) && Enabled(l, s, e)
    ensures Inv(l, Apply(l, s, e))
    ensures var s' := Apply(l, s, e);
      match e
      case Admit(_) => s'.queue == s.queue
      case Reserve(_, p, size) =>
        Queue.Enabled(l, s.queue, Queue.Reserve(p, size)) && s'.queue == Queue.Apply(l, s.queue, Queue.Reserve(p, size))
      case Proceed(step) => Queue.Enabled(l, s.queue, step) && s'.queue == Queue.Apply(l, s.queue, step)
  {}

  lemma QueueStep(l: Limits, q: Queue.State, e: Queue.Event, es: seq<Queue.Event>)
    requires Queue.Enabled(l, q, e) && Queue.IsRun(l, Queue.Apply(l, q, e), es)
    ensures Queue.IsRun(l, q, [e] + es)
    ensures Queue.After(l, q, [e] + es) == Queue.After(l, Queue.Apply(l, q, e), es)
  {
    assert ([e] + es)[1..] == es;
  }

  lemma {:induction false} RunIsQueueRun(l: Limits, s: State, es: seq<Event>)
    requires Inv(l, s) && IsRun(l, s, es)
    ensures Inv(l, After(l, s, es))
    ensures Queue.IsRun(l, s.queue, QueueEvents(es))
    ensures Queue.After(l, s.queue, QueueEvents(es)) == After(l, s, es).queue
    decreases |es|
  {
    hide Inv, Apply, Enabled, Queue.Apply, Queue.Enabled;
    if es != [] {
      var s' := Apply(l, s, es[0]);
      StepIsQueueStep(l, s, es[0]);
      RunIsQueueRun(l, s', es[1..]);
      var rest := QueueEvents(es[1..]);
      match es[0]
      case Admit(_) =>
      case Reserve(_, p, size) => QueueStep(l, s.queue, Queue.Reserve(p, size), rest);
      case Proceed(step) => QueueStep(l, s.queue, step, rest);
    }
  }

  /** In every run of the whole queue, what happens to the files is a run of the queue in which writes don't reserve
      space before the first measurement ends, although nothing but their own waiting keeps them from that. */
  lemma AdmittedRunsAreQueueRuns(l: Limits, disk: map<string, nat>, es: seq<Event>)
    requires IsRun(l, Start(l, disk), es)
    ensures Queue.IsRun(l, Queue.Start(disk), QueueEvents(es))
    ensures Queue.After(l, Queue.Start(disk), QueueEvents(es)) == After(l, Start(l, disk), es).queue
  {
    RunIsQueueRun(l, Start(l, disk), es);
  }

  /** With a maximal size, nothing is reserved, written or counted before the first measurement ended, nor after it was
      interrupted. */
  lemma NothingBeforeMeasurement(l: Limits, disk: map<string, nat>, es: seq<Event>)
    requires l.maxSize > 0 && IsRun(l, Start(l, disk), es)
    ensures var s := After(l, Start(l, disk), es);
      !s.waiting.first.Measured? ==>
        s.queue.writers == map[] && s.queue.acc.newFiles == map[] && s.queue.acc.totalSize == 0
  {
    var s := Start(l, disk);
    RunIsQueueRun(l, s, es);
    DlqLimit.BasicsAtStart(disk);
    hide After, IsRun, Queue.IsRun, Queue.After;
    DlqLimit.UntouchedRun(l, s.queue, QueueEvents(es));
  }
}
