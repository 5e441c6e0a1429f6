/** The order in which the whole pipeline shuts down: first the sources of data, then the senders, and the Dead-Letter
    Queue, which is the fallback of all the other senders, only when they're all closed. */
module Shutdown {

  const DLQ := "dead_letter_queue"

  datatype Status = Open | Closing | Closed

  datatype Stage = Working | ClosingSources | ClosingSenders | ClosingDlq | Ended

  /** `rejected` counts data that a source passed to a sender which was already closing or closed,
      and `lost` counts data that a sender diverted to the queue when it was already closing or closed. */
  datatype State = State(
    stage: Stage, receivers: map<string, Status>, collectors: map<string, Status>, senders: map<string, Status>,
    rejected: nat, lost: nat)

  /** Collectors close on their own, as soon as they're told to stop scheduling, or even earlier. */
  datatype Event =
    | Shutdown
    | CloseReceiver(name: string)
    | ReceiverClosed(name: string)
    | CollectorDone(name: string)
    | SourcesClosed
    | CloseSender(name: string)
    | SenderClosed(name: string)
    | SendersClosed
    | DlqClosed
    | Send(source: string, sender: string)
    | Divert(sender: string)

  predicate Has(components: map<string, Status>, name: string, status: Status) {
    name in components && components[name] == status
  }

  predicate IsAlive(components: map<string, Status>, name: string) {
    name in components && components[name] != Closed
  }

  ghost predicate AllClosed(components: map<string, Status>) {
    forall name :: name in components ==> components[name] == Closed
  }

  ghost predicate Enabled(s: State, e: Event) {
    match e
    case Shutdown => s.stage == Working
    case CloseReceiver(r) => s.stage == ClosingSources && Has(s.receivers, r, Open)
    case ReceiverClosed(r) => Has(s.receivers, r, Closing)
    case CollectorDone(c) => Has(s.collectors, c, Open)
    case SourcesClosed => s.stage == ClosingSources && AllClosed(s.receivers) && AllClosed(s.collectors)
    case CloseSender(n) => s.stage == ClosingSenders && n != DLQ && Has(s.senders, n, Open)
    case SenderClosed(n) => n != DLQ && Has(s.senders, n, Closing)
    case SendersClosed => s.stage == ClosingSenders && AllClosed(s.senders - {DLQ})
    case DlqClosed => s.stage == ClosingDlq
    // A source sends nothing after it's closed, and a sender diverts nothing after it's closed.
    case Send(source, n) => (IsAlive(s.receivers, source) || IsAlive(s.collectors, source)) && n in s.senders
    case Divert(n) => n != DLQ && IsAlive(s.senders, n)
  }

  function Apply(s: State, e: Event): State {
    match e
    case Shutdown => s.(stage := ClosingSources)
    case CloseReceiver(r) => s.(receivers := s.receivers[r := Closing])
    case ReceiverClosed(r) => s.(receivers := s.receivers[r := Closed])
    case CollectorDone(c) => s.(collectors := s.collectors[c := Closed])
    case SourcesClosed => s.(stage := ClosingSenders)
    case CloseSender(n) => s.(senders := s.senders[n := Closing])
    case SenderClosed(n) => s.(senders := s.senders[n := Closed])
    case SendersClosed => s.(stage := ClosingDlq, senders := if DLQ in s.senders then s.senders[DLQ := Closing] else s.senders)
    case DlqClosed => s.(stage := Ended, senders := if DLQ in s.senders then s.senders[DLQ := Closed] else s.senders)
    case Send(_, n) => if Has(s.senders, n, Open) then s else s.(rejected := s.rejected + 1)
    case Divert(_) => if Has(s.senders, DLQ, Open) then s else s.(lost := s.lost + 1)
  }

  ghost predicate IsRun(s: State, es: seq<Event>)
    decreases |es|
  {
    es == [] || (Enabled(s, es[0]) && IsRun(Apply(s, es[0]), es[1..]))
  }

  function After(s: State, es: seq<Event>): State
    decreases |es|
  {
    if es == [] then s else After(Apply(s, es[0]), es[1..])
  }

  /** All the components are open, and there's always a Dead-Letter Queue. */
  ghost predicate IsStart(s: State) {
    && s.stage == Working && s.rejected == s.lost == 0 && DLQ in s.senders
    && (forall name :: name in s.receivers ==> s.receivers[name] == Open)
    && (forall name :: name in s.collectors ==> s.collectors[name] == Open)
    && (forall name :: name in s.senders ==> s.senders[name] == Open)
  }

  ghost predicate Inv(s: State) {
    && s.rejected == s.lost == 0 && DLQ in s.senders
    && (s.stage.Working? || s.stage.ClosingSources? ==> forall name :: name in s.senders ==> s.senders[name] == Open)
    && (s.stage.ClosingSenders? ==> s.senders[DLQ] == Open)
    && (!s.stage.Working? && !s.stage.ClosingSources? ==> AllClosed(s.receivers) && AllClosed(s.collectors))
    && (s.stage.ClosingDlq? || s.stage.Ended? ==> AllClosed(s.senders - {DLQ}))
  }

  lemma InvStep(s: State, e: Event)
    requires Inv(s) && Enabled(s, e)
    ensures Inv(Apply(s, e))
  {
    var s' := Apply(s, e);
    forall name | name in s'.senders - {DLQ} && (s'.stage.ClosingDlq? || s'.stage.Ended?)
      ensures s'.senders[name] == Closed
    {
      assert name in s.senders - {DLQ} && (s.senders - {DLQ})[name] == s.senders[name];
    }
    forall name | name in s.senders && name != DLQ
      ensures name in s.senders - {DLQ} && (s.senders - {DLQ})[name] == s.senders[name]
    {}
  }

  lemma {:induction false} InvRun(s: State, es: seq<Event>)
    requires Inv(s) && IsRun(s, es)
    ensures Inv(After(s, es))
    decreases |es|
  {
    hide Apply, Enabled, Inv;
    if es != [] {
      InvStep(s, es[0]);
      InvRun(Apply(s, es[0]), es[1..]);
    }
  }

  /** In every run, sources pass data only to senders that are open, and senders divert data only to a queue that's
      open: when it begins to close, all the others are already closed. */
  lemma NothingIsLate(s: State, es: seq<Event>)
    requires IsStart(s) && IsRun(s, es)
    ensures var s' := After(s, es);
      && s'.rejected == s'.lost == 0 && DLQ in s'.senders
      && (s'.senders[DLQ] != Open ==>
            && (forall name :: name in s'.senders - {DLQ} ==> s'.senders[name] == Closed)
            && AllClosed(s'.receivers) && AllClosed(s'.collectors))
  {
    InvRun(s, es);
    var s' := After(s, es);
    assert forall name :: name in s'.senders - {DLQ} ==> (s'.senders - {DLQ})[name] == s'.senders[name];
  }
}
