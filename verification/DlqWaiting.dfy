/** Why no write reserves space before the first measurement of the Dead-Letter Queue ends: writes wait for it, unless
    they're discarded because the queue is closing. */
module DlqWaiting {

  /** A write: it's about to check if the queue is closing, without the read lock, and then with it; it was admitted;
      it waits for the first measurement; it may reserve space; or it's discarded. */
  datatype Write = Arrived | Locking | Checking | Admitted | Waiting | Ready | Discarded

  /** The first measurement is in progress, it ended, or it was interrupted by the closing. */
  datatype First = Measuring | Measured | Interrupted

  /** `limited` means that the queue has a maximal size: otherwise there's nothing to wait for. */
  datatype State = State(limited: bool, first: First, closing: bool, writes: seq<Write>)

  datatype Event =
    | Send
    | CheckFirst(w: nat)
    | Lock(w: nat)
    | CheckAgain(w: nat)
    | Try(w: nat)          // Without waiting.
    | WakeMeasured(w: nat)
    | WakeClosing(w: nat)
    | FirstMeasurement(ok: bool)
    | Close

  function Start(limited: bool): State {
    State(limited, Measuring, false, [])
  }

  predicate Is(s: State, w: nat, write: Write) {
    w < |s.writes| && s.writes[w] == write
  }

  predicate Enabled(s: State, e: Event) {
    match e
    case Send => true
    case CheckFirst(w) => Is(s, w, Arrived)
    case Lock(w) => Is(s, w, Locking)
    case CheckAgain(w) => Is(s, w, Checking)
    case Try(w) => Is(s, w, Admitted)
    case WakeMeasured(w) => Is(s, w, Waiting) && s.first.Measured?
    case WakeClosing(w) => Is(s, w, Waiting) && s.closing
    case FirstMeasurement(_) => s.first.Measuring?
    case Close => !s.closing && forall i :: 0 <= i < |s.writes| ==> s.writes[i] != Checking
  }

  function Become(s: State, w: nat, write: Write): State
    requires w < |s.writes|
  {
    s.(writes := s.writes[w := write])
  }

  function Apply(s: State, e: Event): State
    requires Enabled(s, e)
  {
    match e
    case Send => s.(writes := s.writes + [Arrived])
    case CheckFirst(w) => Become(s, w, if s.closing then Discarded else Locking)
    case Lock(w) => Become(s, w, Checking)
    case CheckAgain(w) => Become(s, w, if s.closing then Discarded else Admitted)
    case Try(w) => Become(s, w, if !s.limited || s.first.Measured? then Ready else Waiting)
    case WakeMeasured(w) => Become(s, w, Ready)
    case WakeClosing(w) => Become(s, w, Discarded)
    case FirstMeasurement(ok) => s.(first := if !ok && s.closing then Interrupted else Measured)
    case Close => s.(closing := true)
  }

  predicate IsRun(s: State, es: seq<Event>)
    decreases |es|
  {
    es == [] || (Enabled(s, es[0]) && IsRun(Apply(s, es[0]), es[1..]))
  }

  function After(s: State, es: seq<Event>): State
    requires IsRun(s, es)
    decreases |es|
  {
    if es == [] then s else After(Apply(s, es[0]), es[1..])
  }

  predicate Inv(s: State) {
    && (s.limited ==> forall w :: 0 <= w < |s.writes| && s.writes[w].Ready? ==> s.first.Measured?)
    && (!s.closing ==> forall w :: 0 <= w < |s.writes| ==> s.writes[w] != Discarded)
    && (s.first.Interrupted? ==> s.closing)
  }

  /** With a maximal size, a write gets to reserve space only after the first measurement ended, and never if it was
      interrupted. Nothing is discarded before the closing. */
  lemma {:induction false} WritesWait(s: State, es: seq<Event>)
    requires Inv(s) && IsRun(s, es)
    ensures Inv(After(s, es)) && After(s, es).limited == s.limited
    ensures s.first.Interrupted? ==> After(s, es).first.Interrupted?
    decreases |es|
  {
    if es != [] {
      WritesWait(Apply(s, es[0]), es[1..]);
    }
  }

  /** An admitted write is never discarded if the first measurement ended before it had to wait,
      even if the queue is closing too. */
  lemma {:induction false} MeasuredWritesAreKept(s: State, es: seq<Event>, w: nat)
    requires IsRun(s, es) && (s.first.Measured? || !s.limited)
    requires w < |s.writes| && (s.writes[w].Admitted? || s.writes[w].Ready?)
    ensures w < |After(s, es).writes|
    ensures After(s, es).writes[w].Admitted? || After(s, es).writes[w].Ready?
    decreases |es|
  {
    if es != [] {
      MeasuredWritesAreKept(Apply(s, es[0]), es[1..], w);
    }
  }

  /** As long as the first measurement only fails while the queue is closing, no write gets to reserve space. */
  lemma {:induction false} FailuresBlockWrites(s: State, es: seq<Event>)
    requires Inv(s) && IsRun(s, es) && s.limited && s.closing && !s.first.Measured?
    requires forall e :: e in es && e.FirstMeasurement? ==> !e.ok
    ensures forall w :: 0 <= w < |After(s, es).writes| ==> !After(s, es).writes[w].Ready?
    decreases |es|
  {
    if es != [] {
      assert es[0] in es;
      FailuresBlockWrites(Apply(s, es[0]), es[1..]);
    }
  }

  /** A successful one is never taken for interrupted. */
  lemma {:induction false} SuccessUnblocksWrites(s: State, es: seq<Event>)
    requires IsRun(s, es) && !s.first.Interrupted?
    requires forall e :: e in es && e.FirstMeasurement? ==> e.ok
    ensures !After(s, es).first.Interrupted?
    decreases |es|
  {
    if es != [] {
      assert es[0] in es;
      SuccessUnblocksWrites(Apply(s, es[0]), es[1..]);
    }
  }

  predicate IsNotAdmitted(s: State, w: nat) {
    w < |s.writes| ==> s.writes[w].Arrived? || s.writes[w].Locking? || s.writes[w].Checking? || s.writes[w].Discarded?
  }

  /** A write that wasn't admitted before the closing never is. */
  lemma {:induction false} ClosingAdmitsNothing(s: State, es: seq<Event>, w: nat)
    requires IsRun(s, es) && s.closing && IsNotAdmitted(s, w)
    ensures After(s, es).closing && IsNotAdmitted(After(s, es), w)
    decreases |es|
  {
    if es != [] {
      ClosingAdmitsNothing(Apply(s, es[0]), es[1..], w);
    }
  }

  lemma InvAtStart(limited: bool)
    ensures Inv(Start(limited))
  {}
}
