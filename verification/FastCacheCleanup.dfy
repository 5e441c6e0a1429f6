/** What the background cleanup of the cache without a lock may change for concurrent calls on a key. */
module FastCacheCleanup {
  import opened FastCacheRaces
  import opened Wrappers
  import CacheSpec

  // ---- Runs without their logs.

  /** A call without its places in the log. */
  function Bare<V>(call: Call<V>): Call<V> {
    match call
    case Calling(op, _, since) => Calling(op, 0, since)
    case Loaded(op, _, since, actual, _) => Loaded(op, 0, since, actual, 0)
    case AddSwapping(op, _, since, actual) => AddSwapping(op, 0, since, actual)
    case Deciding(op, _, since, actual, at) => Deciding(op, 0, since, actual, at)
    case ReplaceSwapping(op, _, since, actual, at, decided) => ReplaceSwapping(op, 0, since, actual, at, decided)
    case Removing(op, _, since, actual, result, _) => Removing(op, 0, since, actual, result, 0)
    case Returned(op, _, since, result, _, end) => Returned(op, 0, since, result, 0, end)
  }

  datatype Move<V> = Move(cell: Option<Item<V>>, call: Call<V>)

  /** A step of a call depends only on the stored item, the clock, and the call itself. */
  ghost function Advance<V>(cell: Option<Item<V>>, clock: int, call: Call<V>): Move<V>
    requires !call.Returned?
  {
    var alone := State(cell, clock, [Bare(call)], [Entry(0, call.op, 0, 0, 0, None, false)]);
    var s := Apply(alone, Step(0));
    Move(s.cell, Bare(s.calls[0]))
  }

  datatype Thin<V> = Thin(cell: Option<Item<V>>, clock: int, calls: seq<Call<V>>)

  function ThinOf<V>(s: State<V>): Thin<V> {
    Thin(s.cell, s.clock, seq(|s.calls|, i requires 0 <= i < |s.calls| => Bare(s.calls[i])))
  }

  predicate CanHappen<V>(t: Thin<V>, e: Event<V>) {
    Enabled(State(t.cell, t.clock, t.calls, []), e)
  }

  ghost function Next<V>(t: Thin<V>, e: Event<V>): Thin<V>
    requires CanHappen(t, e)
  {
    match e
    case Begin(op) => t.(calls := t.calls + [Calling(op, 0, t.clock)])
    case Tick(now) => t.(clock := now)
    case Cleanup(_, seen) => t.(cell := CompareAndDelete(t.cell, seen))
    case Step(c) =>
      var m := Advance(t.cell, t.clock, t.calls[c]);
      Thin(m.cell, t.clock, t.calls[c := m.call])
  }

  ghost predicate IsThinRun<V>(t: Thin<V>, es: seq<Event<V>>)
    decreases |es|
  {
    es == [] || (CanHappen(t, es[0]) && IsThinRun(Next(t, es[0]), es[1..]))
  }

  ghost function Last<V>(t: Thin<V>, es: seq<Event<V>>): Thin<V>
    requires IsThinRun(t, es)
    decreases |es|
  {
    if es == [] then t else Last(Next(t, es[0]), es[1..])
  }

  ghost predicate IsAdvance<V>(s: State<V>, c: nat, s': State<V>)
    requires c < |s.calls| && !s.calls[c].Returned?
  {
    var m := Advance(s.cell, s.clock, Bare(s.calls[c]));
    && s'.cell == m.cell && s'.clock == s.clock && c < |s'.calls| && s'.calls == s.calls[c := s'.calls[c]]
    && Bare(s'.calls[c]) == m.call
  }

  lemma AccessIsAdvance<V>(s: State<V>, c: nat)
    requires c < |s.calls| && s.calls[c].Calling?
    ensures IsAdvance(s, c, Access(s, c))
  {
    hide ReadClock;
  }

  lemma ReadingIsAdvance<V>(s: State<V>, c: nat)
    requires c < |s.calls| && s.calls[c].Loaded? && s.calls[c].entry < |s.log|
    ensures IsAdvance(s, c, ReadClock(s, c))
  {
    hide Access;
  }

  lemma StepIsAdvance<V>(s: State<V>, c: nat)
    requires Enabled(s, Step(c)) && (s.calls[c].Loaded? ==> s.calls[c].entry < |s.log|)
    ensures IsAdvance(s, c, Apply(s, Step(c)))
  {
    hide Access, ReadClock;
    match s.calls[c]
    case Calling(_, _, _) => AccessIsAdvance(s, c); hide IsAdvance;
    case Loaded(_, _, _, _, _) => ReadingIsAdvance(s, c); hide IsAdvance;
    case _ =>
  }

  lemma StepIsThin<V>(initial: Option<Item<V>>, s: State<V>, e: Event<V>)
    requires Inv(initial, s)
    ensures Enabled(s, e) <==> CanHappen(ThinOf(s), e)
    ensures Enabled(s, e) ==> ThinOf(Apply(s, e)) == Next(ThinOf(s), e)
  {
    if e.Step? {
      hide Apply, Advance, IsLegal, AreOrdered, IsSame, HasCall, Replay;
      if Enabled(s, e) {
        assert IsConsistent(initial, s, e.c);
        StepIsAdvance(s, e.c);
      }
    }
  }

  lemma {:induction false} RunIsThin<V>(initial: Option<Item<V>>, s: State<V>, es: seq<Event<V>>)
    requires Inv(initial, s)
    ensures IsRun(s, es) <==> IsThinRun(ThinOf(s), es)
    ensures IsRun(s, es) ==> ThinOf(After(s, es)) == Last(ThinOf(s), es)
    decreases |es|
  {
    hide Inv, Apply, Enabled, CanHappen, Next, ThinOf;
    if es != [] {
      StepIsThin(initial, s, es[0]);
      if Enabled(s, es[0]) {
        InvStep(initial, s, es[0]);
        RunIsThin(initial, Apply(s, es[0]), es[1..]);
      }
    }
  }

  lemma {:induction false} JoinRuns<V>(t: Thin<V>, es: seq<Event<V>>, rest: seq<Event<V>>)
    requires IsThinRun(t, es) && IsThinRun(Last(t, es), rest)
    ensures IsThinRun(t, es + rest) && Last(t, es + rest) == Last(Last(t, es), rest)
    decreases |es|
  {
    hide CanHappen, Next;
    if es == [] {
      assert es + rest == rest;
    } else {
      JoinRuns(Next(t, es[0]), es[1..], rest);
      assert (es + rest)[1..] == es[1..] + rest;
    }
  }

  // ---- Runs that follow others.

  ghost predicate AreSteps<V>(es: seq<Event<V>>, c: nat) {
    forall i :: 0 <= i < |es| ==> es[i] == Step(c)
  }

  /** The same calls begin, and everything else than the calls happens in the same way at the same times, but instead of
      each step of a call there are any number of its steps, or none. */
  ghost predicate Follows<V>(es': seq<Event<V>>, es: seq<Event<V>>)
    decreases |es|
  {
    if es == [] then es' == []
    else if es[0].Step? then
      exists n: nat :: n <= |es'| && AreSteps(es'[..n], es[0].c) && Follows(es'[n..], es[1..])
    else es' != [] && es'[0] == es[0] && Follows(es'[1..], es[1..])
  }

  ghost predicate HasNoCleanup<V>(es: seq<Event<V>>) {
    forall e :: e in es ==> !e.Cleanup?
  }

  function WithoutCleanup<V>(es: seq<Event<V>>): (r: seq<Event<V>>)
    ensures HasNoCleanup(r)
  {
    if es == [] then []
    else if es[0].Cleanup? then WithoutCleanup(es[1..])
    else [es[0]] + WithoutCleanup(es[1..])
  }

  lemma FollowsSteps<V>(first: seq<Event<V>>, rest: seq<Event<V>>, c: nat, es: seq<Event<V>>)
    requires AreSteps(first, c) && Follows(rest, es)
    ensures Follows(first + rest, [Step(c)] + es)
  {
    var es' := first + rest;
    assert es'[..|first|] == first && es'[|first|..] == rest;
    assert ([Step(c)] + es)[1..] == es;
  }

  lemma FollowsOther<V>(rest: seq<Event<V>>, e: Event<V>, es: seq<Event<V>>)
    requires !e.Step? && Follows(rest, es)
    ensures Follows([e] + rest, [e] + es)
  {
    assert ([e] + rest)[1..] == rest && ([e] + es)[1..] == es;
  }

  /** The call gets there in that many steps, while nothing else happens. */
  ghost predicate Reaches<V>(cell: Option<Item<V>>, clock: int, call: Call<V>, n: nat, m: Move<V>)
    decreases n
  {
    if n == 0 then m == Move(cell, call)
    else
      !call.Returned?
      && var next := Advance(cell, clock, call); Reaches(next.cell, clock, next.call, n - 1, m)
  }

  lemma {:induction false} StepsReach<V>(t: Thin<V>, c: nat, n: nat, m: Move<V>) returns (es: seq<Event<V>>)
    requires c < |t.calls| && Reaches(t.cell, t.clock, t.calls[c], n, m)
    ensures AreSteps(es, c) && IsThinRun(t, es)
    ensures Last(t, es) == Thin(m.cell, t.clock, t.calls[c := m.call])
    decreases n
  {
    hide Advance;
    if n == 0 {
      es := [];
      assert t.calls[c := t.calls[c]] == t.calls;
    } else {
      var t' := Next(t, Step(c));
      var rest := StepsReach(t', c, n - 1, m);
      es := [Step(c)] + rest;
      assert es[1..] == rest && t'.calls[c := m.call] == t.calls[c := m.call];
    }
  }

  // ---- What the steps of a call do.

  /** The item that an expired one, or none, leads to, and what the call returns. */
  function WhenDead<V>(clock: int, op: Op<V>, since: int): Move<V> {
    var out := Spec<V>(None, clock, op);
    Move(out.item, Returned(op, 0, since, out.result, 0, clock))
  }

  lemma AccessIs<V>(cell: Option<Item<V>>, clock: int, op: Op<V>, start: nat, since: int)
    ensures var m := Advance(cell, clock, Calling(op, start, since));
      if cell == None || op.Set? then m == WhenDead(clock, op, since)
      else m == Move(if op.Remove? then None else cell, Loaded(op, 0, since, cell.value, 0))
  {
    hide ReadClock;
  }

  lemma ReadingIs<V>(cell: Option<Item<V>>, clock: int, op: Op<V>, start: nat, since: int, x: Item<V>, entry: nat)
    ensures var m, result := Advance(cell, clock, Loaded(op, start, since, x, entry)), Spec(None, clock, op).result;
      && m.cell == cell && m.call.op == op && m.call.since == since && Bare(m.call) == m.call
      && (op.Replace? || op.Read? || op.Remove? ==> !m.call.AddSwapping?)
      && (m.call.Deciding? || m.call.ReplaceSwapping? ==> op.Replace? && m.call.actual == x && !x.Expired(clock))
      && (m.call.AddSwapping? ==> m.call.actual == x && x.Expired(clock))
      && (x.Expired(clock) ==>
            m.call == match op
                      case Remove => Returned(op, 0, since, result, 0, clock)
                      case Read => Removing(op, 0, since, x, result, 0)
                      case Replace(_, _) => Removing(op, 0, since, x, result, 0)
                      case _ => AddSwapping(op, 0, since, x))
      && (m.call.Returned? || m.call.Removing? || m.call.AddSwapping? || m.call.Deciding? || m.call.ReplaceSwapping?)
  {
    hide Access;
  }

  lemma SwapIs<V>(cell: Option<Item<V>>, clock: int, call: Call<V>)
    requires call.AddSwapping? || call.ReplaceSwapping?
    ensures var m := Advance(cell, clock, call);
      if cell != Some(call.actual) then m == Move(cell, Calling(call.op, 0, call.since))
      else if call.AddSwapping? && call.op.Add? then m == WhenDead(clock, call.op, call.since)
      else if call.ReplaceSwapping? && call.op.Replace? then
        && m.cell == Some(Replacement(call.actual, call.decided, call.op))
        && m.call == Returned(call.op, 0, call.since, Replaced(true), 0, clock)
      else m == Move(cell, Calling(call.op, 0, call.since))
  {
    hide Access, ReadClock;
  }

  lemma LastStepIs<V>(cell: Option<Item<V>>, clock: int, call: Call<V>)
    requires call.Removing? || call.Deciding?
    ensures var m := Advance(cell, clock, call);
      if call.Removing?
      then m == Move(CompareAndDelete(cell, call.actual), Returned(call.op, 0, call.since, call.result, 0, clock))
      else m == Move(cell, ReplaceSwapping(call.op, 0, call.since, call.actual, call.at, clock))
  {
    hide Access, ReadClock;
  }

  /** A call that loads an expired item catches up with one that found nothing. */
  lemma CatchesUp<V>(x: Item<V>, clock: int, op: Op<V>, start: nat, since: int) returns (n: nat)
    requires x.Expired(clock)
    ensures Reaches(Some(x), clock, Calling(op, start, since), n, WhenDead(clock, op, since))
  {
    AccessIs(Some(x), clock, op, start, since);
    var m := WhenDead(clock, op, since);
    if op.Set? {
      n := 1;
      assert Reaches(m.cell, clock, m.call, 0, m);
    } else {
      var cell, loaded := if op.Remove? then None else Some(x), Call<V>.Loaded(op, 0, since, x, 0);
      ReadingIs(cell, clock, op, 0, since, x, 0);
      var next := Advance(cell, clock, loaded).call;
      if next.AddSwapping? {
        SwapIs(cell, clock, next);
      } else if next.Removing? {
        LastStepIs(cell, clock, next);
      }
      hide Advance;
      n := if op.Remove? then 2 else 3;
      assert Reaches(m.cell, clock, m.call, 0, m);
      assert !op.Remove? ==> Reaches(cell, clock, next, 1, m);
      assert Reaches(cell, clock, loaded, n - 1, m);
    }
  }

  // ---- No results that aren't possible without the cleanup.

  /** The same item is stored, or an expired one remains in the second run. */
  predicate CellsAgree<V(==)>(cell: Option<Item<V>>, other: Option<Item<V>>, clock: int) {
    cell == other || (cell == None && other.value.Expired(clock))
  }

  /** Some later swap of the call fails, so that it will start over. */
  ghost predicate Fails<V>(s: Thin<V>, es: seq<Event<V>>, c: nat)
    requires IsThinRun(s, es) && c < |s.calls|
    decreases |es|
  {
    es != [] &&
      var s' := Next(s, es[0]);
      (es[0] == Step(c) && s'.calls[c].Calling?) || Fails(s', es[1..], c)
  }

  /** The call, or its beginning if it's going to start over. */
  ghost function Rewound<V>(s: Thin<V>, es: seq<Event<V>>, c: nat): Call<V>
    requires IsThinRun(s, es) && c < |s.calls|
  {
    var call := s.calls[c];
    if Fails(s, es, c) then Calling(call.op, 0, call.since) else call
  }

  /** In the second run, no call does anything in vain. */
  ghost predicate Mirrors<V>(s: Thin<V>, t: Thin<V>, es: seq<Event<V>>)
    requires IsThinRun(s, es)
  {
    && t.clock == s.clock && |t.calls| == |s.calls| && CellsAgree(s.cell, t.cell, s.clock)
    && forall c :: 0 <= c < |s.calls| ==> t.calls[c] == Rewound(s, es, c)
  }

  /** The call doesn't swap anything any more. */
  predicate IsSettled<V>(call: Call<V>) {
    call.Returned? || call.Removing? || (call.Loaded? && (call.op.Read? || call.op.Remove?))
  }

  /** A step that removes or stores something is the last one that matters. Others only lead on, or start over. */
  lemma StepShape<V>(cell: Option<Item<V>>, clock: int, call: Call<V>)
    requires !call.Returned?
    ensures var m := Advance(cell, clock, call);
      && m.call.op == call.op && m.call.since == call.since
      && (m.cell != cell || IsSettled(call) ==> IsSettled(m.call))
      && (m.call.Calling? ==> m == Move(cell, Calling(call.op, 0, call.since)))
  {
    match call
    case Calling(op, start, since) => AccessIs(cell, clock, op, start, since); hide Advance;
    case Loaded(op, start, since, x, entry) => ReadingIs(cell, clock, op, start, since, x, entry); hide Advance;
    case AddSwapping(_, _, _, _) => SwapIs(cell, clock, call); hide Advance;
    case ReplaceSwapping(_, _, _, _, _, _) => SwapIs(cell, clock, call); hide Advance;
    case Deciding(_, _, _, _, _) => LastStepIs(cell, clock, call); hide Advance;
    case Removing(_, _, _, _, _, _) => LastStepIs(cell, clock, call); hide Advance;
  }

  lemma {:induction false} SettledNeverFails<V>(s: Thin<V>, es: seq<Event<V>>, c: nat)
    requires IsThinRun(s, es) && c < |s.calls| && IsSettled(s.calls[c])
    ensures !Fails(s, es, c)
    decreases |es|
  {
    hide Advance;
    if es != [] {
      if es[0] == Step(c) {
        StepShape(s.cell, s.clock, s.calls[c]);
      }
      SettledNeverFails(Next(s, es[0]), es[1..], c);
    }
  }

  /** A step that isn't in vain can be followed, although an expired item may remain in the second run. */
  lemma StepIsFollowed<V>(cell: Option<Item<V>>, other: Option<Item<V>>, clock: int, call: Call<V>)
      returns (n: nat, m: Move<V>)
    requires !call.Returned? && CellsAgree(cell, other, clock) && !Advance(cell, clock, call).call.Calling?
    ensures Reaches(other, clock, call, n, m)
    ensures m.call == Advance(cell, clock, call).call && CellsAgree(Advance(cell, clock, call).cell, m.cell, clock)
  {
    n, m := 1, Advance(other, clock, call);
    assert Reaches(m.cell, clock, m.call, 0, m);
    if cell != other {
      match call
      case Calling(op, start, since) =>
        AccessIs(cell, clock, op, start, since);
        n := CatchesUp(other.value, clock, op, start, since);
        m := WhenDead(clock, op, since);
        hide Advance;
      case Loaded(op, start, since, x, entry) =>
        SameReading(cell, other, clock, call);
        hide Advance;
      case AddSwapping(_, _, _, _) => SwapIs(cell, clock, call); hide Advance;
      case ReplaceSwapping(_, _, _, _, _, _) => SwapIs(cell, clock, call); hide Advance;
      case _ =>
        LastStepIs(cell, clock, call);
        LastStepIs(other, clock, call);
        hide Advance;
    }
  }

  lemma SameReading<V>(cell: Option<Item<V>>, other: Option<Item<V>>, clock: int, call: Call<V>)
    requires call.Loaded?
    ensures Advance(cell, clock, call).call == Advance(other, clock, call).call
    ensures Advance(cell, clock, call).cell == cell
  {
    hide Access;
  }

  lemma OthersAreRewound<V>(s: Thin<V>, es: seq<Event<V>>, d: nat)
    requires es != [] && IsThinRun(s, es) && d < |s.calls| && es[0] != Step(d)
    ensures d < |Next(s, es[0]).calls| && Rewound(Next(s, es[0]), es[1..], d) == Rewound(s, es, d)
  {
    hide Advance;
  }

  lemma MirrorStep<V>(s: Thin<V>, t: Thin<V>, es: seq<Event<V>>) returns (first: seq<Event<V>>)
    requires IsThinRun(s, es) && es != [] && es[0].Step? && Mirrors(s, t, es)
    ensures AreSteps(first, es[0].c) && IsThinRun(t, first)
    ensures Mirrors(Next(s, es[0]), Last(t, first), es[1..])
  {
    var c, s' := es[0].c, Next(s, es[0]);
    var call, next := s.calls[c], s'.calls[c];
    StepShape(s.cell, s.clock, call);
    forall d | 0 <= d < |s.calls| && d != c
      ensures Rewound(s', es[1..], d) == Rewound(s, es, d)
    {
      OthersAreRewound(s, es, d);
    }
    if next.Calling? || Fails(s', es[1..], c) {
      if IsSettled(next) {
        SettledNeverFails(s', es[1..], c);
      }
      first := [];
      hide Advance;
    } else {
      var n, m := StepIsFollowed(s.cell, t.cell, s.clock, call);
      hide Advance;
      first := StepsReach(t, c, n, m);
    }
  }

  lemma MirrorOther<V>(s: Thin<V>, t: Thin<V>, es: seq<Event<V>>)
    requires IsThinRun(s, es) && es != [] && !es[0].Step? && Mirrors(s, t, es)
    ensures es[0].Cleanup? ==> Mirrors(Next(s, es[0]), t, es[1..])
    ensures !es[0].Cleanup? ==> CanHappen(t, es[0]) && Mirrors(Next(s, es[0]), Next(t, es[0]), es[1..])
  {
    forall d | 0 <= d < |s.calls|
      ensures Rewound(Next(s, es[0]), es[1..], d) == Rewound(s, es, d)
    {
      OthersAreRewound(s, es, d);
    }
    hide Fails;
  }

  lemma {:induction false} MirrorRun<V>(s: Thin<V>, t: Thin<V>, es: seq<Event<V>>) returns (es': seq<Event<V>>)
    requires IsThinRun(s, es) && Mirrors(s, t, es)
    ensures IsThinRun(t, es') && Follows(es', WithoutCleanup(es)) && Mirrors(Last(s, es), Last(t, es'), [])
    decreases |es|
  {
    hide Next, CanHappen, Mirrors, Follows, AreSteps;
    if es == [] {
      es' := [];
      assert Follows(es', WithoutCleanup(es)) by { NothingFollows<V>(); }
    } else {
      var e, rest := es[0], es[1..];
      if e.Step? {
        var first := MirrorStep(s, t, es);
        var more := MirrorRun(Next(s, e), Last(t, first), rest);
        es' := first + more;
        JoinRuns(t, first, more);
        FollowsSteps(first, more, e.c, WithoutCleanup(rest));
      } else {
        MirrorOther(s, t, es);
        if e.Cleanup? {
          es' := MirrorRun(Next(s, e), t, rest);
        } else {
          var more := MirrorRun(Next(s, e), Next(t, e), rest);
          es' := [e] + more;
          assert es'[1..] == more;
          FollowsOther(more, e, WithoutCleanup(rest));
        }
      }
    }
  }

  lemma NothingFollows<V>()
    ensures Follows<V>([], [])
  {}

  lemma {:induction false} FollowersDontCleanUp<V>(es': seq<Event<V>>, es: seq<Event<V>>)
    requires Follows(es', es) && HasNoCleanup(es)
    ensures HasNoCleanup(es')
    decreases |es|
  {
    if es != [] {
      assert es[0] in es && forall e :: e in es[1..] ==> e in es;
      if es[0].Step? {
        var n: nat :| n <= |es'| && AreSteps(es'[..n], es[0].c) && Follows(es'[n..], es[1..]);
        FollowersDontCleanUp(es'[n..], es[1..]);
        assert es' == es'[..n] + es'[n..];
      } else {
        FollowersDontCleanUp(es'[1..], es[1..]);
        assert es' == [es'[0]] + es'[1..];
      }
    }
  }

  /** The calls are equally far, and returned the same at the same times. The stored items differ at most by one that's
      expired. */
  ghost predicate SameCalls<V>(s: State<V>, t: State<V>) {
    && |s.calls| == |t.calls| && (forall c :: 0 <= c < |s.calls| ==> Bare(s.calls[c]) == Bare(t.calls[c]))
    && s.clock == t.clock && CellsAgree(s.cell, t.cell, s.clock)
  }

  /** For every run, there's another one without the cleanup, in which calls with the same operations begin and return
      at the same times with the same results: some of them only make their own steps later. */
  lemma CleanupAddsNoResults<V(!new)>(initial: Option<Item<V>>, clock: int, es: seq<Event<V>>)
    requires IsRun(Start(initial, clock), es)
    ensures exists es': seq<Event<V>> ::
      && IsRun(Start(initial, clock), es') && Follows(es', WithoutCleanup(es)) && HasNoCleanup(es')
      && SameCalls(After(Start(initial, clock), es), After(Start(initial, clock), es'))
  {
    var s0 := Start(initial, clock);
    assert Inv(initial, s0);
    RunIsThin(initial, s0, es);
    var es' := MirrorRun(ThinOf(s0), ThinOf(s0), es);
    RunIsThin(initial, s0, es');
    FollowersDontCleanUp(es', WithoutCleanup(es));
    hide After, IsRun, IsThinRun, Inv, Follows;
    MirrorsAreSame(After(s0, es), After(s0, es'));
  }

  lemma MirrorsAreSame<V>(s: State<V>, t: State<V>)
    requires Mirrors(ThinOf(s), ThinOf(t), [])
    ensures SameCalls(s, t)
  {
    forall c | 0 <= c < |s.calls|
      ensures Bare(s.calls[c]) == Bare(t.calls[c])
    {
      assert ThinOf(t).calls[c] == Rewound(ThinOf(s), [], c);
    }
  }
}
