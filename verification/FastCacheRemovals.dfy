/** When the removal of an expired item by the background cleanup makes a difference for calls that are in progress. */
module FastCacheRemovals {
  import opened FastCacheRaces
  import opened FastCacheCleanup
  import opened Wrappers
  import CacheSpec

  /** A replacement that already found that the item is live. */
  predicate ReliesOn<V(==)>(call: Call<V>, item: Item<V>) {
    (call.Deciding? || call.ReplaceSwapping?) && call.actual == item
  }

  // ---- If no replacement relies on the item, a run in which it remains can go on in the same way.

  /** The calls are the same, or an addition starts over in the first run because the item is gone, while in the second
      run it still has to swap it. */
  predicate IsMatched<V(==)>(call: Call<V>, other: Call<V>, clock: int) {
    || call == other
    || (other.AddSwapping? && other.op.Add? && other.actual.Expired(clock) && call.op == other.op
        && call.since == other.since && other.start == 0
        && (call.Calling? || (call.Loaded? && call.actual == other.actual)))
  }

  predicate IsSound<V(==)>(call: Call<V>, clock: int) {
    && Bare(call) == call && (call.Loaded? ==> !call.op.Set?)
    && (call.AddSwapping? ==> call.op.Add? && call.actual.Expired(clock))
  }

  ghost predicate Matches<V>(s: Thin<V>, t: Thin<V>) {
    && t.clock == s.clock && |t.calls| == |s.calls| && CellsAgree(s.cell, t.cell, s.clock)
    && (forall c :: 0 <= c < |s.calls| ==> IsMatched(s.calls[c], t.calls[c], s.clock) && IsSound(s.calls[c], s.clock))
    && (s.cell != t.cell ==> forall c :: 0 <= c < |s.calls| ==> !ReliesOn(s.calls[c], t.cell.value))
  }

  lemma NextIsSound<V>(cell: Option<Item<V>>, clock: int, call: Call<V>)
    requires !call.Returned? && IsSound(call, clock)
    ensures IsSound(Advance(cell, clock, call).call, clock)
  {
    match call
    case Calling(op, start, since) => AccessIs(cell, clock, op, start, since); hide Advance;
    case Loaded(op, start, since, x, entry) => ReadingIs(cell, clock, op, start, since, x, entry); hide Advance;
    case AddSwapping(_, _, _, _) => SwapIs(cell, clock, call); hide Advance;
    case ReplaceSwapping(_, _, _, _, _, _) => SwapIs(cell, clock, call); hide Advance;
    case Deciding(_, _, _, _, _) => LastStepIs(cell, clock, call); hide Advance;
    case Removing(_, _, _, _, _, _) => LastStepIs(cell, clock, call); hide Advance;
  }

  /** What a step of the first run and some steps of the second one lead to. */
  ghost predicate IsMatchedMove<V>(
      cell: Option<Item<V>>, other: Option<Item<V>>, clock: int, next: Move<V>, m: Move<V>)
  {
    && IsMatched(next.call, m.call, clock) && CellsAgree(next.cell, m.cell, clock)
    && (next.cell != m.cell ==>
          cell != other && next.cell == cell && m.cell == other && !ReliesOn(next.call, m.cell.value))
  }

  /** The same call, while an expired item remains in the second run. */
  lemma SameCallIsMatched<V>(x: Item<V>, clock: int, call: Call<V>) returns (n: nat, m: Move<V>)
    requires !call.Returned? && IsSound(call, clock) && x.Expired(clock) && !ReliesOn(call, x)
    ensures Reaches(Some(x), clock, call, n, m)
    ensures IsMatchedMove(None, Some(x), clock, Advance(None, clock, call), m)
  {
    n, m := 1, Advance(Some(x), clock, call);
    assert Reaches(m.cell, clock, m.call, 0, m);
    match call
    case Calling(op, start, since) =>
      AccessIs(None, clock, op, start, since);
      n := CatchesUp(x, clock, op, start, since);
      m := WhenDead(clock, op, since);
      hide Advance;
    case Loaded(op, start, since, y, entry) =>
      SameReading(None, Some(x), clock, call);
      SameReading(Some(x), None, clock, call);
      ReadingIs(None, clock, op, start, since, y, entry);
      hide Advance;
    case AddSwapping(_, _, _, y) =>
      SwapIs(None, clock, call);
      SwapIs(Some(x), clock, call);
      if x == y {
        n, m := 0, Move(Some(x), call);
      }
      hide Advance;
    case ReplaceSwapping(_, _, _, _, _, _) =>
      SwapIs(None, clock, call);
      SwapIs(Some(x), clock, call);
      hide Advance;
    case _ =>
      LastStepIs(None, clock, call);
      LastStepIs(Some(x), clock, call);
      hide Advance;
  }

  /** The addition starts over in the first run, and still has to swap an expired item in the second one. */
  lemma LateAdditionIsMatched<V>(
      cell: Option<Item<V>>, other: Option<Item<V>>, clock: int, op: Op<V>, since: int, x: Item<V>)
      returns (n: nat, m: Move<V>)
    requires op.Add? && x.Expired(clock) && CellsAgree(cell, other, clock)
    ensures Reaches(other, clock, AddSwapping(op, 0, since, x), n, m)
    ensures IsMatchedMove(cell, other, clock, Advance(cell, clock, Calling(op, 0, since)), m)
  {
    var swapping, calling := Call<V>.AddSwapping(op, 0, since, x), Call<V>.Calling(op, 0, since);
    AccessIs(cell, clock, op, 0, since);
    SwapIs(other, clock, swapping);
    if cell == Some(x) {
      n, m := 0, Move(other, swapping);
    } else if other == Some(x) {
      n, m := 1, WhenDead(clock, op, since);
      assert Reaches(m.cell, clock, m.call, 0, m);
    } else if cell != other {
      var k := CatchesUp(other.value, clock, op, 0, since);
      n, m := k + 1, WhenDead(clock, op, since);
    } else {
      n, m := 2, Advance(cell, clock, calling);
      assert Reaches(m.cell, clock, m.call, 0, m);
      assert Reaches(other, clock, calling, 1, m);
    }
    hide Advance;
  }

  lemma StepIsMatched<V>(cell: Option<Item<V>>, other: Option<Item<V>>, clock: int, call: Call<V>, call': Call<V>)
      returns (n: nat, m: Move<V>)
    requires !call.Returned? && CellsAgree(cell, other, clock) && IsMatched(call, call', clock) && IsSound(call, clock)
    requires cell != other ==> !ReliesOn(call, other.value)
    ensures Reaches(other, clock, call', n, m)
    ensures IsMatchedMove(cell, other, clock, Advance(cell, clock, call), m)
  {
    if call == call' {
      if cell == other {
        n, m := 1, Advance(other, clock, call);
        hide Advance;
        assert Reaches(m.cell, clock, m.call, 0, m);
      } else {
        n, m := SameCallIsMatched(other.value, clock, call);
        hide Advance;
      }
    } else {
      hide Advance, Reaches;
      assert call' == AddSwapping(call.op, 0, call.since, call'.actual);
      if call.Calling? {
        n, m := LateAdditionIsMatched(cell, other, clock, call.op, call.since, call'.actual);
      } else {
        ReadingIs(cell, clock, call.op, 0, call.since, call.actual, 0);
        n, m := 0, Move(other, call');
        StayingReaches(other, clock, call');
      }
    }
  }

  lemma StayingReaches<V>(cell: Option<Item<V>>, clock: int, call: Call<V>)
    ensures Reaches(cell, clock, call, 0, Move(cell, call))
  {}

  lemma MatchStep<V>(s: Thin<V>, t: Thin<V>, c: nat) returns (first: seq<Event<V>>)
    requires Matches(s, t) && CanHappen(s, Step(c))
    ensures AreSteps(first, c) && IsThinRun(t, first) && Matches(Next(s, Step(c)), Last(t, first))
  {
    var s' := Next(s, Step(c));
    NextIsSound(s.cell, s.clock, s.calls[c]);
    hide Advance;
    var n, m := StepIsMatched(s.cell, t.cell, s.clock, s.calls[c], t.calls[c]);
    first := StepsReach(t, c, n, m);
    hide IsMatched, IsSound, ReliesOn, CellsAgree;
    assert forall d :: 0 <= d < |s.calls| && d != c ==> s'.calls[d] == s.calls[d];
  }

  lemma MatchOther<V>(s: Thin<V>, t: Thin<V>, e: Event<V>)
    requires Matches(s, t) && CanHappen(s, e) && !e.Step?
    ensures CanHappen(t, e) && Matches(Next(s, e), Next(t, e))
  {}

  lemma {:induction false} MatchRun<V>(s: Thin<V>, t: Thin<V>, es: seq<Event<V>>) returns (es': seq<Event<V>>)
    requires IsThinRun(s, es) && Matches(s, t)
    ensures IsThinRun(t, es') && Follows(es', es) && Matches(Last(s, es), Last(t, es'))
    decreases |es|
  {
    hide Next, CanHappen, Matches, Follows, AreSteps;
    if es == [] {
      es' := [];
      NothingFollows<V>();
    } else {
      var e, rest := es[0], es[1..];
      assert es == [e] + rest;
      if e.Step? {
        var first := MatchStep(s, t, e.c);
        var more := MatchRun(Next(s, e), Last(t, first), rest);
        es' := first + more;
        JoinRuns(t, first, more);
        FollowsSteps(first, more, e.c, rest);
      } else {
        MatchOther(s, t, e);
        var more := MatchRun(Next(s, e), Next(t, e), rest);
        es' := [e] + more;
        assert es'[1..] == more;
        FollowsOther(more, e, rest);
      }
    }
  }

  // ---- If one does, it may fail only because of the removal.

  /** The replacement can still succeed, or it did. */
  predicate CanReplace<V(==)>(t: Thin<V>, c: nat, item: Item<V>)
    requires c < |t.calls|
  {
    var call := t.calls[c];
    || (ReliesOn(call, item) && call.op.Replace? && t.cell == Some(item))
    || (call.Returned? && call.result == Replaced(true))
  }

  lemma {:induction false} AloneItReplaces<V>(t: Thin<V>, es: seq<Event<V>>, c: nat, item: Item<V>)
    requires IsThinRun(t, es) && AreSteps(es, c) && c < |t.calls| && CanReplace(t, c, item)
    ensures c < |Last(t, es).calls| && CanReplace(Last(t, es), c, item)
    decreases |es|
  {
    if es != [] {
      var call := t.calls[c];
      assert es[0] == Step(c);
      if call.Deciding? {
        LastStepIs(t.cell, t.clock, call);
      } else {
        SwapIs(t.cell, t.clock, call);
      }
      hide Advance;
      AloneItReplaces(Next(t, es[0]), es[1..], c, item);
    }
  }

  lemma RemovedItIsMissed<V>(t: Thin<V>, c: nat, item: Item<V>) returns (es: seq<Event<V>>)
    requires c < |t.calls| && ReliesOn(t.calls[c], item) && t.calls[c].op.Replace? && t.cell == None
    ensures AreSteps(es, c) && IsThinRun(t, es)
    ensures var s := Last(t, es);
      |s.calls| == |t.calls| && s.calls[c].Returned? && s.calls[c].result == Replaced(false)
  {
    var call := t.calls[c];
    var swapping := if call.Deciding? then Advance(None, t.clock, call).call else call;
    if call.Deciding? {
      LastStepIs(None, t.clock, call);
    }
    SwapIs(None, t.clock, swapping);
    AccessIs(None, t.clock, call.op, 0, call.since);
    hide Advance;
    var m := WhenDead(t.clock, call.op, call.since);
    assert Reaches(m.cell, t.clock, m.call, 0, m);
    assert Reaches(None, t.clock, Calling(call.op, 0, call.since), 1, m);
    assert Reaches(None, t.clock, swapping, 2, m);
    es := StepsReach(t, c, if call.Deciding? then 3 else 2, m);
  }

  lemma {:induction false} StepsAreFollowed<V>(es': seq<Event<V>>, es: seq<Event<V>>, c: nat)
    requires Follows(es', es) && AreSteps(es, c)
    ensures AreSteps(es', c)
    decreases |es|
  {
    if es != [] {
      assert es[0] == Step(c);
      var n: nat :| n <= |es'| && AreSteps(es'[..n], c) && Follows(es'[n..], es[1..]);
      StepsAreFollowed(es'[n..], es[1..], c);
      assert es' == es'[..n] + es'[n..];
    }
  }

  // ---- The exact condition.

  /** The same calls returned the same, at the same times. */
  ghost predicate SameResults<V>(s: State<V>, t: State<V>) {
    && |s.calls| == |t.calls|
    && forall c :: 0 <= c < |s.calls| ==>
         && (s.calls[c].Returned? <==> t.calls[c].Returned?)
         && (s.calls[c].Returned? ==> Bare(s.calls[c]) == Bare(t.calls[c]))
  }

  /** The run from the first state has the same results as one that follows it from the second state. */
  ghost predicate IsReproduced<V(!new)>(s: State<V>, t: State<V>, es: seq<Event<V>>)
    requires IsRun(s, es)
  {
    exists es': seq<Event<V>> :: IsRun(t, es') && Follows(es', es) && SameResults(After(s, es), After(t, es'))
  }

  /** Whatever happens after the removal might have happened without it. */
  ghost predicate IsHarmless<V(!new)>(s: State<V>, removal: Event<V>)
    requires Enabled(s, removal)
  {
    forall es: seq<Event<V>> :: IsRun(Apply(s, removal), es) ==> IsReproduced(Apply(s, removal), s, es)
  }

  /** In any state of any run, removing an expired item makes no difference, for all the results of all the calls in
      every possible continuation, if and only if no replacement in progress already found it live. */
  lemma RemovalIsHarmlessIff<V(!new)>(
      initial: Option<Item<V>>, clock: int, past: seq<Event<V>>, tick: int, seen: Item<V>)
    requires IsRun(Start(initial, clock), past)
    requires var s := After(Start(initial, clock), past); Enabled(s, Cleanup(tick, seen)) && s.cell == Some(seen)
    ensures var s := After(Start(initial, clock), past);
      IsHarmless(s, Cleanup(tick, seen)) <==> !exists c :: 0 <= c < |s.calls| && ReliesOn(s.calls[c], seen)
  {
    InvRun(initial, Start(initial, clock), past);
    var s := After(Start(initial, clock), past);
    var removal := Event<V>.Cleanup(tick, seen);
    InvStep(initial, s, removal);
    hide After, IsRun, Inv, Follows, SameResults;
    if exists c :: 0 <= c < |s.calls| && ReliesOn(s.calls[c], seen) {
      var c :| 0 <= c < |s.calls| && ReliesOn(s.calls[c], seen);
      ReliedOnMatters(initial, s, removal, c);
    } else {
      forall es: seq<Event<V>> | IsRun(Apply(s, removal), es)
        ensures IsReproduced(Apply(s, removal), s, es)
      {
        OthersDontMatter(initial, s, removal, es);
      }
    }
  }

  lemma ReliedOnMatters<V(!new)>(initial: Option<Item<V>>, s: State<V>, removal: Event<V>, c: nat)
    requires Inv(initial, s) && Enabled(s, removal) && removal.Cleanup? && s.cell == Some(removal.seen)
    requires Inv(initial, Apply(s, removal)) && c < |s.calls| && ReliesOn(s.calls[c], removal.seen)
    ensures !IsHarmless(s, removal)
  {
    var s' := Apply(s, removal);
    assert s'.cell == None && s'.calls == s.calls && s.calls[c].op.Replace? by {
      assert IsConsistent(initial, s, c);
    }
    hide Inv, Apply;
    var es := RemovedItIsMissed(ThinOf(s'), c, removal.seen);
    RunIsThin(initial, s', es);
    forall es': seq<Event<V>> | IsRun(s, es') && Follows(es', es)
      ensures !SameResults(After(s', es), After(s, es'))
    {
      StepsAreFollowed(es', es, c);
      RunIsThin(initial, s, es');
      hide Follows, AreSteps, IsRun, After;
      AloneItReplaces(ThinOf(s), es', c, removal.seen);
      DifferentResults(After(s', es), After(s, es'), c, removal.seen);
    }
    hide IsRun, After, Follows, SameResults;
    assert !IsReproduced(s', s, es);
  }

  lemma DifferentResults<V>(s: State<V>, t: State<V>, c: nat, item: Item<V>)
    requires c < |s.calls| && c < |t.calls| && CanReplace(ThinOf(t), c, item)
    requires ThinOf(s).calls[c].Returned? && ThinOf(s).calls[c].result == Replaced(false)
    ensures !SameResults(s, t)
  {
    assert ThinOf(s).calls[c] == Bare(s.calls[c]) && ThinOf(t).calls[c] == Bare(t.calls[c]);
    hide ThinOf;
  }

  lemma OthersDontMatter<V(!new)>(initial: Option<Item<V>>, s: State<V>, removal: Event<V>, es: seq<Event<V>>)
    requires Inv(initial, s) && Enabled(s, removal) && removal.Cleanup? && s.cell == Some(removal.seen)
    requires Inv(initial, Apply(s, removal)) && IsRun(Apply(s, removal), es)
    requires forall c :: 0 <= c < |s.calls| ==> !ReliesOn(s.calls[c], removal.seen)
    ensures IsReproduced(Apply(s, removal), s, es)
  {
    var s' := Apply(s, removal);
    RemovalMatches(initial, s, removal);
    RunIsThin(initial, s', es);
    hide Inv, Apply;
    var es' := MatchRun(ThinOf(s'), ThinOf(s), es);
    RunIsThin(initial, s, es');
    hide IsRun, After, Follows;
    MatchingResults(After(s', es), After(s, es'));
  }

  lemma RemovalMatches<V>(initial: Option<Item<V>>, s: State<V>, removal: Event<V>)
    requires Inv(initial, s) && Enabled(s, removal) && removal.Cleanup? && s.cell == Some(removal.seen)
    requires forall c :: 0 <= c < |s.calls| ==> !ReliesOn(s.calls[c], removal.seen)
    ensures Matches(ThinOf(Apply(s, removal)), ThinOf(s))
  {
    forall c | 0 <= c < |s.calls|
      ensures IsSound(Bare(s.calls[c]), s.clock) && !ReliesOn(Bare(s.calls[c]), removal.seen)
    {
      assert IsConsistent(initial, s, c) && !ReliesOn(s.calls[c], removal.seen);
    }
    hide IsSound, ReliesOn, Inv;
  }

  lemma MatchingResults<V>(s: State<V>, t: State<V>)
    requires Matches(ThinOf(s), ThinOf(t))
    ensures SameResults(s, t)
  {
    forall c | 0 <= c < |s.calls|
      ensures (s.calls[c].Returned? <==> t.calls[c].Returned?)
      ensures s.calls[c].Returned? ==> Bare(s.calls[c]) == Bare(t.calls[c])
    {
      assert IsMatched(ThinOf(s).calls[c], ThinOf(t).calls[c], s.clock);
    }
  }

  // ---- An example.

  /** A replacement with a new deadline finds that the item is live, and then it expires. */
  function Beginning(op: Op<int>, later: int): seq<Event<int>> {
    [Begin(op), Step(0), Step(0), Step(0), Tick(later)]
  }

  function Swapping(item: Item<int>, op: Op<int>, later: int): State<int> {
    State(Some(item), later, [ReplaceSwapping(op, 0, 0, item, 0, 0)], [Entry(0, op, 0, 0, 0, None, false)])
  }

  lemma BeginningSwaps(item: Item<int>, op: Op<int>, later: int, es: seq<Event<int>>)
    requires op.Replace? && op.deadline.Lasting? && !item.Expired(0) && later >= 0
    requires IsRun(Swapping(item, op, later), es)
    ensures var s := Start(Some(item), 0);
      && IsRun(s, Beginning(op, later) + es)
      && After(s, Beginning(op, later) + es) == After(Swapping(item, op, later), es)
  {
    var e0, e1, e2 := Event<int>.Begin(op), Event<int>.Step(0), Event<int>.Tick(later);
    var s0 := Start(Some(item), 0);
    var s1 := Apply(s0, e0);
    var s2 := Apply(s1, e1);
    var s3 := Apply(s2, e1);
    var s4 := Apply(s3, e1);
    assert Apply(s4, e2) == Swapping(item, op, later);
    hide Apply, After, IsRun, Swapping;
    RunOfOne(s4, e2, es);
    RunOfOne(s3, e1, [e2] + es);
    RunOfOne(s2, e1, [e1] + ([e2] + es));
    RunOfOne(s1, e1, [e1] + ([e1] + ([e2] + es)));
    RunOfOne(s0, e0, [e1] + ([e1] + ([e1] + ([e2] + es))));
    assert Beginning(op, later) + es == [e0] + ([e1] + ([e1] + ([e1] + ([e2] + es))));
  }

  lemma SwapSucceeds(item: Item<int>, op: Op<int>, later: int)
    requires op.Replace? && op.deadline.Lasting? && op.deadline.ttl > 0
    ensures var s := Swapping(item, op, later);
      && IsRun(s, [Step(0)])
      && var t := After(s, [Step(0)]);
         && |t.calls| == 1 && t.calls[0].Returned? && t.calls[0].result == Replaced(true)
         && t.cell == Some(CacheSpec.Item(op.value, Some(op.deadline.ttl)))
  {
    var s := Swapping(item, op, later);
    assert IsRun(Apply(s, Step(0)), []);
    RunOfOne(s, Step(0), []);
  }

  lemma SwapFails(item: Item<int>, op: Op<int>, later: int)
    requires op.Replace? && item.Expired(later)
    ensures var s, es := Swapping(item, op, later), [Cleanup(later, item), Step(0), Step(0)];
      && IsRun(s, es)
      && var t := After(s, es);
         |t.calls| == 1 && t.calls[0].Returned? && t.calls[0].result == Replaced(false) && t.cell == None
  {
    var e0, e1 := Event<int>.Cleanup(later, item), Event<int>.Step(0);
    var s := Swapping(item, op, later);
    var s1 := Apply(s, e0);
    var s2 := Apply(s1, e1);
    var s3 := Apply(s2, e1);
    assert IsRun(s3, []) && After(s3, []) == s3;
    assert |s3.calls| == 1 && s3.calls[0].Returned? && s3.calls[0].result == Replaced(false) && s3.cell == None;
    hide Apply, After, IsRun, Swapping;
    RunOfOne(s2, e1, []);
    RunOfOne(s1, e1, [e1] + []);
    RunOfOne(s, e0, [e1] + ([e1] + []));
    assert [e0] + ([e1] + ([e1] + [])) == [e0, e1, e1];
  }

  /** The same replacement with the same steps succeeds without the cleanup, which leaves an item that's live until the
      new deadline, and fails with it, which leaves nothing. */
  lemma CleanupFailsReplacement(item: Item<int>, value: int, ttl: int, later: int)
    requires item.expiration.Some? && 0 <= item.expiration.value < later <= ttl
    ensures var s, op := Start(Some(item), 0), Replace(value, Lasting(ttl));
      var without := Beginning(op, later) + [Step(0)];
      var with := Beginning(op, later) + [Cleanup(later, item), Step(0), Step(0)];
      && IsRun(s, without) && IsRun(s, with)
      && var t, u := After(s, without), After(s, with);
         && |t.calls| == |u.calls| == 1 && t.calls[0].Returned? && u.calls[0].Returned?
         && t.calls[0].result == Replaced(true) && !IsDead(t.cell, later)
         && u.calls[0].result == Replaced(false) && u.cell == None
  {
    var op := Op<int>.Replace(value, Lasting(ttl));
    SwapSucceeds(item, op, later);
    SwapFails(item, op, later);
    hide Apply, After, IsRun, Swapping, Beginning;
    BeginningSwaps(item, op, later, [Step(0)]);
    BeginningSwaps(item, op, later, [Cleanup(later, item), Step(0), Step(0)]);
  }
}
