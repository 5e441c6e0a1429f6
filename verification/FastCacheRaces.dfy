/** Concurrent calls on one key of the cache without a lock. Each access to the concurrent map is one step, and each
    reading of the clock is another one, so an item may be replaced, and may expire, between the moment in which a call
    loads it and the moment in which the call checks if it's expired. */
module FastCacheRaces {
  import opened Wrappers
  import CacheSpec

  type Item<V> = CacheSpec.Item<V>

  /** The deadline of a new item is computed when the call begins, except for a replacement: it keeps the current
      deadline, or computes a new one when it reads the clock once more, after it found that the item is live. */
  datatype Op<V> =
    | Set(item: Item<V>)
    | Add(item: Item<V>)
    | Replace(value: V, deadline: Deadline)
    | Read
    | Remove

  datatype Deadline = Kept | Lasting(ttl: int) | Until(expiration: Option<int>)

  datatype Result<V> =
    | Done
    | Added(value: V, added: bool)
    | Replaced(replaced: bool)
    | Found(item: Option<Item<V>>)
    | Removed(removed: Option<V>)

  // ---- The sequential specification.

  datatype Outcome<V> = Outcome(item: Option<Item<V>>, result: Result<V>)

  predicate IsDead<V>(item: Option<Item<V>>, now: int) {
    item == None || item.value.Expired(now)
  }

  function Resolved(d: Deadline, now: int): Deadline {
    if d.Lasting? then Until(if d.ttl > 0 then Some(now + d.ttl) else None) else d
  }

  function Replacement<V>(item: Item<V>, now: int, op: Op<V>): Item<V>
    requires op.Replace?
  {
    var d := Resolved(op.deadline, now);
    CacheSpec.Item(op.value, if d.Until? then d.expiration else item.expiration)
  }

  function Spec<V>(item: Option<Item<V>>, now: int, op: Op<V>): Outcome<V> {
    match op
    case Set(new') => Outcome(Some(new'), Done)
    case Add(new') =>
      if IsDead(item, now) then Outcome(Some(new'), Added(new'.value, true))
      else Outcome(item, Added(item.value.value, false))
    case Replace(_, _) =>
      if IsDead(item, now) then Outcome(item, Replaced(false))
      else Outcome(Some(Replacement(item.value, now, op)), Replaced(true))
    case Read => Outcome(item, Found(if IsDead(item, now) then None else item))
    case Remove => Outcome(None, Removed(if IsDead(item, now) then None else Some(item.value.value)))
  }

  function Stored<K, V>(data: map<K, Item<V>>, key: K): Option<Item<V>> {
    if key in data then Some(data[key]) else None
  }

  /** A call of the whole cache's operation, which begins at the given time. */
  function OnOneKey<K, V>(default: int, now: int, op: CacheSpec.Op<K, V>): Op<V>
    requires CacheSpec.HasKey(op)
  {
    match op
    case Set(_, v, options) => Set(CacheSpec.Item(v, CacheSpec.Deadline(now, default, options)))
    case Add(_, v, options) => Add(CacheSpec.Item(v, CacheSpec.Deadline(now, default, options)))
    case Replace(_, v, options) =>
      Replace(v, if options == [] then Kept else Lasting(CacheSpec.TimeToLive(default, options)))
    case Delete(_) => Remove
    case _ => Read
  }

  /** The same result, except that the value of an expired item isn't reported when it's deleted. */
  predicate IsSameResult<K, V(==)>(r: CacheSpec.Result<K, V>, one: Result<V>) {
    match r
    case Nothing => one == Done
    case Added(v, added) => one == Added(v, added)
    case Replaced(replaced) => one == Replaced(replaced)
    case Found(item) => one == Found(item)
    case Value(found) => one.Found? && found == if one.item == None then None else Some(one.item.value.value)
    case Deleted(v, deleted) => one == Removed(if deleted then v else None)
    case _ => false
  }

  /** At a single moment, the specification of one key is that of the whole cache: the result is the same, and so is the
      item that's left, unless it's expired. All other keys remain as they are. */
  lemma SpecIsOfWholeCache<K, V>(default: int, data: map<K, Item<V>>, now: int, op: CacheSpec.Op<K, V>)
    requires CacheSpec.HasKey(op)
    ensures var whole := CacheSpec.After(default, data, now, op);
      var one := Spec(Stored(data, op.key), now, OnOneKey(default, now, op));
      && IsSameResult(whole.result, one.result)
      && (Stored(whole.data, op.key) == one.item || (Stored(whole.data, op.key) == None && IsDead(one.item, now)))
      && whole.data - {op.key} == data - {op.key}
  {}

  /** An access: which call made it, for which operation, when it was (`moment`), the reading of the clock that
      decided its effect (`at`), which may be later or earlier, and the one that a replacement's new deadline depends on
      (`decided`). As long as the call didn't read the clock, there's no result. Accesses which don't count have no
      effect: their calls went on to others. */
  datatype Entry<V> =
    Entry(call: nat, op: Op<V>, moment: int, at: int, decided: int, result: Option<Result<V>>, counts: bool)

  function EntryItem<V>(item: Option<Item<V>>, e: Entry<V>): Option<Item<V>> {
    if e.counts then Spec(item, e.at, e.op).item else item
  }

  function Replay<V>(initial: Option<Item<V>>, log: seq<Entry<V>>): Option<Item<V>> {
    if log == [] then initial else EntryItem(Replay(initial, log[..|log| - 1]), log[|log| - 1])
  }

  predicate EntryIsLegal<V(==)>(item: Option<Item<V>>, e: Entry<V>) {
    e.counts && e.result.Some? ==> e.result.value == Spec(item, e.at, e.op).result
  }

  /** All the results so far are those of a sequential run, in the order of the log. */
  ghost predicate IsLegal<V>(initial: Option<Item<V>>, log: seq<Entry<V>>) {
    log != [] ==>
      var init := log[..|log| - 1];
      IsLegal(initial, init) && EntryIsLegal(Replay(initial, init), log[|log| - 1])
  }

  // ---- The concurrent calls.

  /** A call began when the log had `start` entries, and the clock read `since`. After it loaded an item, it reads the
      clock. Then it returns, or tries to swap the item, or to remove it before it returns. A replacement with a new
      deadline reads the clock again before it swaps. */
  datatype Call<V> =
    | Calling(op: Op<V>, start: nat, since: int)
    | Loaded(op: Op<V>, start: nat, since: int, actual: Item<V>, entry: nat)
    | AddSwapping(op: Op<V>, start: nat, since: int, actual: Item<V>)
    | Deciding(op: Op<V>, start: nat, since: int, actual: Item<V>, at: int)
    | ReplaceSwapping(op: Op<V>, start: nat, since: int, actual: Item<V>, at: int, decided: int)
    | Removing(op: Op<V>, start: nat, since: int, actual: Item<V>, result: Result<V>, entry: nat)
    | Returned(op: Op<V>, start: nat, since: int, result: Result<V>, entry: nat, end: int)
  {
    /** The call has an entry that counts. */
    predicate TookEffect() {
      Removing? || Returned? || (Loaded? && (op.Read? || op.Remove?))
    }
  }

  datatype State<V> = State(cell: Option<Item<V>>, clock: int, calls: seq<Call<V>>, log: seq<Entry<V>>)

  datatype Event<V> =
    | Begin(op: Op<V>)
    | Tick(now: int)
    | Step(c: nat)
    | Cleanup(tick: int, seen: Item<V>)

  function Start<V>(initial: Option<Item<V>>, clock: int): State<V> {
    State(initial, clock, [], [])
  }

  predicate Enabled<V>(s: State<V>, e: Event<V>) {
    match e
    case Begin(op) => op.Replace? ==> !op.deadline.Until?
    case Tick(now) => now >= s.clock
    case Step(c) => c < |s.calls| && !s.calls[c].Returned?
    case Cleanup(tick, seen) => tick <= s.clock && seen.Expired(tick)
  }

  function Become<V>(s: State<V>, c: nat, call: Call<V>): State<V>
    requires c < |s.calls|
  {
    s.(calls := s.calls[c := call])
  }

  function Appended<V>(
      s: State<V>, c: nat, op: Op<V>, at: int, decided: int, result: Option<Result<V>>, counts: bool): State<V>
  {
    s.(log := s.log + [Entry(c, op, s.clock, at, decided, result, counts)])
  }

  /** The call takes effect, and returns. */
  function Finished<V>(s: State<V>, c: nat, op: Op<V>, at: int, decided: int, result: Result<V>): State<V>
    requires c < |s.calls|
  {
    var call := s.calls[c];
    Become(Appended(s, c, op, at, decided, Some(result), true), c,
      Returned(call.op, call.start, call.since, result, |s.log|, s.clock))
  }

  function CompareAndDelete<V(==)>(cell: Option<Item<V>>, expected: Item<V>): Option<Item<V>> {
    if cell == Some(expected) then None else cell
  }

  /** The first access of a call, or another try after a swap that failed. */
  function Access<V>(s: State<V>, c: nat): State<V>
    requires c < |s.calls| && s.calls[c].Calling?
  {
    var Calling(op, start, since) := s.calls[c];
    match op
    case Set(item) => Finished(s.(cell := Some(item)), c, op, s.clock, s.clock, Done)
    case Add(item) =>
      if s.cell == None then Finished(s.(cell := Some(item)), c, op, s.clock, s.clock, Added(item.value, true))
      else Load(s, c)
    case Replace(_, _) => if s.cell == None then Finished(s, c, op, s.clock, s.clock, Replaced(false)) else Load(s, c)
    case Read => if s.cell == None then Finished(s, c, op, s.clock, s.clock, Found(None)) else Load(s, c)
    case Remove =>
      if s.cell == None then Finished(s, c, op, s.clock, s.clock, Removed(None)) else Load(s, c).(cell := None)
  }

  /** Additions and replacements may still go on to swap the item. */
  function Load<V>(s: State<V>, c: nat): State<V>
    requires c < |s.calls| && s.calls[c].Calling? && s.cell.Some?
  {
    var Calling(op, start, since) := s.calls[c];
    Become(Appended(s, c, op, s.clock, s.clock, None, op.Read? || op.Remove?), c,
      Loaded(op, start, since, s.cell.value, |s.log|))
  }

  /** The loaded item's effect is decided by the current reading of the clock. */
  function Decided<V>(s: State<V>, c: nat, result: Result<V>): State<V>
    requires c < |s.calls| && s.calls[c].Loaded? && s.calls[c].entry < |s.log|
  {
    var i := s.calls[c].entry;
    s.(log := s.log[i := s.log[i].(at := s.clock, decided := s.clock, result := Some(result), counts := true)])
  }

  function ReadClock<V>(s: State<V>, c: nat): State<V>
    requires c < |s.calls| && s.calls[c].Loaded? && s.calls[c].entry < |s.log|
  {
    var Loaded(op, start, since, actual, entry) := s.calls[c];
    var expired := actual.Expired(s.clock);
    match op
    case Remove =>
      var result := Removed(if expired then None else Some(actual.value));
      Become(Decided(s, c, result), c, Returned(op, start, since, result, entry, s.clock))
    case Read =>
      if expired then Become(Decided(s, c, Found(None)), c, Removing(op, start, since, actual, Found(None), entry))
      else
        var result := Found(Some(actual));
        Become(Decided(s, c, result), c, Returned(op, start, since, result, entry, s.clock))
    case Replace(_, _) =>
      if expired then
        Become(Decided(s, c, Replaced(false)), c, Removing(op, start, since, actual, Replaced(false), entry))
      else if op.deadline.Kept? then Become(s, c, ReplaceSwapping(op, start, since, actual, s.clock, s.clock))
      else Become(s, c, Deciding(op, start, since, actual, s.clock))
    case _ =>
      if expired then Become(s, c, AddSwapping(op, start, since, actual))
      else
        var result := Added(actual.value, false);
        Become(Decided(s, c, result), c, Returned(op, start, since, result, entry, s.clock))
  }

  ghost function Apply<V>(s: State<V>, e: Event<V>): State<V>
    requires Enabled(s, e)
  {
    match e
    case Begin(op) => s.(calls := s.calls + [Calling(op, |s.log|, s.clock)])
    case Tick(now) => s.(clock := now)
    case Cleanup(_, seen) => s.(cell := CompareAndDelete(s.cell, seen))
    case Step(c) =>
      match s.calls[c]
      case Calling(_, _, _) => Access(s, c)
      case Loaded(_, _, _, _, entry) => if entry < |s.log| then ReadClock(s, c) else s
      case AddSwapping(op, start, since, actual) =>
        if op.Add? && s.cell == Some(actual)
        then Finished(s.(cell := Some(op.item)), c, op, s.clock, s.clock, Added(op.item.value, true))
        else Become(s, c, Calling(op, start, since))
      case Deciding(op, start, since, actual, at) =>
        Become(s, c, ReplaceSwapping(op, start, since, actual, at, s.clock))
      case ReplaceSwapping(op, start, since, actual, at, decided) =>
        if op.Replace? && s.cell == Some(actual)
        then Finished(s.(cell := Some(Replacement(actual, decided, op))), c,
               op.(deadline := Resolved(op.deadline, decided)), at, decided, Replaced(true))
        else Become(s, c, Calling(op, start, since))
      case Removing(op, start, since, actual, result, entry) =>
        Become(s, c, Returned(op, start, since, result, entry, s.clock)).(cell := CompareAndDelete(s.cell, actual))
  }

  ghost predicate IsRun<V>(s: State<V>, es: seq<Event<V>>)
    decreases |es|
  {
    es == [] || (Enabled(s, es[0]) && IsRun(Apply(s, es[0]), es[1..]))
  }

  ghost function After<V>(s: State<V>, es: seq<Event<V>>): State<V>
    requires IsRun(s, es)
    decreases |es|
  {
    if es == [] then s else After(Apply(s, es[0]), es[1..])
  }

  lemma RunOfOne<V>(s: State<V>, e: Event<V>, es: seq<Event<V>>)
    requires Enabled(s, e) && IsRun(Apply(s, e), es)
    ensures IsRun(s, [e] + es) && After(s, [e] + es) == After(Apply(s, e), es)
  {
    assert ([e] + es)[1..] == es;
  }

  // ---- The sequential log.

  /** Changing an entry that changes nothing, so that it still changes nothing, doesn't affect what comes after it. */
  lemma {:induction false} ReplayWithNeutral<V>(initial: Option<Item<V>>, log: seq<Entry<V>>, i: nat, e: Entry<V>)
    requires i < |log|
    requires var before := Replay(initial, log[..i]); EntryItem(before, e) == EntryItem(before, log[i])
    ensures Replay(initial, log[i := e]) == Replay(initial, log)
    ensures EntryIsLegal(Replay(initial, log[..i]), e) && IsLegal(initial, log) ==> IsLegal(initial, log[i := e])
    decreases |log|
  {
    hide EntryItem, EntryIsLegal;
    var init := log[..|log| - 1];
    if i == |log| - 1 {
      assert log[i := e][..|log| - 1] == init;
    } else {
      assert init[..i] == log[..i];
      ReplayWithNeutral(initial, init, i, e);
      assert log[i := e][..|log| - 1] == init[i := e];
    }
  }

  lemma ReplayPrefix<V>(initial: Option<Item<V>>, log: seq<Entry<V>>, i: nat, e: Entry<V>, j: nat)
    requires i < |log| && j <= |log|
    requires var before := Replay(initial, log[..i]); EntryItem(before, e) == EntryItem(before, log[i])
    ensures Replay(initial, log[i := e][..j]) == Replay(initial, log[..j])
  {
    hide EntryItem, Replay;
    if i < j {
      assert log[..j][..i] == log[..i];
      ReplayWithNeutral(initial, log[..j], i, e);
      assert log[i := e][..j] == log[..j][i := e];
    } else {
      assert log[i := e][..j] == log[..j];
    }
  }

  /** The stored item is the one that the sequential run stores, or it's gone because that one is expired. */
  predicate IsSame<V(==)>(cell: Option<Item<V>>, item: Option<Item<V>>, clock: int) {
    cell == item || (cell == None && item.value.Expired(clock))
  }

  /** The operation in the log is the call's own, where the deadline of a replacement may already be computed. */
  predicate IsOf<V(==)>(e: Entry<V>, op: Op<V>) {
    e.op == op || (op.Replace? && e.op == op.(deadline := Resolved(op.deadline, e.decided)))
  }

  ghost predicate OwnsEntry<V>(s: State<V>, c: nat, entry: nat)
    requires c < |s.calls|
  {
    var call := s.calls[c];
    && call.start <= entry < |s.log|
    && s.log[entry].call == c && IsOf(s.log[entry], call.op)
    && call.since <= s.log[entry].moment <= s.clock && call.since <= s.log[entry].at <= s.clock
    && s.log[entry].at <= s.log[entry].decided <= s.clock
  }

  ghost predicate IsConsistent<V>(initial: Option<Item<V>>, s: State<V>, c: nat)
    requires c < |s.calls|
  {
    var call := s.calls[c];
    && call.start <= |s.log| && call.since <= s.clock && (call.op.Replace? ==> !call.op.deadline.Until?)
    && (call.Loaded? ==>
          && OwnsEntry(s, c, call.entry) && s.log[call.entry].op == call.op && s.log[call.entry].result == None
          && s.log[call.entry].counts == call.TookEffect() && !call.op.Set?
          && Replay(initial, s.log[..call.entry]) == Some(call.actual))
    && (call.AddSwapping? ==> call.op.Add? && call.actual.Expired(s.clock))
    && (call.Deciding? || call.ReplaceSwapping? ==>
          call.op.Replace? && !call.actual.Expired(call.at) && call.since <= call.at <= s.clock)
    && (call.ReplaceSwapping? ==> call.at <= call.decided <= s.clock)
    && (call.Removing? ==> call.actual.Expired(s.clock) && (call.op.Read? || call.op.Replace?))
    && (call.Removing? || call.Returned? ==>
          OwnsEntry(s, c, call.entry) && s.log[call.entry].counts && s.log[call.entry].result == Some(call.result))
    && (call.Returned? ==>
          && s.log[call.entry].moment <= call.end <= s.clock && s.log[call.entry].at <= call.end
          && s.log[call.entry].decided <= call.end)
  }

  /** An effect without a result yet doesn't depend on it, and a replacement that took effect has its deadline. */
  predicate IsDetermined<V>(e: Entry<V>) {
    e.counts ==>
      && (e.result.None? ==> e.op.Read? || e.op.Remove?)
      && (e.result.Some? && e.op.Replace? && e.op.deadline.Lasting? ==> e.result.value == Replaced(false))
  }

  ghost predicate HasCall<V>(s: State<V>, i: nat)
    requires i < |s.log|
  {
    var e := s.log[i];
    && e.call < |s.calls| && e.moment <= s.clock && IsDetermined(e)
    && (e.counts ==> s.calls[e.call].TookEffect() && s.calls[e.call].entry == i)
  }

  ghost predicate AreOrdered<V>(log: seq<Entry<V>>) {
    forall i, j :: 0 <= i < j < |log| ==> log[i].moment <= log[j].moment
  }

  ghost predicate Inv<V>(initial: Option<Item<V>>, s: State<V>) {
    && IsLegal(initial, s.log) && AreOrdered(s.log)
    && IsSame(s.cell, Replay(initial, s.log), s.clock)
    && (forall c :: 0 <= c < |s.calls| ==> IsConsistent(initial, s, c))
    && (forall i :: 0 <= i < |s.log| ==> HasCall(s, i))
  }

  // ---- Each step keeps the correspondence.

  /** Only the given call changes. */
  ghost predicate ChangesCall<V>(s: State<V>, s': State<V>, c: nat) {
    && c < |s.calls| == |s'.calls| && s'.calls == s.calls[c := s'.calls[c]] && s'.clock == s.clock
    && s'.calls[c].op == s.calls[c].op && s'.calls[c].start == s.calls[c].start && s'.calls[c].since == s.calls[c].since
  }

  /** A step which doesn't change the log. */
  lemma InnerStepKeeps<V>(initial: Option<Item<V>>, s: State<V>, c: nat, s': State<V>)
    requires Inv(initial, s) && ChangesCall(s, s', c) && s'.log == s.log
    requires IsSame(s'.cell, Replay(initial, s.log), s.clock) && IsConsistent(initial, s', c)
    requires s.calls[c].TookEffect() ==> s'.calls[c].TookEffect() && s'.calls[c].entry == s.calls[c].entry
    ensures Inv(initial, s')
  {
    hide IsSame, IsLegal, Replay, AreOrdered, IsOf;
    forall d | 0 <= d < |s'.calls|
      ensures IsConsistent(initial, s', d)
    {
      assert IsConsistent(initial, s, d);
    }
    hide IsConsistent;
    forall i | 0 <= i < |s'.log|
      ensures HasCall(s', i)
    {
      assert HasCall(s, i);
    }
  }

  lemma AppendKeepsCalls<V>(initial: Option<Item<V>>, s: State<V>, c: nat, e: Entry<V>, s': State<V>)
    requires Inv(initial, s) && ChangesCall(s, s', c) && s'.log == s.log + [e] && IsConsistent(initial, s', c)
    ensures forall d :: 0 <= d < |s'.calls| ==> IsConsistent(initial, s', d)
  {
    hide IsSame, IsLegal, Replay, IsOf, AreOrdered, HasCall;
    forall d | 0 <= d < |s'.calls|
      ensures IsConsistent(initial, s', d)
    {
      if d != c {
        assert IsConsistent(initial, s, d);
        if s.calls[d].Loaded? {
          assert s'.log[..s.calls[d].entry] == s.log[..s.calls[d].entry];
        }
      }
    }
  }

  lemma AppendKeepsEntries<V>(initial: Option<Item<V>>, s: State<V>, c: nat, e: Entry<V>, s': State<V>)
    requires Inv(initial, s) && ChangesCall(s, s', c) && !s.calls[c].TookEffect()
    requires s'.log == s.log + [e] && e.call == c && e.moment == s.clock && IsDetermined(e)
    requires e.counts ==> s'.calls[c].TookEffect() && s'.calls[c].entry == |s.log|
    ensures forall i :: 0 <= i < |s'.log| ==> HasCall(s', i)
    ensures AreOrdered(s'.log)
  {
    hide IsSame, IsLegal, Replay, IsDetermined, IsConsistent;
    forall i | 0 <= i < |s'.log|
      ensures HasCall(s', i) && s'.log[i].moment <= s.clock
    {
      assert i < |s.log| ==> HasCall(s, i);
    }
    hide HasCall;
  }

  /** A step which adds an entry for a call that didn't take effect yet. */
  lemma AppendKeeps<V>(initial: Option<Item<V>>, s: State<V>, c: nat, e: Entry<V>, s': State<V>)
    requires Inv(initial, s) && ChangesCall(s, s', c) && !s.calls[c].TookEffect()
    requires s'.log == s.log + [e] && e.call == c && e.moment == s.clock && IsDetermined(e)
    requires e.counts ==> s'.calls[c].TookEffect() && s'.calls[c].entry == |s.log|
    requires EntryIsLegal(Replay(initial, s.log), e)
    requires IsSame(s'.cell, EntryItem(Replay(initial, s.log), e), s.clock)
    requires IsConsistent(initial, s', c)
    ensures Inv(initial, s')
  {
    hide EntryItem, EntryIsLegal, IsSame, IsConsistent, HasCall, AreOrdered, IsDetermined;
    AppendKeepsCalls(initial, s, c, e, s');
    AppendKeepsEntries(initial, s, c, e, s');
    assert s'.log[..|s.log|] == s.log;
  }

  /** A step which decides the effect of an earlier load: the item that's stored next isn't affected. */
  lemma DecisionKeeps<V>(initial: Option<Item<V>>, s: State<V>, c: nat, result: Result<V>, s': State<V>)
    requires Inv(initial, s) && ChangesCall(s, s', c) && s.calls[c].Loaded?
    requires s.calls[c].entry < |s.log| && s'.log == Decided(s, c, result).log && s'.cell == s.cell
    requires var i := s.calls[c].entry;
      var out := Spec(Some(s.calls[c].actual), s.clock, s.calls[c].op);
      && result == out.result
      && out.item == (if s.calls[c].op.Remove? then None else Some(s.calls[c].actual))
      && s'.calls[c].TookEffect() && s'.calls[c].entry == i && !s'.calls[c].Loaded? && s'.calls[c].result == result
      && (s'.calls[c].Removing? ==>
            s'.calls[c].actual.Expired(s.clock) && (s.calls[c].op.Read? || s.calls[c].op.Replace?))
      && (s'.calls[c].Returned? ==> s'.calls[c].end == s.clock)
    requires s.calls[c].op.Replace? ==> result == Replaced(false)
    ensures Inv(initial, s')
  {
    var i := s.calls[c].entry;
    assert IsConsistent(initial, s, c) && HasCall(s, i);
    var e := s'.log[i];
    assert s'.log == s.log[i := e];
    var before := Replay(initial, s.log[..i]);
    assert EntryItem(before, e) == EntryItem(before, s.log[i]) && EntryIsLegal(before, e);
    ReplayWithNeutral(initial, s.log, i, e);
    assert IsDetermined(e);
    hide EntryItem, EntryIsLegal, IsSame, IsLegal, Spec, Decided;
    DecisionKeepsOthers(initial, s, c, s', e);
    hide Replay;
    assert AreOrdered(s'.log);
    hide AreOrdered;
    forall j | 0 <= j < |s'.log|
      ensures HasCall(s', j)
    {
      assert HasCall(s, j);
    }
    hide HasCall, IsConsistent;
  }

  lemma DecisionKeepsOthers<V>(initial: Option<Item<V>>, s: State<V>, c: nat, s': State<V>, e: Entry<V>)
    requires Inv(initial, s) && ChangesCall(s, s', c) && s.calls[c].Loaded? && s.calls[c].entry < |s.log|
    requires var i := s.calls[c].entry;
      && s'.log == s.log[i := e]
      && e == s.log[i].(at := s.clock, decided := s.clock, result := e.result, counts := true)
      && EntryItem(Replay(initial, s.log[..i]), e) == EntryItem(Replay(initial, s.log[..i]), s.log[i])
      && s'.calls[c].TookEffect() && s'.calls[c].entry == i && !s'.calls[c].Loaded?
      && e.result == Some(s'.calls[c].result)
      && (s'.calls[c].Removing? ==>
            s'.calls[c].actual.Expired(s.clock) && (s.calls[c].op.Read? || s.calls[c].op.Replace?))
      && (s'.calls[c].Returned? ==> s'.calls[c].end == s.clock)
    ensures forall d :: 0 <= d < |s'.calls| ==> IsConsistent(initial, s', d)
  {
    hide EntryItem, EntryIsLegal, IsSame, IsLegal, Replay;
    var i := s.calls[c].entry;
    forall d | 0 <= d < |s'.calls|
      ensures IsConsistent(initial, s', d)
    {
      assert IsConsistent(initial, s, d) && IsConsistent(initial, s, c) && HasCall(s, i);
      if d != c && s.calls[d].Loaded? {
        ReplayPrefix(initial, s.log, i, e, s.calls[d].entry);
      }
    }
  }

  /** An access which takes effect at once does what the sequential specification says. */
  lemma AccessFollowsSpec<V>(s: State<V>, c: nat, item: Option<Item<V>>)
    requires c < |s.calls| && s.calls[c].Calling? && IsSame(s.cell, item, s.clock)
    ensures var s' := Access(s, c);
      && ChangesCall(s, s', c) && |s'.log| == |s.log| + 1 && s'.log[..|s.log|] == s.log
      && var e := s'.log[|s.log|];
      && e.call == c && e.moment == e.at == e.decided == s.clock && e.op == s.calls[c].op && IsDetermined(e)
      && IsSame(s'.cell, EntryItem(item, e), s.clock) && EntryIsLegal(item, e)
      && (s'.calls[c].Returned? || (s'.calls[c].Loaded? && item == Some(s'.calls[c].actual)))
      && (s'.calls[c].Returned? ==> e.counts && e.result == Some(s'.calls[c].result) && s'.calls[c].end == s.clock)
      && (s'.calls[c].Loaded? ==>
            e.result == None && e.counts == s'.calls[c].TookEffect() && !s.calls[c].op.Set?)
      && s'.calls[c].entry == |s.log|
  {}

  lemma AccessKeeps<V>(initial: Option<Item<V>>, s: State<V>, c: nat)
    requires Inv(initial, s) && c < |s.calls| && s.calls[c].Calling?
    ensures Inv(initial, Access(s, c))
  {
    assert IsConsistent(initial, s, c);
    var s' := Access(s, c);
    AccessFollowsSpec(s, c, Replay(initial, s.log));
    hide Access, Replay, IsLegal, HasCall, IsSame, Inv, EntryItem, EntryIsLegal, AreOrdered;
    var e := s'.log[|s.log|];
    assert s'.log == s.log + [e];
    assert IsConsistent(initial, s', c);
    AppendKeeps(initial, s, c, e, s');
  }

  predicate LeadsOn<V>(call: Call<V>) {
    call.AddSwapping? || call.Deciding? || call.ReplaceSwapping?
  }

  lemma ReadingLeadsOn<V>(initial: Option<Item<V>>, s: State<V>, c: nat)
    requires Inv(initial, s) && c < |s.calls| && s.calls[c].Loaded? && s.calls[c].entry < |s.log|
    requires LeadsOn(ReadClock(s, c).calls[c])
    ensures Inv(initial, ReadClock(s, c))
  {
    hide Replay, IsLegal, HasCall, IsSame, AreOrdered, IsOf;
    assert IsConsistent(initial, s, c);
    InnerStepKeeps(initial, s, c, ReadClock(s, c));
    hide Inv;
  }

  lemma ReadingDecides<V>(initial: Option<Item<V>>, s: State<V>, c: nat)
    requires Inv(initial, s) && c < |s.calls| && s.calls[c].Loaded? && s.calls[c].entry < |s.log|
    requires !LeadsOn(ReadClock(s, c).calls[c])
    ensures Inv(initial, ReadClock(s, c))
  {
    hide Replay, IsLegal, HasCall, IsSame, AreOrdered, IsOf;
    assert !s.calls[c].op.Set? by {
      assert IsConsistent(initial, s, c);
    }
    hide IsConsistent, Inv;
    var s' := ReadClock(s, c);
    DecisionKeeps(initial, s, c, s'.calls[c].result, s');
  }

  lemma ReadingKeeps<V>(initial: Option<Item<V>>, s: State<V>, c: nat)
    requires Inv(initial, s) && c < |s.calls| && s.calls[c].Loaded? && s.calls[c].entry < |s.log|
    ensures Inv(initial, ReadClock(s, c))
  {
    hide Inv, LeadsOn;
    if LeadsOn(ReadClock(s, c).calls[c]) {
      ReadingLeadsOn(initial, s, c);
    } else {
      ReadingDecides(initial, s, c);
    }
  }

  /** A swap takes effect at once: an addition finds the key dead now, a replacement found it live before. */
  lemma SwapFollowsSpec<V>(s: State<V>, c: nat, item: Option<Item<V>>)
    requires c < |s.calls| && (s.calls[c].AddSwapping? || s.calls[c].ReplaceSwapping?)
    requires var call := s.calls[c];
      && (call.AddSwapping? ==> call.op.Add? && call.actual.Expired(s.clock))
      && (call.ReplaceSwapping? ==> call.op.Replace? && !call.op.deadline.Until? && !call.actual.Expired(call.at))
      && s.cell == Some(call.actual) && IsSame(s.cell, item, s.clock)
    ensures var s', call := Apply(s, Step(c)), s.calls[c];
      && ChangesCall(s, s', c) && |s'.log| == |s.log| + 1 && s'.log[..|s.log|] == s.log
      && var e := s'.log[|s.log|];
      && e.call == c && e.moment == s.clock && e.at == (if call.AddSwapping? then s.clock else call.at)
      && e.decided == (if call.AddSwapping? then s.clock else call.decided)
      && IsOf(e, call.op) && e.counts && IsDetermined(e)
      && IsSame(s'.cell, EntryItem(item, e), s.clock) && EntryIsLegal(item, e)
      && s'.calls[c].Returned? && e.result == Some(s'.calls[c].result)
      && s'.calls[c].entry == |s.log| && s'.calls[c].end == s.clock
  {
    hide Access, ReadClock;
  }

  lemma SwapKeeps<V>(initial: Option<Item<V>>, s: State<V>, c: nat)
    requires Inv(initial, s) && c < |s.calls| && (s.calls[c].AddSwapping? || s.calls[c].ReplaceSwapping?)
    ensures Inv(initial, Apply(s, Step(c)))
  {
    assert IsConsistent(initial, s, c);
    hide Access, ReadClock, Replay, IsLegal, HasCall, AreOrdered;
    var s', item := Apply(s, Step(c)), Replay(initial, s.log);
    if s.cell == Some(s.calls[c].actual) {
      SwapFollowsSpec(s, c, item);
      hide IsSame, EntryItem, EntryIsLegal, Apply, Inv;
      var e := s'.log[|s.log|];
      assert s'.log == s.log + [e];
      AppendKeeps(initial, s, c, e, s');
    } else {
      InnerStepKeeps(initial, s, c, s');
      hide Inv;
    }
  }

  lemma StepKeeps<V>(initial: Option<Item<V>>, s: State<V>, c: nat)
    requires Inv(initial, s) && Enabled(s, Step(c))
    ensures Inv(initial, Apply(s, Step(c)))
  {
    hide Access, ReadClock, Replay, IsLegal, HasCall, AreOrdered;
    assert IsConsistent(initial, s, c);
    match s.calls[c]
    case Calling(_, _, _) => AccessKeeps(initial, s, c); hide Inv;
    case Loaded(_, _, _, _, _) => ReadingKeeps(initial, s, c); hide Inv;
    case Deciding(_, _, _, _, _) =>
      InnerStepKeeps(initial, s, c, Apply(s, Step(c)));
      hide Inv;
    case Removing(_, _, _, _, _, _) =>
      InnerStepKeeps(initial, s, c, Apply(s, Step(c)));
      hide Inv;
    case _ => SwapKeeps(initial, s, c); hide Inv;
  }

  lemma OtherStepKeeps<V>(initial: Option<Item<V>>, s: State<V>, e: Event<V>)
    requires Inv(initial, s) && Enabled(s, e) && !e.Step?
    ensures Inv(initial, Apply(s, e))
  {
    hide Replay, IsLegal, AreOrdered;
    var s' := Apply(s, e);
    assert IsSame(s'.cell, Replay(initial, s.log), s'.clock);
    forall c | 0 <= c < |s'.calls|
      ensures IsConsistent(initial, s', c)
    {
      assert c < |s.calls| ==> IsConsistent(initial, s, c);
    }
    hide IsConsistent, IsSame;
    forall i | 0 <= i < |s'.log|
      ensures HasCall(s', i)
    {
      assert HasCall(s, i);
    }
    hide HasCall;
  }

  lemma InvStep<V>(initial: Option<Item<V>>, s: State<V>, e: Event<V>)
    requires Inv(initial, s) && Enabled(s, e)
    ensures Inv(initial, Apply(s, e))
  {
    hide Inv, Apply;
    if e.Step? {
      StepKeeps(initial, s, e.c);
    } else {
      OtherStepKeeps(initial, s, e);
    }
  }

  lemma {:induction false} InvRun<V>(initial: Option<Item<V>>, s: State<V>, es: seq<Event<V>>)
    requires Inv(initial, s) && IsRun(s, es)
    ensures Inv(initial, After(s, es))
    decreases |es|
  {
    hide Inv, Apply, Enabled;
    if es != [] {
      InvStep(initial, s, es[0]);
      InvRun(initial, Apply(s, es[0]), es[1..]);
    }
  }
}
