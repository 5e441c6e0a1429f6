/** What a cache does: a map in which items may expire. An expired item remains stored until some operation, or the
    background cleanup, finds it, but this makes no difference to operations that take effect at a single moment. */
module CacheSpec {
  import opened Wrappers

  datatype Item<V> = Item(value: V, expiration: Option<int>) {
    /** Strictly after the expiration time. */
    predicate Expired(now: int) {
      expiration.Some? && now > expiration.value
    }

    /** Strictly before the expiration time: the views of the whole cache are stricter. */
    predicate InViews(now: int) {
      expiration == None || now < expiration.value
    }
  }

  /** The last option overrides the cache's own interval, and only positive intervals expire. */
  function TimeToLive(default: int, options: seq<int>): int {
    if options == [] then default else options[|options| - 1]
  }

  function Deadline(now: int, default: int, options: seq<int>): Option<int> {
    if TimeToLive(default, options) > 0 then Some(now + TimeToLive(default, options)) else None
  }

  /** Without options, only a positive interval of the cache expires. With options, only a positive last one does. */
  lemma DeadlineAfterOptions(now: int, default: int, options: seq<int>, last: int)
    ensures Deadline(now, default, []) == if default > 0 then Some(now + default) else None
    ensures Deadline(now, default, options + [last]) == if last > 0 then Some(now + last) else None
  {}

  datatype Op<K, V> =
    | Set(key: K, value: V, options: seq<int>)
    | Add(key: K, value: V, options: seq<int>)
    | Replace(key: K, value: V, options: seq<int>)
    | Get(key: K)
    | GetItem(key: K)
    | Delete(key: K)
    | Clear
    | Keys
    | Items
    | ItemCount
    | Len

  datatype Result<K, V> =
    | Nothing
    | Added(value: V, added: bool)
    | Replaced(replaced: bool)
    | Value(found: Option<V>)
    | Found(item: Option<Item<V>>)
    | Deleted(deletedValue: Option<V>, deleted: bool)
    | KeySet(keys: set<K>)
    | ItemMap(items: map<K, Item<V>>)
    | Count(count: nat)

  datatype Outcome<K, V> = Outcome(data: map<K, Item<V>>, result: Result<K, V>)

  predicate IsLive<K, V>(data: map<K, Item<V>>, now: int, key: K) {
    key in data && !data[key].Expired(now)
  }

  ghost function Live<K, V>(data: map<K, Item<V>>, now: int): map<K, Item<V>> {
    map k | k in data && !data[k].Expired(now) :: data[k]
  }

  ghost function View<K, V>(data: map<K, Item<V>>, now: int): map<K, Item<V>> {
    map k | k in data && data[k].InViews(now) :: data[k]
  }

  /** Reading a key removes its item if it's expired. */
  ghost function WithoutExpired<K, V>(data: map<K, Item<V>>, now: int, key: K): map<K, Item<V>> {
    if key in data && data[key].Expired(now) then data - {key} else data
  }

  ghost function After<K, V>(default: int, data: map<K, Item<V>>, now: int, op: Op<K, V>): Outcome<K, V> {
    match op
    case Set(k, v, options) => Outcome(data[k := Item(v, Deadline(now, default, options))], Nothing)
    case Add(k, v, options) =>
      if IsLive(data, now, k) then Outcome(data, Added(data[k].value, false))
      else Outcome(data[k := Item(v, Deadline(now, default, options))], Added(v, true))
    case Replace(k, v, options) =>
      if IsLive(data, now, k) then
        var expiration := if options == [] then data[k].expiration else Deadline(now, default, options);
        Outcome(data[k := Item(v, expiration)], Replaced(true))
      else Outcome(WithoutExpired(data, now, k), Replaced(false))
    case Get(k) =>
      Outcome(WithoutExpired(data, now, k), Value(if IsLive(data, now, k) then Some(data[k].value) else None))
    case GetItem(k) =>
      Outcome(WithoutExpired(data, now, k), Found(if IsLive(data, now, k) then Some(data[k]) else None))
    case Delete(k) =>
      Outcome(data - {k}, Deleted(if k in data then Some(data[k].value) else None, IsLive(data, now, k)))
    case Clear => Outcome(map[], Nothing)
    case Keys => Outcome(data, KeySet(View(data, now).Keys))
    case Items => Outcome(data, ItemMap(View(data, now)))
    case ItemCount => Outcome(data, Count(|View(data, now)|))
    case Len => Outcome(data, Count(|data|))
  }

  /** The total number of items, and the value of an expired item when it's deleted, depend on what's already removed. */
  function Visible<K, V>(op: Op<K, V>, r: Result<K, V>): Result<K, V> {
    if op.Len? then Nothing
    else if r.Deleted? && !r.deleted then Deleted(None, false)
    else r
  }

  /** Live items are those that the views contain, and also those which expire at this very moment. */
  lemma ViewsDifferAtExpiration<K, V>(data: map<K, Item<V>>, now: int, key: K)
    ensures key in Live(data, now) <==>
              key in data && (data[key].expiration == None || now <= data[key].expiration.value)
    ensures key in View(data, now) ==>
              key in Live(data, now) && Live(data, now)[key] == data[key] == View(data, now)[key]
    ensures key in Live(data, now) && key !in View(data, now) <==> key in data && data[key].expiration == Some(now)
  {}

  ghost predicate SameAt<K, V>(a: map<K, Item<V>>, b: map<K, Item<V>>, now: int, k: K) {
    IsLive(a, now, k) == IsLive(b, now, k) && (IsLive(a, now, k) ==> a[k] == b[k])
  }

  /** Everything about an operation's effect is determined by the live items. */
  lemma LiveDecides<K, V>(default: int, a: map<K, Item<V>>, b: map<K, Item<V>>, now: int, op: Op<K, V>)
    requires Live(a, now) == Live(b, now)
    ensures Visible(op, After(default, a, now, op).result) == Visible(op, After(default, b, now, op).result)
    ensures Live(After(default, a, now, op).data, now) == Live(After(default, b, now, op).data, now)
  {
    SameLive(a, b, now);
    SameViews(a, b, now);
    ResultIsDecided(default, a, b, now, op);
    var a', b' := After(default, a, now, op).data, After(default, b, now, op).data;
    forall k
      ensures SameAt(a', b', now, k)
    {
      KeyIsDecided(default, a, b, now, op, k);
    }
    hide After, SameAt;
    LiveIsSame(a', b', now);
  }

  lemma ResultIsDecided<K, V>(default: int, a: map<K, Item<V>>, b: map<K, Item<V>>, now: int, op: Op<K, V>)
    requires View(a, now) == View(b, now)
    requires forall k :: SameAt(a, b, now, k)
    ensures Visible(op, After(default, a, now, op).result) == Visible(op, After(default, b, now, op).result)
  {
    hide View, Deadline, WithoutExpired;
    assert !op.Clear? && !op.Keys? && !op.Items? && !op.ItemCount? && !op.Len? ==> SameAt(a, b, now, op.key);
    hide SameAt;
  }

  lemma KeyIsDecided<K, V>(default: int, a: map<K, Item<V>>, b: map<K, Item<V>>, now: int, op: Op<K, V>, k: K)
    requires forall k :: SameAt(a, b, now, k)
    ensures SameAt(After(default, a, now, op).data, After(default, b, now, op).data, now, k)
  {
    hide View, Deadline;
    assert SameAt(a, b, now, k);
    assert !op.Clear? && !op.Keys? && !op.Items? && !op.ItemCount? && !op.Len? ==> SameAt(a, b, now, op.key);
  }

  lemma SameLive<K, V>(a: map<K, Item<V>>, b: map<K, Item<V>>, now: int)
    requires Live(a, now) == Live(b, now)
    ensures forall k :: SameAt(a, b, now, k)
  {
    forall k
      ensures SameAt(a, b, now, k)
    {
      assert IsLive(a, now, k) == (k in Live(a, now)) && IsLive(b, now, k) == (k in Live(b, now));
      assert IsLive(a, now, k) ==> Live(a, now)[k] == a[k] && Live(b, now)[k] == b[k];
    }
  }

  lemma LiveIsSame<K, V>(a: map<K, Item<V>>, b: map<K, Item<V>>, now: int)
    requires forall k :: SameAt(a, b, now, k)
    ensures Live(a, now) == Live(b, now)
  {
    forall k
      ensures k in Live(a, now) <==> k in Live(b, now)
    {
      assert SameAt(a, b, now, k);
      assert IsLive(a, now, k) == (k in Live(a, now)) && IsLive(b, now, k) == (k in Live(b, now));
    }
    forall k | k in Live(a, now)
      ensures Live(a, now)[k] == Live(b, now)[k]
    {
      assert SameAt(a, b, now, k);
    }
  }

  lemma SameViews<K, V>(a: map<K, Item<V>>, b: map<K, Item<V>>, now: int)
    requires forall k :: SameAt(a, b, now, k)
    ensures View(a, now) == View(b, now)
  {
    forall k
      ensures k in View(a, now) <==> k in View(b, now)
      ensures k in View(a, now) ==> View(a, now)[k] == View(b, now)[k]
    {
      assert SameAt(a, b, now, k);
    }
  }

  /** What's expired now remains expired. */
  lemma LiveLater<K, V>(a: map<K, Item<V>>, b: map<K, Item<V>>, now: int, later: int)
    requires Live(a, now) == Live(b, now) && now <= later
    ensures Live(a, later) == Live(b, later)
  {
    SameLive(a, b, now);
    forall k
      ensures SameAt(a, b, later, k)
    {
      assert SameAt(a, b, now, k);
    }
    LiveIsSame(a, b, later);
  }

  // ---- Background cleanup.

  /** A whole operation of a client, at a single moment, or a step of the background cleanup: it deletes a batch of
      keys, or compares an item that it saw before with the current one and deletes it. The cleanup uses the time at
      which its current round began. */
  datatype Step<K, V> =
    | Do(now: int, op: Op<K, V>)
    | DeleteBatch(now: int, tick: int, batch: set<K>)
    | CompareDelete(now: int, tick: int, key: K, seen: Item<V>)

  ghost function ExpiredIn<K, V>(data: map<K, Item<V>>, tick: int, batch: set<K>): set<K> {
    set k | k in batch && k in data && data[k].Expired(tick)
  }

  ghost function Cleaned<K, V>(data: map<K, Item<V>>, s: Step<K, V>): map<K, Item<V>>
    requires !s.Do?
  {
    match s
    case DeleteBatch(_, tick, batch) => data - ExpiredIn(data, tick, batch)
    case CompareDelete(_, _, k, seen) => if k in data && data[k] == seen then data - {k} else data
  }

  /** Time doesn't go back, and the cleanup only handles items that expired before its round began. */
  ghost predicate AreTimely<K, V>(steps: seq<Step<K, V>>, start: int) {
    steps != [] ==>
      && steps[0].now >= start
      && (!steps[0].Do? ==> steps[0].tick <= steps[0].now)
      && (steps[0].CompareDelete? ==> steps[0].seen.Expired(steps[0].tick))
      && AreTimely(steps[1..], steps[0].now)
  }

  /** What the clients see. */
  ghost function Observed<K, V>(default: int, data: map<K, Item<V>>, steps: seq<Step<K, V>>): seq<Result<K, V>>
    decreases |steps|
  {
    if steps == [] then []
    else if steps[0].Do? then
      var out := After(default, data, steps[0].now, steps[0].op);
      [Visible(steps[0].op, out.result)] + Observed(default, out.data, steps[1..])
    else Observed(default, Cleaned(data, steps[0]), steps[1..])
  }

  function ByClients<K, V>(steps: seq<Step<K, V>>): seq<Step<K, V>> {
    if steps == [] then []
    else if steps[0].Do? then [steps[0]] + ByClients(steps[1..])
    else ByClients(steps[1..])
  }

  /** Cleaning removes nothing but expired items. */
  lemma CleanedKeepsLive<K, V>(data: map<K, Item<V>>, s: Step<K, V>)
    requires !s.Do? && s.tick <= s.now && (s.CompareDelete? ==> s.seen.Expired(s.tick))
    ensures Live(Cleaned(data, s), s.now) == Live(data, s.now)
  {
    var cleaned := Cleaned(data, s);
    forall k
      ensures SameAt(cleaned, data, s.now, k)
    {}
    LiveIsSame(cleaned, data, s.now);
  }

  /** However the steps of the cleanup are interleaved with whole operations of the clients, the clients see the same as
      without any cleanup. */
  lemma {:induction false} CleanupIsInvisible<K, V>(
      default: int, a: map<K, Item<V>>, b: map<K, Item<V>>, steps: seq<Step<K, V>>, start: int)
    requires AreTimely(steps, start) && Live(a, start) == Live(b, start)
    ensures Observed(default, a, steps) == Observed(default, b, ByClients(steps))
    decreases |steps|
  {
    hide After, Live, Cleaned, Visible;
    if steps != [] {
      var s := steps[0];
      LiveLater(a, b, start, s.now);
      if s.Do? {
        LiveDecides(default, a, b, s.now, s.op);
        assert ByClients(steps)[0] == s && ByClients(steps)[1..] == ByClients(steps[1..]);
        var a', b' := After(default, a, s.now, s.op).data, After(default, b, s.now, s.op).data;
        CleanupIsInvisible(default, a', b', steps[1..], s.now);
      } else {
        CleanedKeepsLive(a, s);
        CleanupIsInvisible(default, Cleaned(a, s), b, steps[1..], s.now);
      }
    }
  }

  // ---- What a client may rely on.

  predicate HasKey<K, V>(op: Op<K, V>) {
    op.Set? || op.Add? || op.Replace? || op.Get? || op.GetItem? || op.Delete?
  }

  /** What an operation leaves for its own key, unless it's expired. */
  function Leaves<K, V>(default: int, data: map<K, Item<V>>, now: int, op: Op<K, V>): Option<Item<V>>
    requires HasKey(op)
  {
    var current := if IsLive(data, now, op.key) then Some(data[op.key]) else None;
    match op
    case Set(_, v, options) => Some(Item(v, Deadline(now, default, options)))
    case Add(_, v, options) => if current.Some? then current else Some(Item(v, Deadline(now, default, options)))
    case Replace(_, v, options) =>
      if current == None then None
      else Some(Item(v, if options == [] then current.value.expiration else Deadline(now, default, options)))
    case Delete(_) => None
    case _ => current
  }

  ghost predicate Holds<K, V>(data: map<K, Item<V>>, now: int, key: K, item: Option<Item<V>>) {
    if item == None || item.value.Expired(now) then !IsLive(data, now, key)
    else key in data && data[key] == item.value
  }

  /** The step isn't an operation which may change the given key. */
  predicate Spares<K(==), V>(s: Step<K, V>, key: K) {
    s.Do? ==> !s.op.Clear? && (s.op.Set? || s.op.Add? || s.op.Replace? || s.op.Delete? ==> s.op.key != key)
  }

  ghost function Final<K, V>(default: int, data: map<K, Item<V>>, steps: seq<Step<K, V>>): map<K, Item<V>>
    decreases |steps|
  {
    if steps == [] then data
    else
      var s := steps[0];
      Final(default, if s.Do? then After(default, data, s.now, s.op).data else Cleaned(data, s), steps[1..])
  }

  function End<K, V>(steps: seq<Step<K, V>>, start: int): int {
    if steps == [] then start else steps[|steps| - 1].now
  }

  lemma OperationHolds<K, V>(default: int, data: map<K, Item<V>>, now: int, op: Op<K, V>)
    requires HasKey(op)
    ensures Holds(After(default, data, now, op).data, now, op.key, Leaves(default, data, now, op))
  {
    hide Deadline;
  }

  lemma StepHolds<K, V>(default: int, data: map<K, Item<V>>, s: Step<K, V>, now: int, key: K, item: Option<Item<V>>)
    requires Holds(data, now, key, item) && now <= s.now && Spares(s, key)
    requires (!s.Do? ==> s.tick <= s.now) && (s.CompareDelete? ==> s.seen.Expired(s.tick))
    ensures Holds(if s.Do? then After(default, data, s.now, s.op).data else Cleaned(data, s), s.now, key, item)
  {
    hide View, Deadline;
  }

  lemma {:induction false} StepsHold<K, V>(
      default: int, data: map<K, Item<V>>, steps: seq<Step<K, V>>, now: int, key: K, item: Option<Item<V>>)
    requires Holds(data, now, key, item) && AreTimely(steps, now)
    requires forall i :: 0 <= i < |steps| ==> Spares(steps[i], key)
    ensures Holds(Final(default, data, steps), End(steps, now), key, item)
    decreases |steps|
  {
    hide Holds, After, Cleaned, Spares;
    if steps != [] {
      var s := steps[0];
      assert Spares(s, key);
      StepHolds(default, data, s, now, key, item);
      var data' := if s.Do? then After(default, data, s.now, s.op).data else Cleaned(data, s);
      StepsHold(default, data', steps[1..], s.now, key, item);
      assert End(steps[1..], s.now) == End(steps, now);
    }
  }

  /** Whatever an operation leaves for its key is found until it expires, and never after that, no matter what is done
      meanwhile to other keys, what is only read, and what the background cleanup removes. */
  lemma FoundUntilExpired<K, V>(
      default: int, data: map<K, Item<V>>, now: int, op: Op<K, V>, steps: seq<Step<K, V>>, later: int)
    requires HasKey(op) && AreTimely(steps, now) && later >= End(steps, now)
    requires forall i :: 0 <= i < |steps| ==> Spares(steps[i], op.key)
    ensures var item := Leaves(default, data, now, op);
      var left := Final(default, After(default, data, now, op).data, steps);
      var found := if item == None || item.value.Expired(later) then None else item;
      && After(default, left, later, GetItem(op.key)).result == Found(found)
      && After(default, left, later, Get(op.key)).result
         == Value(if found == None then None else Some(found.value.value))
  {
    OperationHolds(default, data, now, op);
    hide Leaves;
    StepsHold(default, After(default, data, now, op).data, steps, now, op.key, Leaves(default, data, now, op));
    hide Final, AreTimely, Spares;
  }
}
