/** Concurrent reads of the cache under a lock. Reading a key may need the lock twice: to look for the item, and again
    to remove it if it's expired. In between, the lock is free, and the clock is read without it. */
module LeanCacheRaces {
  import opened CacheSpec
  import opened Wrappers

  datatype Moment<K, V> = Moment(data: map<K, Item<V>>, clock: int)

  /** A read began at the moment `since`. It copied an item, at the moment `at`; it found that the copy is expired;
      it returned at the moment `end`. */
  datatype Call<K, V> =
    | Looking(key: K, since: nat)
    | Copied(key: K, since: nat, item: Item<V>, at: nat)
    | LookingAgain(key: K, since: nat)
    | Returned(key: K, since: nat, result: Option<Item<V>>, at: nat, end: nat)

  /** All the moments so far, one for each event, and the current one. */
  datatype State<K, V> = State(calls: seq<Call<K, V>>, past: seq<Moment<K, V>>) {
    predicate HasMoment() {
      past != []
    }

    function Now(): Moment<K, V>
      requires HasMoment()
    {
      past[|past| - 1]
    }
  }

  /** Other operations hold the lock all the time, and so does the cleanup of a batch. */
  datatype Event<K, V> =
    | Begin(key: K)
    | Look(c: nat)
    | Tick(now: int)
    | Operate(op: Op<K, V>)
    | Clean(tick: int, batch: set<K>)

  function Start<K, V>(data: map<K, Item<V>>, clock: int): State<K, V> {
    State([], [Moment(data, clock)])
  }

  predicate Enabled<K, V>(s: State<K, V>, e: Event<K, V>) {
    && s.HasMoment()
    && match e
       case Look(c) => c < |s.calls| && !s.calls[c].Returned?
       case Tick(now) => now >= s.Now().clock
       case Clean(tick, _) => tick <= s.Now().clock
       case _ => true
  }

  ghost function Become<K, V>(s: State<K, V>, c: nat, call: Call<K, V>, data: map<K, Item<V>>): State<K, V>
    requires s.HasMoment() && c < |s.calls|
  {
    State(s.calls[c := call], s.past + [s.Now().(data := data)])
  }

  ghost function LookUp<K, V>(s: State<K, V>, c: nat): State<K, V>
    requires s.HasMoment() && c < |s.calls| && !s.calls[c].Returned?
  {
    var data, clock, now := s.Now().data, s.Now().clock, |s.past| - 1;
    match s.calls[c]
    case Looking(key, since) =>
      if key !in data then Become(s, c, Returned(key, since, None, now, now), data)
      else Become(s, c, Copied(key, since, data[key], now), data)
    case Copied(key, since, item, at) =>
      if item.Expired(clock) then Become(s, c, LookingAgain(key, since), data)
      else Become(s, c, Returned(key, since, Some(item), at, now), data)
    case LookingAgain(key, since) =>
      if key !in data then Become(s, c, Returned(key, since, None, now, now), data)
      else if !data[key].Expired(clock) then Become(s, c, Returned(key, since, Some(data[key]), now, now), data)
      else Become(s, c, Returned(key, since, None, now, now), data - {key})
  }

  ghost function Apply<K, V>(default: int, s: State<K, V>, e: Event<K, V>): State<K, V>
    requires Enabled(s, e)
  {
    match e
    case Begin(key) => State(s.calls + [Looking(key, |s.past| - 1)], s.past + [s.Now()])
    case Look(c) => LookUp(s, c)
    case Tick(now) => s.(past := s.past + [s.Now().(clock := now)])
    case Operate(op) => s.(past := s.past + [s.Now().(data := After(default, s.Now().data, s.Now().clock, op).data)])
    case Clean(tick, batch) =>
      s.(past := s.past + [s.Now().(data := Cleaned(s.Now().data, DeleteBatch(s.Now().clock, tick, batch)))])
  }

  ghost predicate IsRun<K, V>(default: int, s: State<K, V>, es: seq<Event<K, V>>)
    decreases |es|
  {
    es == [] || (Enabled(s, es[0]) && IsRun(default, Apply(default, s, es[0]), es[1..]))
  }

  ghost function Final<K, V>(default: int, s: State<K, V>, es: seq<Event<K, V>>): State<K, V>
    requires IsRun(default, s, es)
    decreases |es|
  {
    if es == [] then s else Final(default, Apply(default, s, es[0]), es[1..])
  }

  /** At that moment, the whole read would have returned the same, and what it would have changed is what happened. */
  ghost predicate TakesEffect<K, V>(default: int, past: seq<Moment<K, V>>, at: nat, key: K, result: Option<Item<V>>) {
    && at < |past|
    && var out := After(default, past[at].data, past[at].clock, GetItem(key));
       && out.result == Found(result)
       && (out.data == past[at].data || (at + 1 < |past| && past[at + 1].data == out.data))
  }

  ghost predicate IsConsistent<K, V>(default: int, past: seq<Moment<K, V>>, call: Call<K, V>)
    requires past != []
  {
    && call.since < |past|
    && (call.Copied? ==>
          && call.since <= call.at < |past| && past[call.at].clock <= past[|past| - 1].clock
          && call.key in past[call.at].data && past[call.at].data[call.key] == call.item)
    && (call.Returned? ==>
          && call.since <= call.at <= call.end < |past|
          && TakesEffect(default, past, call.at, call.key, call.result))
  }

  ghost predicate Inv<K, V>(default: int, s: State<K, V>) {
    s.HasMoment() && forall c :: 0 <= c < |s.calls| ==> IsConsistent(default, s.past, s.calls[c])
  }

  lemma LaterIsConsistent<K, V>(default: int, past: seq<Moment<K, V>>, next: Moment<K, V>, call: Call<K, V>)
    requires past != [] && next.clock >= past[|past| - 1].clock && IsConsistent(default, past, call)
    ensures IsConsistent(default, past + [next], call)
  {
    hide After;
  }

  lemma LookIsConsistent<K, V>(default: int, s: State<K, V>, c: nat)
    requires Inv(default, s) && Enabled(s, Look(c))
    ensures var s' := LookUp(s, c);
      && s'.HasMoment() && s'.past == s.past + [s'.Now()] && s'.Now().clock == s.Now().clock
      && c < |s'.calls| && s'.calls == s.calls[c := s'.calls[c]] && IsConsistent(default, s'.past, s'.calls[c])
  {
    assert IsConsistent(default, s.past, s.calls[c]);
  }

  lemma InvStep<K, V>(default: int, s: State<K, V>, e: Event<K, V>)
    requires Inv(default, s) && Enabled(s, e)
    ensures Inv(default, Apply(default, s, e))
  {
    hide IsConsistent, After, Cleaned, LookUp;
    var s' := Apply(default, s, e);
    if e.Look? {
      LookIsConsistent(default, s, e.c);
    }
    forall c | 0 <= c < |s'.calls|
      ensures IsConsistent(default, s'.past, s'.calls[c])
    {
      if c < |s.calls| && !(e.Look? && c == e.c) {
        LaterIsConsistent(default, s.past, s'.Now(), s.calls[c]);
      } else if e.Begin? {
        BeginningIsConsistent(default, s.past, e.key);
      }
    }
  }

  lemma BeginningIsConsistent<K, V>(default: int, past: seq<Moment<K, V>>, key: K)
    requires past != []
    ensures IsConsistent(default, past + [past[|past| - 1]], Looking(key, |past| - 1))
  {}

  lemma {:induction false} InvRun<K, V>(default: int, s: State<K, V>, es: seq<Event<K, V>>)
    requires Inv(default, s) && IsRun(default, s, es)
    ensures Inv(default, Final(default, s, es))
    decreases |es|
  {
    hide Apply, Enabled, Inv;
    if es != [] {
      InvStep(default, s, es[0]);
      InvRun(default, Apply(default, s, es[0]), es[1..]);
    }
  }

  /** However a read interleaves with other calls and the cleanup, and although it doesn't hold the lock all the time,
      it takes effect at a single moment between its beginning and its end. */
  lemma ReadsAreAtomic<K, V>(default: int, data: map<K, Item<V>>, clock: int, es: seq<Event<K, V>>, c: nat)
    requires IsRun(default, Start(data, clock), es)
    requires var s := Final(default, Start(data, clock), es); c < |s.calls| && s.calls[c].Returned?
    ensures var s := Final(default, Start(data, clock), es);
            var Returned(key, since, result, at, end) := s.calls[c];
            since <= at <= end < |s.past| && TakesEffect(default, s.past, at, key, result)
  {
    InvRun(default, Start(data, clock), es);
    var s := Final(default, Start(data, clock), es);
    hide Final, IsRun, TakesEffect;
    assert IsConsistent(default, s.past, s.calls[c]);
  }
}
