/** The cache that prioritizes speed over memory: a concurrent map without a lock, whose own operations are atomic, and
    loops of comparing and swapping. Here its methods run without interference: each of them does exactly the same as
    the same method of the other cache. */
module FastCaches {
  import opened CacheSpec
  import opened LeanCaches
  import opened Wrappers

  class FastCache<K(==), V(==)> {
    const expiration: int
    var m: map<K, Item<V>>

    constructor (expiration: int)
      ensures m == map[] && this.expiration == expiration
    {
      this.expiration := expiration;
      m := map[];
    }

    // ---- The operations of the concurrent map.

    method LoadOrStore(key: K, item: Item<V>) returns (actual: Item<V>, loaded: bool)
      modifies this
      ensures loaded == (key in old(m))
      ensures if loaded then actual == old(m)[key] && m == old(m) else actual == item && m == old(m)[key := item]
    {
      loaded := key in m;
      if !loaded {
        m := m[key := item];
      }
      actual := m[key];
    }

    method CompareAndSwap(key: K, expected: Item<V>, item: Item<V>) returns (swapped: bool)
      modifies this
      ensures swapped == (key in old(m) && old(m)[key] == expected)
      ensures m == if swapped then old(m)[key := item] else old(m)
    {
      swapped := key in m && m[key] == expected;
      if swapped {
        m := m[key := item];
      }
    }

    method CompareAndDelete(key: K, expected: Item<V>) returns (deleted: bool)
      modifies this
      ensures deleted == (key in old(m) && old(m)[key] == expected)
      ensures m == if deleted then old(m) - {key} else old(m)
      ensures m == Cleaned(old(m), CompareDelete(0, 0, key, expected))
    {
      deleted := key in m && m[key] == expected;
      if deleted {
        m := m - {key};
      }
    }

    // ---- The operations of the cache.

    method Set(now: int, key: K, value: V, options: seq<int>)
      modifies this
      ensures Outcome(m, Nothing) == After(expiration, old(m), now, Op.Set(key, value, options))
      ensures m == old(m)[key := Item(value, Deadline(now, expiration, options))]
    {
      var deadline := DurationOptionToTime(expiration, now, options);
      m := m[key := Item(value, deadline)];
    }

    method Add(now: int, key: K, value: V, options: seq<int>) returns (current: V, added: bool)
      modifies this
      ensures Outcome(m, Added(current, added)) == After(expiration, old(m), now, Op.Add(key, value, options))
      ensures added <==> !(key in old(m) && !old(m)[key].Expired(now))
      ensures current == (if added then value else old(m)[key].value)
      ensures m == if added then old(m)[key := Item(value, Deadline(now, expiration, options))] else old(m)
    {
      var deadline := DurationOptionToTime(expiration, now, options);
      var newItem := Item(value, deadline);
      current, added := value, false;
      while !added
        invariant added ==> Outcome(m, Added(current, true)) == After(expiration, old(m), now, Op.Add(key, value, options))
        invariant !added ==> m == old(m)
        invariant current == value
        decreases !added
      {
        var actual, loaded := LoadOrStore(key, newItem);
        if !loaded {
          return value, true;
        }
        if !actual.Expired(now) {
          return actual.value, false;
        }
        added := CompareAndSwap(key, actual, newItem);
      }
    }

    method Replace(now: int, key: K, value: V, options: seq<int>) returns (replaced: bool)
      modifies this
      ensures Outcome(m, Replaced(replaced)) == After(expiration, old(m), now, Op.Replace(key, value, options))
      ensures replaced <==> key in old(m) && !old(m)[key].Expired(now)
      ensures replaced ==>
        var deadline := if options == [] then old(m)[key].expiration else Deadline(now, expiration, options);
        m == old(m)[key := Item(value, deadline)]
      ensures !replaced ==> m == old(m) - {key}
    {
      var newItem := Item(value, None);
      replaced := false;
      while !replaced
        invariant replaced ==>
          Outcome(m, Replaced(true)) == After(expiration, old(m), now, Op.Replace(key, value, options))
        invariant !replaced ==> m == old(m)
        invariant newItem.value == value
        decreases !replaced
      {
        if key !in m {
          return false;
        }
        var item := m[key];
        if item.Expired(now) {
          var _ := CompareAndDelete(key, item);
          return false;
        }
        newItem := newItem.(expiration := item.expiration);
        if |options| > 0 {
          var deadline := DurationOptionToTime(expiration, now, options);
          newItem := newItem.(expiration := deadline);
        }
        replaced := CompareAndSwap(key, item, newItem);
      }
    }

    method Get(now: int, key: K) returns (value: Option<V>)
      modifies this
      ensures Outcome(m, Value(value)) == After(expiration, old(m), now, Op.Get(key))
      ensures value == if key in old(m) && !old(m)[key].Expired(now) then Some(old(m)[key].value) else None
      ensures m == if value.Some? then old(m) else old(m) - {key}
    {
      var item := GetItem(now, key);
      if item.Some? {
        return Some(item.value.value);
      }
      return None;
    }

    method Delete(key: K, now: int) returns (value: Option<V>, deleted: bool)
      modifies this
      ensures Outcome(m, Deleted(value, deleted)) == After(expiration, old(m), now, Op.Delete(key))
      ensures value == if key in old(m) then Some(old(m)[key].value) else None
      ensures deleted <==> key in old(m) && !old(m)[key].Expired(now)
      ensures m == old(m) - {key}
    {
      value, deleted := None, false;
      if key in m {
        value, deleted := Some(m[key].value), !m[key].Expired(now);
        m := m - {key};
      }
      assert key !in old(m) ==> old(m) - {key} == old(m);
    }

    method Clear()
      modifies this
      ensures m == map[]
      ensures Outcome(m, Nothing) == After(expiration, old(m), 0, Op.Clear)
    {
      m := map[];
    }

    method GetItem(now: int, key: K) returns (item: Option<Item<V>>)
      modifies this
      ensures Outcome(m, Found(item)) == After(expiration, old(m), now, Op.GetItem(key))
      ensures item == if key in old(m) && !old(m)[key].Expired(now) then Some(old(m)[key]) else None
      ensures m == if item.Some? then old(m) else old(m) - {key}
    {
      if key in m {
        var v := m[key];
        if !v.Expired(now) {
          return Some(v);
        }
        var _ := CompareAndDelete(key, v);
      }
      return None;
    }

    method Keys(now: int) returns (keys: seq<K>)
      ensures forall k :: k in keys <==> k in View(m, now)
      ensures forall i, j :: 0 <= i < j < |keys| ==> keys[i] != keys[j]
      ensures Outcome(m, KeySet(set k | k in keys)) == After(expiration, m, now, Op.Keys)
    {
      keys := [];
      var rest := m.Keys;
      while rest != {}
        invariant rest <= m.Keys
        invariant forall k :: k in keys <==> k in m.Keys - rest && m[k].InViews(now)
        invariant forall i, j :: 0 <= i < j < |keys| ==> keys[i] != keys[j]
        decreases rest
      {
        var k :| k in rest;
        if m[k].InViews(now) {
          keys := keys + [k];
        }
        rest := rest - {k};
      }
      assert (set k | k in keys) == View(m, now).Keys;
    }

    /** Counts the items one by one. */
    method Len() returns (count: nat)
      ensures count == |m|
      ensures Outcome(m, Count(count)) == After(expiration, m, 0, Op.Len)
    {
      count := 0;
      var rest := m.Keys;
      while rest != {}
        invariant rest <= m.Keys && count + |rest| == |m.Keys|
        decreases rest
      {
        var k :| k in rest;
        count := count + 1;
        rest := rest - {k};
      }
      assert |m.Keys| == |m|;
    }

    /** A whole round of the background cleanup, without interference. */
    method Cleanup(tick: int)
      modifies this
      ensures m == Live(old(m), tick)
    {
      var rest := m.Keys;
      while rest != {}
        invariant rest <= m.Keys <= old(m).Keys
        invariant m == map k | k in old(m) && (k in rest || !old(m)[k].Expired(tick)) :: old(m)[k]
        decreases rest
      {
        var k :| k in rest;
        var value := m[k];
        rest := rest - {k};
        if value.Expired(tick) {
          var _ := CompareAndDelete(k, value);
        }
      }
    }
  }
}
