/** The cache that prioritizes memory over speed: a map under a lock, so each method is atomic. Methods which read the
    clock get its current reading as a parameter. */
module LeanCaches {
  import opened CacheSpec
  import opened Wrappers

  const CLEANUP_BATCH_SIZE := 256

  /** Applies the options to the default interval, one by one. */
  method DurationOptionToTime(default: int, now: int, options: seq<int>) returns (deadline: Option<int>)
    ensures deadline == Deadline(now, default, options)
  {
    if |options| == 0 {
      return if default > 0 then Some(now + default) else None;
    }
    var expiration := default;
    for i := 0 to |options|
      invariant expiration == TimeToLive(default, options[..i])
    {
      expiration := options[i];
    }
    assert options[..|options|] == options;
    return if expiration > 0 then Some(now + expiration) else None;
  }

  /** The items among the given keys which belong to the views of the whole cache. */
  ghost function ViewOf<K, V>(data: map<K, Item<V>>, now: int, keys: set<K>): map<K, Item<V>> {
    map k | k in keys && k in data && data[k].InViews(now) :: data[k]
  }

  class LeanCache<K(==), V> {
    const expiration: int
    var data: map<K, Item<V>>

    constructor (expiration: int)
      ensures data == map[] && this.expiration == expiration
    {
      this.expiration := expiration;
      data := map[];
    }

    method Set(now: int, key: K, value: V, options: seq<int>)
      modifies this
      ensures Outcome(data, Nothing) == After(expiration, old(data), now, Op.Set(key, value, options))
      ensures data == old(data)[key := Item(value, Deadline(now, expiration, options))]
    {
      var deadline := DurationOptionToTime(expiration, now, options);
      data := data[key := Item(value, deadline)];
    }

    method Add(now: int, key: K, value: V, options: seq<int>) returns (current: V, added: bool)
      modifies this
      ensures Outcome(data, Added(current, added)) == After(expiration, old(data), now, Op.Add(key, value, options))
      ensures added <==> !(key in old(data) && !old(data)[key].Expired(now))
      ensures current == (if added then value else old(data)[key].value)
      ensures data == if added then old(data)[key := Item(value, Deadline(now, expiration, options))] else old(data)
    {
      if key in data && !data[key].Expired(now) {
        return data[key].value, false;
      }
      var deadline := DurationOptionToTime(expiration, now, options);
      data := data[key := Item(value, deadline)];
      return value, true;
    }

    method Replace(now: int, key: K, value: V, options: seq<int>) returns (replaced: bool)
      modifies this
      ensures Outcome(data, Replaced(replaced)) == After(expiration, old(data), now, Op.Replace(key, value, options))
      ensures replaced <==> key in old(data) && !old(data)[key].Expired(now)
      ensures replaced ==>
        var deadline := if options == [] then old(data)[key].expiration else Deadline(now, expiration, options);
        data == old(data)[key := Item(value, deadline)]
      ensures !replaced ==> data == old(data) - {key}
    {
      if key !in data {
        return false;
      }
      var item := data[key];
      if item.Expired(now) {
        data := data - {key};
        return false;
      }
      item := item.(value := value);
      if |options| > 0 {
        var deadline := DurationOptionToTime(expiration, now, options);
        item := item.(expiration := deadline);
      }
      data := data[key := item];
      return true;
    }

    method Get(now: int, key: K) returns (value: Option<V>)
      modifies this
      ensures Outcome(data, Value(value)) == After(expiration, old(data), now, Op.Get(key))
      ensures value == if key in old(data) && !old(data)[key].Expired(now) then Some(old(data)[key].value) else None
      ensures data == if value.Some? then old(data) else old(data) - {key}
    {
      var item := GetItem(now, key);
      value := if item.Some? then Some(item.value.value) else None;
    }

    method Delete(now: int, key: K) returns (value: Option<V>, deleted: bool)
      modifies this
      ensures Outcome(data, Deleted(value, deleted)) == After(expiration, old(data), now, Op.Delete(key))
      ensures value == if key in old(data) then Some(old(data)[key].value) else None
      ensures deleted <==> key in old(data) && !old(data)[key].Expired(now)
      ensures data == old(data) - {key}
    {
      value := if key in data then Some(data[key].value) else None;
      deleted := key in data && !data[key].Expired(now);
      data := data - {key};
    }

    method Clear()
      modifies this
      ensures data == map[]
      ensures Outcome(data, Nothing) == After(expiration, old(data), 0, Op.Clear)
    {
      data := map[];
    }

    /** The second look, under the write lock, finds the same as the first if nobody interferes. */
    method GetItem(now: int, key: K) returns (item: Option<Item<V>>)
      modifies this
      ensures Outcome(data, Found(item)) == After(expiration, old(data), now, Op.GetItem(key))
      ensures item == if key in old(data) && !old(data)[key].Expired(now) then Some(old(data)[key]) else None
      ensures data == if item.Some? then old(data) else old(data) - {key}
    {
      if key !in data {
        return None;
      }
      if !data[key].Expired(now) {
        return Some(data[key]);
      }
      item := DeleteIfExpired(now, key);
    }

    method DeleteIfExpired(now: int, key: K) returns (item: Option<Item<V>>)
      modifies this
      ensures Outcome(data, Found(item)) == After(expiration, old(data), now, Op.GetItem(key))
    {
      if key !in data {
        return None;
      } else if !data[key].Expired(now) {
        return Some(data[key]);
      }
      data := data - {key};
      return None;
    }

    method Keys(now: int) returns (keys: seq<K>)
      ensures forall k :: k in keys <==> k in View(data, now)
      ensures |keys| == |View(data, now)|
      ensures Outcome(data, KeySet(set k | k in keys)) == After(expiration, data, now, Op.Keys)
    {
      var items := Items(now);
      keys := [];
      var rest := items.Keys;
      while rest != {}
        invariant rest <= items.Keys
        invariant forall k :: k in keys <==> k in items.Keys - rest
        invariant |keys| + |rest| == |items.Keys|
        decreases rest
      {
        var k :| k in rest;
        keys := keys + [k];
        rest := rest - {k};
      }
      assert (set k | k in keys) == View(data, now).Keys;
    }

    method Items(now: int) returns (m: map<K, Item<V>>)
      ensures m == View(data, now)
      ensures Outcome(data, ItemMap(m)) == After(expiration, data, now, Op.Items)
    {
      m := map[];
      var rest := data.Keys;
      while rest != {}
        invariant rest <= data.Keys
        invariant m == ViewOf(data, now, data.Keys - rest)
        decreases rest
      {
        var k :| k in rest;
        if data[k].InViews(now) {
          m := m[k := data[k]];
        }
        rest := rest - {k};
      }
    }

    method ItemCount(now: int) returns (count: nat)
      ensures count == |View(data, now)|
      ensures Outcome(data, Count(count)) == After(expiration, data, now, Op.ItemCount)
    {
      count := 0;
      var rest := data.Keys;
      assert ViewOf(data, now, {}) == map[];
      while rest != {}
        invariant rest <= data.Keys
        invariant count == |ViewOf(data, now, data.Keys - rest)|
        decreases rest
      {
        var k :| k in rest;
        ViewGrows(data, now, data.Keys - rest, k);
        assert data.Keys - rest + {k} == data.Keys - (rest - {k});
        if data[k].InViews(now) {
          count := count + 1;
        }
        rest := rest - {k};
      }
      assert ViewOf(data, now, data.Keys - rest) == View(data, now);
    }

    method Len() returns (count: nat)
      ensures count == |data|
      ensures Outcome(data, Count(count)) == After(expiration, data, 0, Op.Len)
    {
      count := |data|;
    }

    /** The first half of a round of the background cleanup, under the read lock. */
    method ScanExpired(tick: int) returns (expired: seq<K>)
      ensures forall k :: k in expired <==> k in data && data[k].Expired(tick)
      ensures forall i, j :: 0 <= i < j < |expired| ==> expired[i] != expired[j]
    {
      expired := [];
      var rest := data.Keys;
      while rest != {}
        invariant rest <= data.Keys
        invariant forall k :: k in expired <==> k in data.Keys - rest && data[k].Expired(tick)
        invariant forall i, j :: 0 <= i < j < |expired| ==> expired[i] != expired[j]
        decreases rest
      {
        var k :| k in rest;
        if data[k].Expired(tick) {
          expired := expired + [k];
        }
        rest := rest - {k};
      }
    }

    /** One batch of the second half, under the write lock. */
    method DeleteExpired(tick: int, batch: seq<K>)
      modifies this
      ensures data == old(data) - set k | k in batch && k in old(data) && old(data)[k].Expired(tick)
      ensures data == Cleaned(old(data), DeleteBatch(tick, tick, set k | k in batch))
    {
      for i := 0 to |batch|
        invariant data == old(data) - ExpiredIn(old(data), tick, set k | k in batch[..i])
      {
        assert batch[..i + 1] == batch[..i] + [batch[i]];
        if batch[i] in data && data[batch[i]].Expired(tick) {
          data := data - {batch[i]};
        }
      }
      assert batch[..|batch|] == batch;
    }

    /** A whole round, without interference: each batch is preceded by a check whether the cleanup was stopped. */
    method Cleanup(tick: int, stopped: nat -> bool) returns (complete: bool)
      modifies this
      ensures Live(data, tick) == Live(old(data), tick)
      ensures complete ==> data == Live(old(data), tick)
      ensures (forall i: nat :: !stopped(i)) ==> complete
    {
      var expired := ScanExpired(tick);
      var i := 0;
      while i < |expired|
        invariant 0 <= i
        invariant var done := if i < |expired| then i else |expired|;
                  data == old(data) - (set k | k in expired[..done])
      {
        if stopped(i) {
          return false;
        }
        var end := if i + CLEANUP_BATCH_SIZE < |expired| then i + CLEANUP_BATCH_SIZE else |expired|;
        assert expired[..end] == expired[..i] + expired[i..end];
        DeleteExpired(tick, expired[i..end]);
        i := i + CLEANUP_BATCH_SIZE;
      }
      assert expired[..|expired|] == expired;
      return true;
    }
  }

  lemma ViewGrows<K, V>(data: map<K, Item<V>>, now: int, keys: set<K>, k: K)
    requires k in data && k !in keys
    ensures |ViewOf(data, now, keys + {k})| == |ViewOf(data, now, keys)| + if data[k].InViews(now) then 1 else 0
  {
    var before, after := ViewOf(data, now, keys), ViewOf(data, now, keys + {k});
    if data[k].InViews(now) {
      assert after == before[k := data[k]];
    } else {
      assert after == before;
    }
  }
}
