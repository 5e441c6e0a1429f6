/** The batcher itself: a buffer with a generation counter, which invalidates the timers of batches that were
    already taken. The methods return the batches that their callers dispatch after releasing the lock. */
module Batching {
  import opened Batches
  import opened Wrappers

  /** The pending batch, and the generation for which its timer was started. */
  datatype Pending<T> = Pending(buf: seq<T>, timer: Option<nat>, gen: nat)

  datatype Outcome<T> = Outcome(pending: Pending<T>, ready: seq<seq<T>>)

  /** Each batch that's taken stops the timer, and starts a new generation. */
  function AfterTaking<T>(p: Pending<T>, taken: nat, rest: seq<T>): Pending<T> {
    Pending(rest, if taken == 0 then p.timer else None, p.gen + taken)
  }

  function WithTimer<T>(l: Limits, p: Pending<T>): Pending<T> {
    if l.window <= 0 || p.buf == [] || p.timer.Some? then p else p.(timer := Some(p.gen))
  }

  function AfterAdd<T>(l: Limits, size: T -> int, p: Pending<T>, items: seq<T>): Outcome<T> {
    if items == [] then Outcome(p, [])
    else if l.Passthrough() then Outcome(p, [items])
    else
      var fed := Feed(l, size, p.buf, items);
      Outcome(WithTimer(l, AfterTaking(p, |fed.batches|, fed.rest)), fed.batches)
  }

  function AfterFlush<T>(p: Pending<T>): Outcome<T> {
    Outcome(AfterTaking(p, 1, []), if p.buf == [] then [] else [p.buf])
  }

  function AfterTimedFlush<T>(p: Pending<T>, gen: nat): Outcome<T> {
    if gen == p.gen then AfterFlush(p) else Outcome(p, [])
  }

  class Batcher<T> {
    const limits: Limits
    const sizeOf: T -> int
    var buf: seq<T>
    var bytes: int
    var timer: Option<nat>
    var gen: nat

    ghost predicate Valid()
      reads this
    {
      && bytes == Total(limits, sizeOf, buf)
      && (limits.maxItems > 0 ==> |buf| < limits.maxItems)
      && (limits.maxBytes > 0 ==> bytes < limits.maxBytes)
      && (limits.maxItems <= 0 && limits.maxBytes <= 0 ==> buf == [])
    }

    ghost function Value(): Pending<T>
      reads this
    {
      Pending(buf, timer, gen)
    }

    constructor (limits: Limits, sizeOf: T -> int)
      ensures Valid() && Value() == Pending([], None, 0)
      ensures this.limits == limits && this.sizeOf == sizeOf
    {
      this.limits, this.sizeOf := limits, sizeOf;
      buf, bytes, timer, gen := [], 0, None, 0;
    }

    /** Fails if and only if there's nothing to dispatch batches with, or no way to tell sizes which are limited. */
    static method New(limits: Limits, hasDispatch: bool, sizeOf: Option<T -> int>) returns (r: Option<Batcher<T>>)
      ensures r.None? <==> !hasDispatch || (limits.maxBytes > 0 && sizeOf.None?)
      ensures r.Some? ==> fresh(r.value) && r.value.Valid() && r.value.limits == limits
                          && (sizeOf.Some? ==> r.value.sizeOf == sizeOf.value)
                          && r.value.Value() == Pending([], None, 0)
    {
      if !hasDispatch {
        return None;
      }
      if limits.maxBytes > 0 && sizeOf.None? {
        return None;
      }
      var b := new Batcher(limits, if sizeOf.Some? then sizeOf.value else _ => 0);
      return Some(b);
    }

    method AddItem(item: T) returns (ready: seq<seq<T>>)
      requires Valid()
      modifies this
      ensures Valid() && Outcome(Value(), ready) == AfterAdd(limits, sizeOf, old(Value()), [item])
      ensures limits.maxItems <= 0 && limits.maxBytes <= 0 ==> ready == [[item]]
      ensures forall batch :: batch in ready ==>
                && batch != []
                && (limits.maxItems > 0 ==> |batch| <= limits.maxItems)
                && (limits.maxBytes > 0 && |batch| > 1 ==> Total(limits, sizeOf, batch) <= limits.maxBytes)
    {
      hide Feed, Append, Total, Allowed;
      AddIsLimited(limits, sizeOf, Value(), [item]);
      AreLimited(limits, sizeOf, AfterAdd(limits, sizeOf, Value(), [item]).ready);
      if limits.Passthrough() {
        return [[item]];
      }
      FeedOne(limits, sizeOf, buf, item);
      ready := AppendToBatch(item, []);
      StartTimer();
    }

    method AddChunk(items: seq<T>) returns (ready: seq<seq<T>>)
      requires Valid()
      modifies this
      ensures Valid() && Outcome(Value(), ready) == AfterAdd(limits, sizeOf, old(Value()), items)
      ensures limits.maxItems <= 0 && limits.maxBytes <= 0 && items != [] ==> ready == [items]
      ensures forall batch :: batch in ready ==>
                && batch != []
                && (limits.maxItems > 0 ==> |batch| <= limits.maxItems)
                && (limits.maxBytes > 0 && |batch| > 1 ==> Total(limits, sizeOf, batch) <= limits.maxBytes)
    {
      hide Feed, Append, Total, Allowed;
      AddIsLimited(limits, sizeOf, Value(), items);
      AreLimited(limits, sizeOf, AfterAdd(limits, sizeOf, Value(), items).ready);
      ready := [];
      if |items| == 0 {
        return;
      }
      if limits.Passthrough() {
        return [items];
      }
      FeedNothing(limits, sizeOf, buf);
      ghost var before := Value();
      for i := 0 to |items|
        invariant Valid()
        invariant Fed(ready, buf) == Feed(limits, sizeOf, before.buf, items[..i])
        invariant Value() == AfterTaking(before, |ready|, buf)
      {
        assert items[..i + 1] == items[..i] + [items[i]];
        FeedLast(limits, sizeOf, before.buf, items[..i], items[i]);
        ready := AppendToBatch(items[i], ready);
      }
      assert items[..|items|] == items;
      StartTimer();
    }

    method AppendToBatch(item: T, taken: seq<seq<T>>) returns (ready: seq<seq<T>>)
      requires Valid() && (limits.maxItems > 0 || limits.maxBytes > 0)
      modifies this
      ensures Valid()
      ensures var one := Append(limits, sizeOf, old(buf), item);
              && ready == taken + one.batches
              && Value() == AfterTaking(old(Value()), |one.batches|, one.rest)
    {
      hide Total;
      AppendIsLimited(limits, sizeOf, buf, item);
      ready := taken;
      var size := 0;
      if limits.maxBytes > 0 {
        size := sizeOf(item);
        if |buf| > 0 && bytes + size > limits.maxBytes {
          var batch := NextBatch();
          ready := ready + [batch];
        }
      }
      TotalOfLast(limits, sizeOf, buf, item);
      ghost var before := Fed(if buf == old(buf) then [] else [old(buf)], buf);
      assert before == if Overflows(limits, sizeOf, old(buf), item) then Fed([old(buf)], []) else Fed([], old(buf));
      assert ready == taken + before.batches;
      buf := buf + [item];
      bytes := bytes + size;
      if (limits.maxItems > 0 && |buf| >= limits.maxItems) || (limits.maxBytes > 0 && bytes >= limits.maxBytes) {
        var batch := NextBatch();
        assert (taken + before.batches) + [batch] == taken + (before.batches + [batch]);
        ready := ready + [batch];
      } else {
        assert before.batches + [] == before.batches;
      }
    }

    method StartTimer()
      requires Valid()
      modifies this`timer
      ensures Valid() && Value() == WithTimer(limits, old(Value()))
    {
      if limits.window <= 0 || |buf| == 0 || timer != None {
        return;
      }
      timer := Some(gen);
    }

    method Flush() returns (ready: seq<seq<T>>)
      requires Valid()
      modifies this
      ensures Valid() && Outcome(Value(), ready) == AfterFlush(old(Value()))
    {
      var batch := NextBatch();
      ready := if |batch| > 0 then [batch] else [];
    }

    /** The callback of a timer that was started in the given generation, if the owner lets it in. */
    method GuardedTimedFlush(timerGen: nat) returns (ready: seq<seq<T>>)
      requires Valid()
      modifies this
      ensures Valid() && Outcome(Value(), ready) == AfterTimedFlush(old(Value()), timerGen)
    {
      var batch := [];
      if timerGen == gen {
        batch := NextBatch();
      }
      ready := if |batch| > 0 then [batch] else [];
    }

    method NextBatch() returns (batch: seq<T>)
      modifies this
      ensures Valid() && batch == old(buf) && Value() == AfterTaking(old(Value()), 1, [])
    {
      timer := None;
      gen := gen + 1;
      batch := buf;
      buf, bytes := [], 0;
    }
  }

  lemma TotalOfLast<T>(l: Limits, size: T -> int, buf: seq<T>, item: T)
    ensures Total(l, size, buf + [item]) == Total(l, size, buf) + if l.maxBytes > 0 then size(item) else 0
  {
    assert (buf + [item])[..|buf|] == buf;
  }

  lemma AreLimited<T>(l: Limits, size: T -> int, batches: seq<seq<T>>)
    requires forall batch :: batch in batches ==> Allowed(l, size, batch)
    ensures forall batch :: batch in batches ==>
              && batch != []
              && (l.maxItems > 0 ==> |batch| <= l.maxItems)
              && (l.maxBytes > 0 && |batch| > 1 ==> Total(l, size, batch) <= l.maxBytes)
  {
    hide Total;
  }

  /** Adding keeps the limits, whether they're enabled or not. */
  lemma AddIsLimited<T>(l: Limits, size: T -> int, p: Pending<T>, items: seq<T>)
    requires Below(l, size, p.buf)
    ensures var out := AfterAdd(l, size, p, items);
      Below(l, size, out.pending.buf) && forall batch :: batch in out.ready ==> Allowed(l, size, batch)
  {
    FeedIsLimited(l, size, p.buf, items);
    hide Feed, Below, Total;
  }
}
