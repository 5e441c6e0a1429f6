/** How a stream of items is cut into batches within item and byte limits. */
module Batches {

  datatype Limits = Limits(maxItems: int, maxBytes: int, window: int) {
    predicate Passthrough() {
      maxItems <= 0 && maxBytes <= 0
    }
  }

  /** A cut stream: the completed batches, and the items which are still pending. */
  datatype Fed<T> = Fed(batches: seq<seq<T>>, rest: seq<T>)

  /** Sizes matter only when there's a limit on them. */
  function SizeOf<T>(l: Limits, size: T -> int, item: T): int {
    if l.maxBytes > 0 then size(item) else 0
  }

  function Total<T>(l: Limits, size: T -> int, items: seq<T>): int {
    if items == [] then 0
    else Total(l, size, items[..|items| - 1]) + SizeOf(l, size, items[|items| - 1])
  }

  function Flatten<T>(batches: seq<seq<T>>): seq<T> {
    if batches == [] then [] else Flatten(batches[..|batches| - 1]) + batches[|batches| - 1]
  }

  predicate Overflows<T>(l: Limits, size: T -> int, buf: seq<T>, item: T) {
    l.maxBytes > 0 && buf != [] && Total(l, size, buf) + size(item) > l.maxBytes
  }

  predicate Full<T>(l: Limits, size: T -> int, buf: seq<T>) {
    || (l.maxItems > 0 && |buf| >= l.maxItems)
    || (l.maxBytes > 0 && Total(l, size, buf) >= l.maxBytes)
  }

  /** What was fed first, and then the rest of it with more items. */
  function Then<T>(fed: Fed<T>, more: Fed<T>): Fed<T> {
    Fed(fed.batches + more.batches, more.rest)
  }

  /** Adding an item may complete the pending batch before it, and also the one which it joins. */
  function Append<T>(l: Limits, size: T -> int, buf: seq<T>, item: T): Fed<T> {
    var before := if Overflows(l, size, buf, item) then Fed([buf], []) else Fed([], buf);
    Then(before, Complete(l, size, before.rest + [item]))
  }

  function Complete<T>(l: Limits, size: T -> int, joined: seq<T>): Fed<T> {
    if Full(l, size, joined) then Fed([joined], []) else Fed([], joined)
  }

  function Feed<T>(l: Limits, size: T -> int, buf: seq<T>, items: seq<T>): Fed<T> {
    if items == [] then Fed([], buf)
    else
      var fed := Feed(l, size, buf, items[..|items| - 1]);
      Then(fed, Append(l, size, fed.rest, items[|items| - 1]))
  }

  /** The completed batches, and whatever is still pending. */
  function Closed<T>(fed: Fed<T>): seq<seq<T>> {
    if fed.rest == [] then fed.batches else fed.batches + [fed.rest]
  }

  /** A batch within the limits, where a single item is always acceptable. */
  predicate Allowed<T>(l: Limits, size: T -> int, batch: seq<T>) {
    && batch != []
    && (l.maxItems > 0 ==> |batch| <= l.maxItems)
    && (l.maxBytes > 0 && |batch| > 1 ==> Total(l, size, batch) <= l.maxBytes)
  }

  /** A pending batch is below both limits, otherwise it would be completed. */
  predicate Below<T>(l: Limits, size: T -> int, buf: seq<T>) {
    && (l.maxItems > 0 ==> |buf| < l.maxItems)
    && (l.maxBytes > 0 ==> Total(l, size, buf) < l.maxBytes)
  }

  ghost predicate IsCut<T>(l: Limits, size: T -> int, items: seq<T>, batches: seq<seq<T>>) {
    Flatten(batches) == items && forall batch :: batch in batches ==> Allowed(l, size, batch)
  }

  ghost predicate AreSized<T>(l: Limits, size: T -> int, items: seq<T>) {
    l.maxBytes > 0 ==> forall item :: item in items ==> size(item) >= 0
  }

  ghost predicate IsFrom<T>(part: seq<T>, items: seq<T>) {
    forall x :: x in part ==> x in items
  }

  /** Such items fill a batch to its last byte, although there's still room for another item. */
  predicate FillsExactly<T>(l: Limits, size: T -> int, batch: seq<T>) {
    Total(l, size, batch) == l.maxBytes && (l.maxItems > 0 ==> |batch| < l.maxItems)
  }

  /** Nothing that could still be added to a full batch is ever added to another one instead. */
  ghost predicate IsWasteless<T(!new)>(l: Limits, size: T -> int, items: seq<T>) {
    l.maxBytes > 0 ==>
      forall z, batch :: z in items && size(z) == 0 && IsFrom(batch, items) ==> !FillsExactly(l, size, batch)
  }

  // ---- Sums and concatenations.

  lemma {:induction false} TotalOfConcat<T>(l: Limits, size: T -> int, a: seq<T>, b: seq<T>)
    ensures Total(l, size, a + b) == Total(l, size, a) + Total(l, size, b)
  {
    if b == [] {
      assert a + b == a;
    } else {
      TotalOfConcat(l, size, a, b[..|b| - 1]);
      assert (a + b)[..|a + b| - 1] == a + b[..|b| - 1];
    }
  }

  lemma {:induction false} TotalIsNotNegative<T>(l: Limits, size: T -> int, items: seq<T>)
    requires AreSized(l, size, items)
    ensures Total(l, size, items) >= 0
  {
    if items != [] {
      assert items[|items| - 1] in items;
      TotalIsNotNegative(l, size, items[..|items| - 1]);
    }
  }

  lemma {:induction false} FlattenConcat<T>(a: seq<seq<T>>, b: seq<seq<T>>)
    ensures Flatten(a + b) == Flatten(a) + Flatten(b)
  {
    if b == [] {
      assert a + b == a;
    } else {
      FlattenConcat(a, b[..|b| - 1]);
      assert (a + b)[..|a + b| - 1] == a + b[..|b| - 1];
    }
  }

  lemma FlattenOne<T>(batch: seq<T>)
    ensures Flatten([batch]) == batch
  {
    assert [batch][..0] == [];
    assert Flatten([batch]) == Flatten<T>([]) + batch;
  }

  // ---- Feeding: nothing is lost or reordered, the limits hold, and the calls don't matter.

  /** The items, wherever they are. */
  function Everything<T>(fed: Fed<T>): seq<T> {
    Flatten(fed.batches) + fed.rest
  }

  lemma AppendConserves<T>(l: Limits, size: T -> int, buf: seq<T>, item: T)
    ensures Everything(Append(l, size, buf, item)) == buf + [item]
  {
    hide Overflows, Full, Flatten;
    var before := if Overflows(l, size, buf, item) then Fed([buf], []) else Fed([], buf);
    FlattenNothing<T>();
    FlattenOne(buf);
    FlattenOne(before.rest + [item]);
    FlattenThen(before, Complete(l, size, before.rest + [item]), buf, item);
  }

  /** Joining a pending batch which doesn't overflow, or a new one, is allowed. */
  lemma JoinedIsAllowed<T>(l: Limits, size: T -> int, buf: seq<T>, item: T)
    requires Below(l, size, buf) && !Overflows(l, size, buf, item)
    ensures Allowed(l, size, buf + [item])
  {
    TotalOfConcat(l, size, buf, [item]);
    assert [item][..0] == [];
    assert Total(l, size, [item]) == SizeOf(l, size, item);
  }

  lemma BelowIsAllowed<T>(l: Limits, size: T -> int, buf: seq<T>)
    requires Below(l, size, buf)
    ensures buf != [] ==> Allowed(l, size, buf)
  {}

  lemma NothingIsBelow<T>(l: Limits, size: T -> int)
    ensures Below<T>(l, size, [])
  {}

  lemma AppendIsLimited<T>(l: Limits, size: T -> int, buf: seq<T>, item: T)
    requires Below(l, size, buf)
    ensures var fed := Append(l, size, buf, item);
      && Below(l, size, fed.rest)
      && (forall batch :: batch in fed.batches ==> Allowed(l, size, batch))
  {
    hide Allowed, Below, Full, Total, Complete;
    var rest := if Overflows(l, size, buf, item) then [] else buf;
    NothingIsBelow(l, size);
    NothingOverflows(l, size, item);
    JoinedIsAllowed(l, size, rest, item);
    CompleteIsLimited(l, size, rest + [item]);
    BelowIsAllowed(l, size, buf);
    hide Overflows;
  }

  lemma NothingOverflows<T>(l: Limits, size: T -> int, item: T)
    ensures !Overflows(l, size, [], item)
  {}

  lemma CompleteIsLimited<T>(l: Limits, size: T -> int, joined: seq<T>)
    requires Allowed(l, size, joined)
    ensures var fed := Complete(l, size, joined);
      && Below(l, size, fed.rest)
      && (forall batch :: batch in fed.batches ==> Allowed(l, size, batch))
  {
    NothingIsBelow(l, size);
    hide Allowed, Total;
  }

  /** Whatever the sizes are (zero or negative too), all the items end up in batches or remain pending, in order. */
  lemma {:induction false} FeedConserves<T>(l: Limits, size: T -> int, buf: seq<T>, items: seq<T>)
    ensures Everything(Feed(l, size, buf, items)) == buf + items
  {
    hide Feed, Append, Flatten;
    if items == [] {
      FeedNothing(l, size, buf);
      FlattenNothing<T>();
    } else {
      var init, item := items[..|items| - 1], items[|items| - 1];
      assert items == init + [item];
      FeedConserves(l, size, buf, init);
      var fed := Feed(l, size, buf, init);
      FeedLast(l, size, buf, init, item);
      AppendConserves(l, size, fed.rest, item);
      FlattenThen(fed, Append(l, size, fed.rest, item), buf + init, item);
      assert buf + init + [item] == buf + items;
    }
  }

  lemma FlattenNothing<T>()
    ensures Flatten<T>([]) == []
  {}

  /** Each batch is within the limits, unless it's a single item; and the pending one is below both limits. */
  lemma {:induction false} FeedIsLimited<T>(l: Limits, size: T -> int, buf: seq<T>, items: seq<T>)
    requires Below(l, size, buf)
    ensures var fed := Feed(l, size, buf, items);
      && Below(l, size, fed.rest)
      && (forall batch :: batch in fed.batches ==> Allowed(l, size, batch))
  {
    hide Feed, Append, Below, Allowed;
    if items == [] {
      FeedNothing(l, size, buf);
    } else {
      var init, item := items[..|items| - 1], items[|items| - 1];
      assert items == init + [item];
      FeedIsLimited(l, size, buf, init);
      FeedLast(l, size, buf, init, item);
      AppendIsLimited(l, size, Feed(l, size, buf, init).rest, item);
    }
  }

  lemma FlattenThen<T>(fed: Fed<T>, last: Fed<T>, before: seq<T>, item: T)
    requires Flatten(fed.batches) + fed.rest == before
    requires Flatten(last.batches) + last.rest == fed.rest + [item]
    ensures Flatten(Then(fed, last).batches) + last.rest == before + [item]
  {
    FlattenConcat(fed.batches, last.batches);
    hide Flatten;
    assert Flatten(fed.batches) + Flatten(last.batches) + last.rest
        == Flatten(fed.batches) + (Flatten(last.batches) + last.rest);
    assert Flatten(fed.batches) + (fed.rest + [item]) == before + [item];
  }

  /** The way in which the items are split between calls makes no difference. */
  lemma {:induction false} FeedInParts<T>(l: Limits, size: T -> int, buf: seq<T>, a: seq<T>, b: seq<T>)
    ensures var first := Feed(l, size, buf, a);
            Feed(l, size, buf, a + b) == Then(first, Feed(l, size, first.rest, b))
  {
    hide Append, Feed;
    var first := Feed(l, size, buf, a);
    if b == [] {
      assert a + b == a;
      FeedNothing(l, size, first.rest);
      assert first.batches + [] == first.batches;
    } else {
      var init, item := b[..|b| - 1], b[|b| - 1];
      assert b == init + [item];
      FeedInParts(l, size, buf, a, init);
      var second := Feed(l, size, first.rest, init);
      FeedLast(l, size, first.rest, init, item);
      assert a + b == a + init + [item];
      FeedLast(l, size, buf, a + init, item);
      ThenIsAssociative(first, second, Append(l, size, second.rest, item));
    }
  }

  lemma FeedNothing<T>(l: Limits, size: T -> int, buf: seq<T>)
    ensures Feed(l, size, buf, []) == Fed([], buf)
  {}

  lemma FeedLast<T>(l: Limits, size: T -> int, buf: seq<T>, init: seq<T>, item: T)
    ensures var fed := Feed(l, size, buf, init);
            Feed(l, size, buf, init + [item]) == Then(fed, Append(l, size, fed.rest, item))
  {
    hide Append;
    assert (init + [item])[..|init + [item]| - 1] == init;
  }

  lemma ThenIsAssociative<T>(a: Fed<T>, b: Fed<T>, c: Fed<T>)
    ensures Then(Then(a, b), c) == Then(a, Then(b, c))
  {
    assert (a.batches + b.batches) + c.batches == a.batches + (b.batches + c.batches);
  }

  function FeedAll<T>(l: Limits, size: T -> int, buf: seq<T>, chunks: seq<seq<T>>): Fed<T> {
    if chunks == [] then Fed([], buf)
    else
      var fed := FeedAll(l, size, buf, chunks[..|chunks| - 1]);
      Then(fed, Feed(l, size, fed.rest, chunks[|chunks| - 1]))
  }

  lemma {:induction false} ChunksDoNotMatter<T>(l: Limits, size: T -> int, buf: seq<T>, chunks: seq<seq<T>>)
    ensures FeedAll(l, size, buf, chunks) == Feed(l, size, buf, Flatten(chunks))
  {
    if chunks != [] {
      var init, last := chunks[..|chunks| - 1], chunks[|chunks| - 1];
      ChunksDoNotMatter(l, size, buf, init);
      FeedInParts(l, size, buf, Flatten(init), last);
    }
  }

  // ---- Optimality.

  /** Parts of an allowed batch are allowed. */
  lemma PartsAreAllowed<T>(l: Limits, size: T -> int, batch: seq<T>, i: nat, j: nat)
    requires Allowed(l, size, batch) && AreSized(l, size, batch) && i < j <= |batch|
    ensures Allowed(l, size, batch[i..j])
  {
    hide Total, AreSized;
    if l.maxBytes > 0 {
      PartIsSmaller(l, size, batch, i, j);
    }
  }

  lemma PartIsSmaller<T>(l: Limits, size: T -> int, batch: seq<T>, i: nat, j: nat)
    requires AreSized(l, size, batch) && i < j <= |batch|
    ensures Total(l, size, batch[i..j]) <= Total(l, size, batch)
  {
    hide Total;
    var before, part, after := batch[..i], batch[i..j], batch[j..];
    TotalOfConcat(l, size, before + part, after);
    TotalOfConcat(l, size, before, part);
    TotalIsNotNegative(l, size, before);
    TotalIsNotNegative(l, size, after);
    assert batch == before + part + after;
  }

  lemma PrefixIsAllowed<T>(l: Limits, size: T -> int, items: seq<T>, n: nat, i: nat)
    requires 0 < i <= n <= |items| && Allowed(l, size, items[..n]) && AreSized(l, size, items)
    ensures Allowed(l, size, items[..i])
  {
    PartsAreAllowed(l, size, items[..n], 0, i);
    assert items[..n][0..i] == items[..i];
  }

  /** The length of the longest allowed prefix, knowing that `n` items are allowed. */
  function Longest<T>(l: Limits, size: T -> int, items: seq<T>, n: nat): (r: nat)
    requires 0 < n <= |items|
    ensures n <= r <= |items|
    decreases |items| - n
  {
    if n < |items| && Allowed(l, size, items[..n + 1]) then Longest(l, size, items, n + 1) else n
  }

  /** The reference: repeatedly take as many items as possible. */
  function Greedy<T>(l: Limits, size: T -> int, items: seq<T>): seq<seq<T>> {
    if items == [] then [] else
    var n := Longest(l, size, items, 1);
    [items[..n]] + Greedy(l, size, items[n..])
  }

  /** An item alone is always allowed. */
  lemma OneIsAllowed<T>(l: Limits, size: T -> int, items: seq<T>)
    requires items != []
    ensures Allowed(l, size, items[..1])
  {}

  lemma {:induction false} LongestIsAllowed<T>(l: Limits, size: T -> int, items: seq<T>, n: nat)
    requires 0 < n <= |items| && Allowed(l, size, items[..n])
    ensures Allowed(l, size, items[..Longest(l, size, items, n)])
    decreases |items| - n
  {
    if n < |items| && Allowed(l, size, items[..n + 1]) {
      LongestIsAllowed(l, size, items, n + 1);
    }
  }

  /** No allowed prefix is longer. */
  lemma {:induction false} LongestIsMaximal<T>(l: Limits, size: T -> int, items: seq<T>, n: nat, m: nat)
    requires 0 < n <= |items| && AreSized(l, size, items)
    requires m <= |items| && Allowed(l, size, items[..m])
    ensures m <= Longest(l, size, items, n)
    decreases |items| - n
  {
    if m > n {
      PrefixIsAllowed(l, size, items, m, n + 1);
      LongestIsMaximal(l, size, items, n + 1, m);
    }
  }

  /** A later start never needs more batches. */
  lemma {:induction false} SuffixNeedsNoMore<T>(l: Limits, size: T -> int, items: seq<T>, d: nat)
    requires AreSized(l, size, items) && d <= |items|
    ensures |Greedy(l, size, items[d..])| <= |Greedy(l, size, items)|
    decreases |items|
  {
    if d == 0 {
      assert items[d..] == items;
    } else if d < |items| {
      hide Longest, Allowed;
      var n := Longest(l, size, items, 1);
      var tail := items[d..];
      if d >= n {
        SuffixNeedsNoMore(l, size, items[n..], d - n);
        assert items[n..][d - n..] == tail;
      } else {
        LongestOfSuffix(l, size, items, d);
        var m := Longest(l, size, tail, 1);
        SuffixNeedsNoMore(l, size, items[n..], m - (n - d));
        assert items[n..][m - (n - d)..] == tail[m..];
      }
    }
  }

  /** The longest prefix of a suffix doesn't end before the longest prefix does. */
  lemma LongestOfSuffix<T>(l: Limits, size: T -> int, items: seq<T>, d: nat)
    requires AreSized(l, size, items) && items != [] && d < Longest(l, size, items, 1)
    ensures d + Longest(l, size, items[d..], 1) >= Longest(l, size, items, 1)
  {
    hide Longest, Allowed;
    var n := Longest(l, size, items, 1);
    OneIsAllowed(l, size, items);
    LongestIsAllowed(l, size, items, 1);
    PartsAreAllowed(l, size, items[..n], d, n);
    assert items[..n][d..n] == items[d..][..n - d];
    LongestIsMaximal(l, size, items[d..], 1, n - d);
  }

  lemma {:induction false} GreedyIsCut<T>(l: Limits, size: T -> int, items: seq<T>)
    ensures IsCut(l, size, items, Greedy(l, size, items))
    decreases |items|
  {
    if items != [] {
      var n := Longest(l, size, items, 1);
      OneIsAllowed(l, size, items);
      LongestIsAllowed(l, size, items, 1);
      GreedyIsCut(l, size, items[n..]);
      hide Longest, Allowed;
      var head, tail := [items[..n]], Greedy(l, size, items[n..]);
      FlattenConcat(head, tail);
      FlattenOne(items[..n]);
      assert items[..n] + items[n..] == items;
    }
  }

  /** No way to cut the items in order, within the limits, has fewer batches. */
  lemma {:induction false} GreedyIsOptimal<T>(l: Limits, size: T -> int, items: seq<T>, batches: seq<seq<T>>)
    requires AreSized(l, size, items) && IsCut(l, size, items, batches)
    ensures |Greedy(l, size, items)| <= |batches|
    decreases |batches|
  {
    if batches != [] {
      var head, tail := batches[0], batches[1..];
      assert batches == [head] + tail && head in batches;
      FlattenConcat([head], tail);
      FlattenOne(head);
      var m := |head|;
      assert items == head + Flatten(tail);
      assert items[..m] == head && items[m..] == Flatten(tail);
      LongestIsMaximal(l, size, items, 1, m);
      var n := Longest(l, size, items, 1);
      hide Longest, Allowed;
      GreedyIsOptimal(l, size, items[m..], tail);
      SuffixNeedsNoMore(l, size, items[m..], n - m);
      assert items[m..][n - m..] == items[n..];
    }
  }

  /** Feeding items to a pending batch makes no other choice than the reference. */
  lemma {:induction false} FeedIsGreedy<T(!new)>(l: Limits, size: T -> int, buf: seq<T>, items: seq<T>)
    requires Below(l, size, buf) && AreSized(l, size, buf + items) && IsWasteless(l, size, buf + items)
    ensures Closed(Feed(l, size, buf, items)) == Greedy(l, size, buf + items)
    decreases |items|
  {
    hide Append, Feed, Greedy, Below, Allowed, Closed, AreSized, IsWasteless;
    BelowIsAllowed(l, size, buf);
    if items == [] {
      assert buf + items == buf;
      RestIsGreedy(l, size, buf);
    } else {
      var item, tail := items[0], items[1..];
      FeedInParts(l, size, buf, [item], tail);
      assert [item] + tail == items;
      FeedOne(l, size, buf, item);
      assert buf + [item] + tail == buf + items;
      AppendIsGreedy(l, size, buf, item, tail);
      AppendIsLimited(l, size, buf, item);
      RestIsPart(l, size, buf, item);
      var one := Append(l, size, buf, item);
      WastelessPart(l, size, buf + items, one.rest + tail);
      FeedIsGreedy(l, size, one.rest, tail);
      ClosedThen(one, Feed(l, size, one.rest, tail));
    }
  }

  lemma ClosedThen<T>(a: Fed<T>, b: Fed<T>)
    ensures Closed(Then(a, b)) == a.batches + Closed(b)
  {}

  lemma RestIsGreedy<T>(l: Limits, size: T -> int, buf: seq<T>)
    requires AreSized(l, size, buf) && (buf != [] ==> Allowed(l, size, buf))
    ensures Closed(Feed(l, size, buf, [])) == Greedy(l, size, buf)
  {
    if buf != [] {
      assert buf[..|buf|] == buf && buf[|buf|..] == [];
      LongestIsMaximal(l, size, buf, 1, |buf|);
    }
  }

  lemma FeedOne<T>(l: Limits, size: T -> int, buf: seq<T>, item: T)
    ensures Feed(l, size, buf, [item]) == Append(l, size, buf, item)
  {
    assert [item][..0] == [];
  }

  lemma RestIsPart<T>(l: Limits, size: T -> int, buf: seq<T>, item: T)
    ensures forall x :: x in Append(l, size, buf, item).rest ==> x in buf + [item]
  {}

  /** A batch which is allowed, but can't take the next item, is the reference's first choice. */
  lemma GreedyTakes<T>(l: Limits, size: T -> int, batch: seq<T>, tail: seq<T>)
    requires Allowed(l, size, batch) && AreSized(l, size, batch + tail)
    requires tail != [] ==> !Allowed(l, size, batch + [tail[0]])
    ensures Greedy(l, size, batch + tail) == [batch] + Greedy(l, size, tail)
  {
    var items, n := batch + tail, Longest(l, size, batch + tail, 1);
    assert items[..|batch|] == batch && items[|batch|..] == tail;
    LongestIsMaximal(l, size, items, 1, |batch|);
    OneIsAllowed(l, size, items);
    LongestIsAllowed(l, size, items, 1);
    assert tail != [] ==> items[..|batch| + 1] == batch + [tail[0]];
    if n > |batch| {
      PrefixIsAllowed(l, size, items, n, |batch| + 1);
    }
  }

  lemma WastelessPart<T(!new)>(l: Limits, size: T -> int, items: seq<T>, part: seq<T>)
    requires AreSized(l, size, items) && IsWasteless(l, size, items) && IsFrom(part, items)
    ensures AreSized(l, size, part) && IsWasteless(l, size, part)
  {
    forall z, batch | l.maxBytes > 0 && z in part && size(z) == 0 && IsFrom(batch, part)
      ensures !FillsExactly(l, size, batch)
    {
      assert IsFrom(batch, items);
    }
  }

  /** A full batch can't take another item, unless it's an empty one. */
  lemma FullTakesNoMore<T>(l: Limits, size: T -> int, batch: seq<T>, item: T)
    requires Full(l, size, batch) && batch != [] && AreSized(l, size, [item])
    requires l.maxBytes > 0 && size(item) == 0 ==> !FillsExactly(l, size, batch)
    ensures !Allowed(l, size, batch + [item])
  {
    TotalOfConcat(l, size, batch, [item]);
    assert item in [item] && [item][..0] == [];
    assert Total(l, size, [item]) == SizeOf(l, size, item);
  }

  /** A joined batch is completed only if the reference would do it too. */
  lemma CompleteIsGreedy<T(!new)>(l: Limits, size: T -> int, joined: seq<T>, tail: seq<T>)
    requires Allowed(l, size, joined) && AreSized(l, size, joined + tail) && IsWasteless(l, size, joined + tail)
    ensures var fed := Complete(l, size, joined);
            Greedy(l, size, joined + tail) == fed.batches + Greedy(l, size, fed.rest + tail)
  {
    hide Greedy;
    assert [] + tail == tail;
    if Full(l, size, joined) {
      if tail != [] {
        assert tail[0] in joined + tail && IsFrom(joined, joined + tail);
        FullTakesNoMore(l, size, joined, tail[0]);
      }
      GreedyTakes(l, size, joined, tail);
    }
  }

  /** An overflowing batch is completed only because the reference would do it too. */
  lemma OverflowIsGreedy<T>(l: Limits, size: T -> int, buf: seq<T>, item: T, tail: seq<T>)
    requires Overflows(l, size, buf, item) && Allowed(l, size, buf) && AreSized(l, size, buf + [item] + tail)
    ensures Greedy(l, size, buf + [item] + tail) == [buf] + Greedy(l, size, [item] + tail)
  {
    TotalOfConcat(l, size, buf, [item]);
    assert [item][..0] == [];
    assert Total(l, size, [item]) == SizeOf(l, size, item);
    assert ([item] + tail)[0] == item;
    assert buf + [item] + tail == buf + ([item] + tail);
    GreedyTakes(l, size, buf, [item] + tail);
  }

  lemma AppendIsGreedy<T(!new)>(l: Limits, size: T -> int, buf: seq<T>, item: T, tail: seq<T>)
    requires Below(l, size, buf) && AreSized(l, size, buf + [item] + tail) && IsWasteless(l, size, buf + [item] + tail)
    requires buf != [] ==> Allowed(l, size, buf)
    ensures var one := Append(l, size, buf, item);
            Greedy(l, size, buf + [item] + tail) == one.batches + Greedy(l, size, one.rest + tail)
  {
    hide Greedy, Total, Complete, AreSized, IsWasteless;
    assert [] + [item] == [item];
    if Overflows(l, size, buf, item) {
      WastelessPart(l, size, buf + [item] + tail, [item] + tail);
      NothingIsBelow(l, size);
      JoinedIsAllowed(l, size, [], item);
      OverflowIsGreedy(l, size, buf, item, tail);
      CompleteIsGreedy(l, size, [item], tail);
    } else {
      JoinedIsAllowed(l, size, buf, item);
      CompleteIsGreedy(l, size, buf + [item], tail);
    }
  }

  /** Any way of splitting the items between calls, followed by a flush, yields the same batches,
      and no other way to cut them within the limits has fewer. */
  lemma BatchingIsOptimal<T(!new)>(l: Limits, size: T -> int, chunks: seq<seq<T>>, batches: seq<seq<T>>)
    requires AreSized(l, size, Flatten(chunks)) && IsWasteless(l, size, Flatten(chunks))
    requires IsCut(l, size, Flatten(chunks), batches)
    ensures Closed(FeedAll(l, size, [], chunks)) == Greedy(l, size, Flatten(chunks))
    ensures |Closed(FeedAll(l, size, [], chunks))| <= |batches|
  {
    hide Feed, FeedAll, Greedy, IsCut, AreSized, IsWasteless, Closed, Flatten;
    var items := Flatten(chunks);
    ChunksDoNotMatter(l, size, [], chunks);
    assert [] + items == items;
    NothingIsBelow(l, size);
    FeedIsGreedy(l, size, [], items);
    GreedyIsOptimal(l, size, items, batches);
  }

  // ---- When the batcher is optimal for every stream of items.

  ghost predicate IsNeverNegative<T(!new)>(l: Limits, size: T -> int) {
    l.maxBytes > 0 ==> forall x :: size(x) >= 0
  }

  /** An item may be empty, while others may fill a batch to its last byte and still leave room for it. */
  ghost predicate CanWaste<T(!new)>(l: Limits, size: T -> int) {
    l.maxBytes > 0 && exists z, batch :: size(z) == 0 && FillsExactly(l, size, batch)
  }

  /** The shortest prefix of such a batch that fills it. */
  lemma {:induction false} ShortestFilling<T>(l: Limits, size: T -> int, items: seq<T>) returns (batch: seq<T>)
    requires l.maxBytes > 0 && AreSized(l, size, items) && Total(l, size, items) == l.maxBytes
    ensures batch <= items && Total(l, size, batch) == l.maxBytes
    ensures forall i :: 0 <= i < |batch| ==> Total(l, size, batch[..i]) < l.maxBytes
    decreases |items|
  {
    var init := items[..|items| - 1];
    TotalOfConcat(l, size, init, [items[|items| - 1]]);
    if Total(l, size, init) == l.maxBytes {
      batch := ShortestFilling(l, size, init);
    } else {
      batch := items;
      forall i | 0 <= i < |items|
        ensures Total(l, size, items[..i]) < l.maxBytes
      {
        assert init == items[..i] + items[i..|items| - 1];
        TotalOfConcat(l, size, items[..i], items[i..|items| - 1]);
        TotalIsNotNegative(l, size, items[i..|items| - 1]);
        assert items[|items| - 1] in items;
      }
    }
  }

  /** As long as nothing is full, all the items remain pending. */
  lemma {:induction false} FeedStaysOpen<T>(l: Limits, size: T -> int, items: seq<T>)
    requires l.maxBytes > 0 && (l.maxItems > 0 ==> |items| < l.maxItems)
    requires forall i :: 0 <= i <= |items| ==> Total(l, size, items[..i]) < l.maxBytes
    ensures Feed(l, size, [], items) == Fed([], items)
    decreases |items|
  {
    hide Feed;
    if items == [] {
      FeedNothing(l, size, []);
    } else {
      var init, item := items[..|items| - 1], items[|items| - 1];
      assert forall i :: 0 <= i <= |init| ==> init[..i] == items[..i];
      assert init + [item] == items && items[..|items|] == items;
      FeedStaysOpen(l, size, init);
      FeedLast(l, size, [], init, item);
      AppendWithoutOverflow(l, size, init, item);
    }
  }

  lemma AppendWithoutOverflow<T>(l: Limits, size: T -> int, buf: seq<T>, item: T)
    requires l.maxBytes > 0 && Total(l, size, buf + [item]) <= l.maxBytes
    ensures Append(l, size, buf, item) == Complete(l, size, buf + [item])
  {
    TotalOfConcat(l, size, buf, [item]);
    assert [item][..0] == [];
    assert Total(l, size, [item]) == SizeOf(l, size, item);
    hide Total, Complete;
    assert [] + Complete(l, size, buf + [item]).batches == Complete(l, size, buf + [item]).batches;
  }

  lemma FeedFills<T>(l: Limits, size: T -> int, batch: seq<T>)
    requires l.maxBytes > 0 && FillsExactly(l, size, batch)
    requires forall i :: 0 <= i < |batch| ==> Total(l, size, batch[..i]) < l.maxBytes
    ensures Feed(l, size, [], batch) == Fed([batch], [])
  {
    hide Feed;
    var init, item := batch[..|batch| - 1], batch[|batch| - 1];
    assert batch == init + [item];
    assert forall i :: 0 <= i <= |init| ==> init[..i] == batch[..i];
    FeedStaysOpen(l, size, init);
    FeedLast(l, size, [], init, item);
    AppendWithoutOverflow(l, size, init, item);
    hide Append, Total;
    assert [] + [batch] == [batch];
  }

  lemma EmptyItemWaits<T>(l: Limits, size: T -> int, z: T)
    requires l.maxBytes > 0 && size(z) == 0 && (l.maxItems > 0 ==> l.maxItems > 1)
    ensures Append(l, size, [], z) == Fed([], [z]) && Total(l, size, [z]) == 0
  {
    assert [z][..0] == [] && [] + [z] == [z];
    assert Total(l, size, [z]) == 0;
    AppendWithoutOverflow(l, size, [], z);
  }

  /** The batcher then needs two batches, although one is enough. */
  lemma WastedBatch<T>(l: Limits, size: T -> int, batch: seq<T>, z: T)
    requires l.maxBytes > 0 && size(z) == 0 && FillsExactly(l, size, batch)
    requires forall i :: 0 <= i < |batch| ==> Total(l, size, batch[..i]) < l.maxBytes
    ensures IsCut(l, size, batch + [z], [batch + [z]])
    ensures Closed(Feed(l, size, [], batch + [z])) == [batch, [z]]
  {
    FeedFills(l, size, batch);
    EmptyItemWaits(l, size, z);
    FeedLast(l, size, [], batch, z);
    TotalOfConcat(l, size, batch, [z]);
    FlattenOne(batch + [z]);
    hide Feed, Flatten, Total, Append;
    assert [batch] + [] == [batch];
  }

  /** With sizes that aren't negative, no stream of items, however it's split between calls, could be cut into fewer
      batches, if and only if there are no empty items, or they never find a batch full which has room for them. */
  lemma AlwaysOptimalIff<T(!new)>(l: Limits, size: T -> int)
    requires IsNeverNegative(l, size)
    ensures (forall chunks: seq<seq<T>>, batches: seq<seq<T>> :: IsCut(l, size, Flatten(chunks), batches) ==>
               |Closed(FeedAll(l, size, [], chunks))| <= |batches|)
       <==> !CanWaste(l, size)
  {
    hide FeedAll, IsCut, Closed, Flatten, FillsExactly, Total;
    if CanWaste(l, size) {
      var z, items :| size(z) == 0 && FillsExactly(l, size, items);
      var stream, batches := WastefulStream(l, size, items, z);
      ChunksDoNotMatter(l, size, [], [stream]);
      FlattenOne(stream);
      assert IsCut(l, size, Flatten([stream]), batches) && |Closed(FeedAll(l, size, [], [stream]))| > |batches|;
    } else {
      forall chunks: seq<seq<T>>, batches: seq<seq<T>> | IsCut(l, size, Flatten(chunks), batches)
        ensures |Closed(FeedAll(l, size, [], chunks))| <= |batches|
      {
        assert IsWasteless(l, size, Flatten(chunks));
        BatchingIsOptimal(l, size, chunks, batches);
      }
    }
  }

  lemma WastefulStream<T(!new)>(l: Limits, size: T -> int, items: seq<T>, z: T)
    returns (stream: seq<T>, batches: seq<seq<T>>)
    requires l.maxBytes > 0 && IsNeverNegative(l, size) && size(z) == 0 && FillsExactly(l, size, items)
    ensures IsCut(l, size, stream, batches)
    ensures |Closed(Feed(l, size, [], stream))| > |batches|
  {
    hide Feed, IsCut, Closed;
    var batch := ShortestFilling(l, size, items);
    WastedBatch(l, size, batch, z);
    stream, batches := batch + [z], [batch + [z]];
  }

  /** For example, with a limit of a single byte. */
  lemma EmptyItemsMayWasteABatch()
    ensures var l, size := Limits(0, 1, 0), (x: int) => x;
      && Closed(Feed(l, size, [], [1, 0])) == [[1], [0]]
      && IsCut(l, size, [1, 0], [[1, 0]])
  {
    var l, size := Limits(0, 1, 0), (x: int) => x;
    assert [1][..0] == [] && Total(l, size, [1]) == 1;
    WastedBatch(l, size, [1], 0);
    assert [1] + [0] == [1, 0];
  }
}
