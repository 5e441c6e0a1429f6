/** How many times an item is held by a sequence of holders, such as goroutines. */
module Gathering {
  import opened Batches

  ghost function Count<T>(items: seq<T>, x: T): nat {
    multiset(items)[x]
  }

  ghost function Gather<A, T>(content: A -> seq<T>, holders: seq<A>, x: T): nat {
    if holders == [] then 0
    else Gather(content, holders[..|holders| - 1], x) + Count(content(holders[|holders| - 1]), x)
  }

  lemma CountConcat<T>(a: seq<T>, b: seq<T>, x: T)
    ensures Count(a + b, x) == Count(a, x) + Count(b, x)
  {
    assert multiset(a + b) == multiset(a) + multiset(b);
  }

  lemma CountNothing<T>(x: T)
    ensures Count([], x) == 0
  {}

  lemma GatherAppend<A, T>(content: A -> seq<T>, holders: seq<A>, h: A, x: T)
    ensures Gather(content, holders + [h], x) == Gather(content, holders, x) + Count(content(h), x)
  {
    assert (holders + [h])[..|holders|] == holders;
  }

  /** A change in one holder changes the total by exactly that. */
  lemma {:induction false} GatherUpdate<A, T>(content: A -> seq<T>, holders: seq<A>, i: nat, h: A, x: T)
    requires i < |holders|
    ensures Gather(content, holders[i := h], x) + Count(content(holders[i]), x)
         == Gather(content, holders, x) + Count(content(h), x)
    decreases |holders|
  {
    hide Count;
    var init := holders[..|holders| - 1];
    if i == |holders| - 1 {
      assert holders[i := h][..|holders| - 1] == init;
    } else {
      GatherUpdate(content, init, i, h, x);
      assert holders[i := h][..|holders| - 1] == init[i := h];
      assert holders[i := h][|holders| - 1] == holders[|holders| - 1];
    }
  }

  lemma {:induction false} GatherNothing<A, T>(content: A -> seq<T>, holders: seq<A>, x: T)
    requires forall i :: 0 <= i < |holders| ==> content(holders[i]) == []
    ensures Gather(content, holders, x) == 0
  {
    if holders != [] {
      CountNothing(x);
      GatherNothing(content, holders[..|holders| - 1], x);
    }
  }

  /** Taking the first of several batches. */
  lemma CountFirst<T>(batches: seq<seq<T>>, x: T)
    requires batches != []
    ensures Count(Flatten(batches), x) == Count(batches[0], x) + Count(Flatten(batches[1..]), x)
  {
    hide Count;
    assert batches == [batches[0]] + batches[1..];
    FlattenConcat([batches[0]], batches[1..]);
    FlattenOne(batches[0]);
    CountConcat(batches[0], Flatten(batches[1..]), x);
  }
}
