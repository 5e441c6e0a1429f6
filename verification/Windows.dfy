/** Points in time, in a given order, each of which has to be in a window of its own. */
module Windows {

  /** Both ends are included. */
  datatype Window = Any | Within(lo: int, hi: int) {
    predicate Has(t: int) {
      Within? ==> lo <= t <= hi
    }
  }

  ghost predicate AreAscending(ts: seq<int>) {
    forall i, j :: 0 <= i <= j < |ts| ==> ts[i] <= ts[j]
  }

  ghost predicate Fit(ws: seq<Window>, ts: seq<int>) {
    |ts| == |ws| && AreAscending(ts) && forall i :: 0 <= i < |ws| ==> ws[i].Has(ts[i])
  }

  /** No window begins after a later one ends. */
  ghost predicate AreCompatible(ws: seq<Window>) {
    forall i, j :: 0 <= i <= j < |ws| && ws[i].Within? && ws[j].Within? ==> ws[i].lo <= ws[j].hi
  }

  /** No later than the end of any window. */
  function Floor(ws: seq<Window>): (t: int)
    ensures forall i :: 0 <= i < |ws| && ws[i].Within? ==> t <= ws[i].hi
  {
    if ws == [] then 0
    else
      var t, w := Floor(ws[1..]), ws[0];
      if w.Within? && w.hi < t then w.hi else t
  }

  function Last(base: int, ts: seq<int>): int {
    if ts == [] then base else ts[|ts| - 1]
  }

  /** Each point is as early as possible: not before the previous one, nor before its own window. */
  function Earliest(base: int, ws: seq<Window>): (ts: seq<int>)
    ensures |ts| == |ws|
  {
    if ws == [] then []
    else
      var init, w := Earliest(base, ws[..|ws| - 1]), ws[|ws| - 1];
      var previous := Last(base, init);
      init + [if w.Within? && w.lo > previous then w.lo else previous]
  }

  lemma {:induction false} EarliestIsWithin(base: int, ws: seq<Window>, bound: int)
    requires base <= bound && forall i :: 0 <= i < |ws| && ws[i].Within? ==> ws[i].lo <= bound
    ensures Last(base, Earliest(base, ws)) <= bound
    decreases |ws|
  {
    if ws != [] {
      EarliestIsWithin(base, ws[..|ws| - 1], bound);
    }
  }

  lemma AppendFits(ws: seq<Window>, ts: seq<int>)
    requires |ts| == |ws| > 0 && Fit(ws[..|ws| - 1], ts[..|ws| - 1]) && ws[|ws| - 1].Has(ts[|ws| - 1])
    requires |ws| > 1 ==> ts[|ws| - 2] <= ts[|ws| - 1]
    ensures Fit(ws, ts)
  {
    var n := |ws| - 1;
    assert forall i :: 0 <= i < n ==> ts[..n][i] == ts[i] && ws[..n][i] == ws[i];
  }

  lemma {:induction false} EarliestFits(base: int, ws: seq<Window>)
    requires AreCompatible(ws) && forall i :: 0 <= i < |ws| && ws[i].Within? ==> base <= ws[i].hi
    ensures Fit(ws, Earliest(base, ws))
    decreases |ws|
  {
    if ws != [] {
      var n := |ws| - 1;
      var init, ts := ws[..n], Earliest(base, ws);
      assert forall i :: 0 <= i < n ==> init[i] == ws[i];
      EarliestFits(base, init);
      if ws[n].Within? {
        EarliestIsWithin(base, init, ws[n].hi);
      }
      assert ts[..n] == Earliest(base, init);
      hide Fit, AreCompatible;
      AppendFits(ws, ts);
    }
  }

  /** The windows have points in their order if and only if no window begins after a later one ends. */
  lemma FitIff(ws: seq<Window>)
    ensures (exists ts :: Fit(ws, ts)) <==> AreCompatible(ws)
  {
    if ts :| Fit(ws, ts) {
      FittingAreCompatible(ws, ts);
    }
    hide AreCompatible, Fit;
    if AreCompatible(ws) {
      EarliestFits(Floor(ws), ws);
    }
  }

  lemma FittingAreCompatible(ws: seq<Window>, ts: seq<int>)
    requires Fit(ws, ts)
    ensures AreCompatible(ws)
  {
    forall i, j | 0 <= i <= j < |ws| && ws[i].Within? && ws[j].Within?
      ensures ws[i].lo <= ws[j].hi
    {
      assert ws[i].Has(ts[i]) && ws[j].Has(ts[j]) && ts[i] <= ts[j];
    }
  }
}
