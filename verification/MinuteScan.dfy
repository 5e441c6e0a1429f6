/** The reference that `Next` is compared with: look at every single minute, one after the other. */
module MinuteScan {
  import opened Durations
  import opened Wrappers

  /** The first of w, w + 1min, w + 2min, ... before the limit for which p holds. */
  function Scan(p: int -> bool, w: int, limit: int): (r: Option<int>)
    decreases limit - w
  {
    if w >= limit then None
    else if p(w) then Some(w)
    else Scan(p, w + MINUTE, limit)
  }

  predicate OnGrid(w: int, u: int) {
    (u - w) % MINUTE == 0
  }

  /** p holds for none of w, w + 1min, w + 2min, ... before the end. */
  ghost predicate NoneIn(p: int -> bool, w: int, end: int) {
    forall u {:trigger p(u)} :: w <= u < end && OnGrid(w, u) ==> !p(u)
  }

  lemma NextOnGrid(w: int, u: int)
    ensures OnGrid(w, u) <==> OnGrid(w + MINUTE, u)
    ensures OnGrid(w, u) && w < u ==> w + MINUTE <= u
  {
    var d := u - w;
    if d % MINUTE == 0 {
      assert d == MINUTE * (d / MINUTE);
    }
  }

  lemma {:induction false} ScanIsLeast(p: int -> bool, w: int, limit: int)
    ensures Scan(p, w, limit) == None ==> NoneIn(p, w, limit)
    ensures Scan(p, w, limit).Some? ==>
              var r := Scan(p, w, limit).value;
              w <= r < limit && OnGrid(w, r) && p(r) && NoneIn(p, w, r)
    decreases limit - w
  {
    if w < limit && !p(w) {
      ScanIsLeast(p, w + MINUTE, limit);
      forall u ensures (OnGrid(w, u) <==> OnGrid(w + MINUTE, u)) && (OnGrid(w, u) && w < u ==> w + MINUTE <= u) {
        NextOnGrid(w, u);
      }
    }
  }

  /** Scanning may start later, if p holds for nothing before. */
  lemma {:induction false} ScanSkips(p: int -> bool, w: int, w': int, limit: int)
    requires w <= w' && OnGrid(w, w')
    requires NoneIn(p, w, w')
    ensures Scan(p, w, limit) == Scan(p, w', limit)
    decreases w' - w
  {
    if w < w' {
      assert OnGrid(w, w) && !p(w);
      NextOnGrid(w, w');
      forall u ensures OnGrid(w, u) <==> OnGrid(w + MINUTE, u) {
        NextOnGrid(w, u);
      }
      ScanSkips(p, w + MINUTE, w', limit);
    }
  }
}
