/** Unique and non-empty names for the columns of a result-set. */
module ColumnNames {
  import opened Text

  /** The first occurrence of a name which isn't empty is kept as-is. */
  predicate IsKept(cols: seq<string>, i: nat)
    requires i < |cols|
  {
    cols[i] != "" && cols[i] !in cols[..i]
  }

  /** The column's 1-based position. */
  function Suffix(i: nat): (s: string)
    ensures |s| > 0
  {
    "_" + Itoa(i + 1)
  }

  /** Taken names that may still conflict with a candidate. */
  ghost function Rivals(taken: set<string>, length: nat): set<string> {
    set name | name in taken && |name| >= length
  }

  /** The candidate is in conflict, so it gets longer, and it's no longer one of its own rivals. */
  lemma FewerRivals(taken: set<string>, name: string, suffix: string)
    requires name in taken && |suffix| > 0
    ensures Rivals(taken, |name + suffix|) < Rivals(taken, |name|)
  {
    assert name in Rivals(taken, |name|) && name !in Rivals(taken, |name + suffix|);
  }

  function Extend(taken: set<string>, name: string, suffix: string): (r: string)
    requires |suffix| > 0
    ensures r !in taken && name <= r
    decreases Rivals(taken, |name|)
  {
    if name in taken then
      FewerRivals(taken, name, suffix);
      Extend(taken, name + suffix, suffix)
    else name
  }

  function Repeat(s: string, n: nat): string {
    if n == 0 then "" else Repeat(s, n - 1) + s
  }

  /** The suffix is repeated at least once, and as few times as possible. */
  ghost predicate IsLeastFree(taken: set<string>, col: string, suffix: string, name: string) {
    exists n: nat :: IsFreeAfter(taken, col, suffix, name, n)
  }

  ghost predicate IsFreeAfter(taken: set<string>, col: string, suffix: string, name: string, n: nat) {
    && n > 0 && name == col + Repeat(suffix, n) && name !in taken
    && forall k :: 0 < k < n ==> col + Repeat(suffix, k) in taken
  }

  lemma {:induction false} ExtendRepeats(taken: set<string>, col: string, suffix: string, n: nat)
    requires suffix != "" && n > 0 && forall k :: 0 < k < n ==> col + Repeat(suffix, k) in taken
    ensures IsLeastFree(taken, col, suffix, Extend(taken, col + Repeat(suffix, n), suffix))
    decreases Rivals(taken, |col + Repeat(suffix, n)|)
  {
    var name := col + Repeat(suffix, n);
    if name in taken {
      FewerRivals(taken, name, suffix);
      assert name + suffix == col + Repeat(suffix, n + 1);
      ExtendRepeats(taken, col, suffix, n + 1);
    } else {
      assert IsFreeAfter(taken, col, suffix, name, n);
    }
  }

  lemma ExtendIsLeastFree(taken: set<string>, col: string, suffix: string)
    requires suffix != ""
    ensures IsLeastFree(taken, col, suffix, Extend(taken, col + suffix, suffix))
  {
    assert "" + suffix == suffix;
    assert col + Repeat(suffix, 1) == col + suffix;
    ExtendRepeats(taken, col, suffix, 1);
  }

  datatype Naming = Naming(names: seq<string>, taken: set<string>)

  /** The names of the first `n` columns. */
  function NamingUpTo(cols: seq<string>, n: nat): Naming
    requires n <= |cols|
  {
    if n == 0 then Naming([], set c | c in cols && c != "")
    else
      var p := NamingUpTo(cols, n - 1);
      if IsKept(cols, n - 1) then Naming(p.names + [cols[n - 1]], p.taken)
      else
        var name := Extend(p.taken, cols[n - 1] + Suffix(n - 1), Suffix(n - 1));
        Naming(p.names + [name], p.taken + {name})
  }

  function Names(cols: seq<string>): seq<string> {
    NamingUpTo(cols, |cols|).names
  }

  ghost predicate AreGood(cols: seq<string>, n: nat, p: Naming)
    requires n <= |cols|
  {
    && |p.names| == n
    && (forall c :: c in cols && c != "" ==> c in p.taken)
    && (forall i :: 0 <= i < n ==> p.names[i] != "" && p.names[i] in p.taken)
    && (forall i, j :: 0 <= i < j < n ==> p.names[i] != p.names[j])
    && (forall i :: 0 <= i < n ==>
          if IsKept(cols, i) then p.names[i] == cols[i]
          else p.names[i] !in cols && cols[i] + Suffix(i) <= p.names[i])
  }

  lemma {:induction false} NamingIsGood(cols: seq<string>, n: nat)
    requires n <= |cols|
    ensures AreGood(cols, n, NamingUpTo(cols, n))
  {
    if n > 0 {
      NamingIsGood(cols, n - 1);
      var before, i := NamingUpTo(cols, n - 1), n - 1;
      if IsKept(cols, i) {
        KeptIsNew(cols, i, before);
        OneMoreIsGood(cols, i, before, cols[i], before.taken);
      } else {
        ExtendedIsNew(cols, i, before);
        var name := Extend(before.taken, cols[i] + Suffix(i), Suffix(i));
        OneMoreIsGood(cols, i, before, name, before.taken + {name});
      }
      hide AreGood, Extend, Suffix;
    }
  }

  lemma OneMoreIsGood(cols: seq<string>, i: nat, before: Naming, name: string, taken: set<string>)
    requires i < |cols| && AreGood(cols, i, before) && taken >= before.taken
    requires name != "" && name in taken && forall j :: 0 <= j < i ==> before.names[j] != name
    requires if IsKept(cols, i) then name == cols[i] else name !in cols && cols[i] + Suffix(i) <= name
    ensures AreGood(cols, i + 1, Naming(before.names + [name], taken))
  {
    hide Suffix, IsKept;
    var names := before.names + [name];
    assert forall j :: 0 <= j < i ==> names[j] == before.names[j];
  }

  lemma KeptIsNew(cols: seq<string>, i: nat, before: Naming)
    requires i < |cols| && AreGood(cols, i, before) && IsKept(cols, i)
    ensures forall j :: 0 <= j < i ==> before.names[j] != cols[i]
    ensures cols[i] in before.taken
  {
    forall j | 0 <= j < i
      ensures before.names[j] != cols[i]
    {
      assert IsKept(cols, j) ==> cols[j] in cols[..i];
      assert cols[i] in cols;
    }
  }

  lemma ExtendedIsNew(cols: seq<string>, i: nat, before: Naming)
    requires i < |cols| && AreGood(cols, i, before) && !IsKept(cols, i)
    ensures var name := Extend(before.taken, cols[i] + Suffix(i), Suffix(i));
      && name != "" && name !in cols && cols[i] + Suffix(i) <= name
      && forall j :: 0 <= j < i ==> before.names[j] != name
  {}

  /** The columns' own names, and the ones that were generated for earlier columns. */
  function TakenBefore(cols: seq<string>, names: seq<string>, i: nat): set<string>
    requires i <= |names|
  {
    (set c | c in cols && c != "") + (set c | c in names[..i])
  }

  lemma {:induction false} NamesAreLeast(cols: seq<string>, n: nat, i: nat)
    requires i < n <= |cols| && !IsKept(cols, i)
    ensures var p := NamingUpTo(cols, n);
      |p.names| == n && IsLeastFree(TakenBefore(cols, p.names, i), cols[i], "_" + Itoa(i + 1), p.names[i])
    decreases n
  {
    hide IsLeastFree, Extend, NamingUpTo, TakenBefore;
    var before, names := NamingUpTo(cols, n - 1), NamingUpTo(cols, n).names;
    NextName(cols, n - 1);
    TakenUpTo(cols, n - 1);
    if i < n - 1 {
      NamesAreLeast(cols, n - 1, i);
    } else {
      ExtendIsLeastFree(before.taken, cols[i], "_" + Itoa(i + 1));
    }
    SameTaken(cols, before.names, names, i);
  }

  lemma SameTaken(cols: seq<string>, a: seq<string>, b: seq<string>, i: nat)
    requires i <= |a| <= |b| && a == b[..|a|]
    ensures TakenBefore(cols, a, i) == TakenBefore(cols, b, i)
  {
    assert a[..i] == b[..i];
  }

  lemma {:induction false} TakenUpTo(cols: seq<string>, n: nat)
    requires n <= |cols|
    ensures var p := NamingUpTo(cols, n); |p.names| == n && p.taken == TakenBefore(cols, p.names, n)
  {
    hide Extend, Suffix;
    if n > 0 {
      TakenUpTo(cols, n - 1);
      var p, before := NamingUpTo(cols, n), NamingUpTo(cols, n - 1);
      assert p.names[..n] == p.names == before.names[..n - 1] + [p.names[n - 1]];
    }
  }

  /** For every input, the names are as many as the columns, not empty, and pairwise distinct. First occurrences are
      kept. To others, which conflict with no column, their position is appended, as many times as it takes to get a
      name that's neither a column's nor an earlier generated one. */
  lemma NamesAreUnique(cols: seq<string>)
    ensures var names := Names(cols);
      && |names| == |cols|
      && (forall i :: 0 <= i < |cols| ==> names[i] != "")
      && (forall i, j :: 0 <= i < j < |cols| ==> names[i] != names[j])
      && (forall i :: 0 <= i < |cols| && cols[i] != "" && cols[i] !in cols[..i] ==> names[i] == cols[i])
      && (forall i :: 0 <= i < |cols| && (cols[i] == "" || cols[i] in cols[..i]) ==>
            && names[i] !in cols
            && IsLeastFree(TakenBefore(cols, names, i), cols[i], "_" + Itoa(i + 1), names[i]))
  {
    hide IsLeastFree;
    NamingIsGood(cols, |cols|);
    forall i: nat | i < |cols| && !IsKept(cols, i)
      ensures IsLeastFree(TakenBefore(cols, Names(cols), i), cols[i], "_" + Itoa(i + 1), Names(cols)[i])
    {
      NamesAreLeast(cols, |cols|, i);
    }
  }

  /** Names that need no change remain exactly as they are. */
  lemma GoodNamesRemain(cols: seq<string>)
    requires forall i :: 0 <= i < |cols| ==> IsKept(cols, i)
    ensures Names(cols) == cols
  {
    NamingIsGood(cols, |cols|);
  }

  /** The names in use, each with the position of the first column that has it. */
  ghost predicate IsFirstUse(cols: seq<string>, taken: map<string, int>, n: int)
    requires n <= |cols|
  {
    forall c :: c in taken && taken[c] != -1 ==> 0 <= taken[c] < n && cols[taken[c]] == c && IsKept(cols, taken[c])
  }

  method TakenNames(cols: seq<string>) returns (taken: map<string, int>, needsChange: bool)
    ensures forall c :: c in taken <==> c in cols && c != ""
    ensures forall c :: c in taken ==> taken[c] != -1
    ensures IsFirstUse(cols, taken, |cols|)
    ensures needsChange <==> exists j :: 0 <= j < |cols| && !IsKept(cols, j)
  {
    taken, needsChange := map[], false;
    for i := 0 to |cols|
      invariant forall c :: c in taken <==> c in cols[..i] && c != ""
      invariant forall c :: c in taken ==> taken[c] != -1
      invariant IsFirstUse(cols, taken, i)
      invariant needsChange <==> exists j :: 0 <= j < i && !IsKept(cols, j)
    {
      assert cols[..i + 1] == cols[..i] + [cols[i]];
      if cols[i] in taken || cols[i] == "" {
        needsChange := true;
        assert !IsKept(cols, i);
      } else {
        taken := taken[cols[i] := i];
      }
    }
    assert cols[..|cols|] == cols;
  }

  method FreeName(taken: map<string, int>, col: string, suffix: string) returns (name: string)
    requires suffix != ""
    ensures name == Extend(taken.Keys, col + suffix, suffix)
  {
    name := col + suffix;
    while name in taken
      invariant Extend(taken.Keys, name, suffix) == Extend(taken.Keys, col + suffix, suffix)
      decreases Rivals(taken.Keys, |name|)
    {
      FewerRivals(taken.Keys, name, suffix);
      name := name + suffix;
    }
  }

  lemma NoNamesYet(cols: seq<string>, taken: set<string>)
    requires forall c :: c in taken <==> c in cols && c != ""
    ensures NamingUpTo(cols, 0) == Naming([], taken)
  {}

  lemma NextName(cols: seq<string>, i: nat)
    requires i < |cols|
    ensures var p := NamingUpTo(cols, i);
      NamingUpTo(cols, i + 1) ==
        if IsKept(cols, i) then Naming(p.names + [cols[i]], p.taken)
        else
          var name := Extend(p.taken, cols[i] + Suffix(i), Suffix(i));
          Naming(p.names + [name], p.taken + {name})
  {}

  method UniqueNames(cols: seq<string>) returns (names: seq<string>)
    ensures names == Names(cols)
  {
    hide Extend, NamingUpTo, Suffix, IsKept;
    var taken, needsChange := TakenNames(cols);
    if !needsChange {
      GoodNamesRemain(cols);
      return cols;
    }

    names := [];
    NoNamesYet(cols, taken.Keys);
    for i := 0 to |cols|
      invariant NamingUpTo(cols, i) == Naming(names, taken.Keys)
      invariant IsFirstUse(cols, taken, |cols|)
      invariant forall c :: c in cols && c != "" ==> c in taken && taken[c] != -1
    {
      var col := cols[i];
      NextName(cols, i);
      if col in taken && taken[col] == i {
        names := names + [col];
        continue;
      }
      OnlyFirstIsKept(cols, taken, i);
      var name := FreeName(taken, col, Suffix(i));
      taken := taken[name := -1];
      names := names + [name];
    }
  }

  lemma OnlyFirstIsKept(cols: seq<string>, taken: map<string, int>, i: nat)
    requires i < |cols| && !(cols[i] in taken && taken[cols[i]] == i)
    requires forall c :: c in cols && c != "" ==> c in taken && taken[c] != -1
    requires IsFirstUse(cols, taken, |cols|)
    ensures !IsKept(cols, i)
  {
    var k := if cols[i] == "" then i else taken[cols[i]];
    assert k < i ==> cols[k] in cols[..i];
    assert k != i || cols[i] == "";
  }

  // ---- The cache of names while encoding rows.

  /** A list of names in memory, where lists with the same address and length are the same list. */
  datatype Slice = Slice(address: int, length: nat)

  function Contents(memory: int -> string, s: Slice): seq<string> {
    seq(s.length, k requires 0 <= k => memory(s.address + k))
  }

  predicate SameSlice(a: Slice, b: Slice) {
    a.length == b.length && (a.length == 0 || a.address == b.address)
  }

  /** Rows of the same result-set share a list of columns, so its names are computed only once. */
  method RowNames(memory: int -> string, rows: seq<Slice>) returns (all: seq<seq<string>>)
    ensures |all| == |rows|
    ensures forall i :: 0 <= i < |rows| ==> all[i] == Names(Contents(memory, rows[i]))
  {
    all := [];
    var cols, names := Slice(0, 0), [];
    assert Contents(memory, cols) == [];
    for i := 0 to |rows|
      invariant |all| == i && names == Names(Contents(memory, cols))
      invariant forall j :: 0 <= j < i ==> all[j] == Names(Contents(memory, rows[j]))
    {
      if !SameSlice(rows[i], cols) {
        cols := rows[i];
        names := UniqueNames(Contents(memory, cols));
      }
      assert Contents(memory, rows[i]) == Contents(memory, cols);
      all := all + [names];
    }
  }
}
