/** What the Dead-Letter Queue's total size should be: the sizes of the untracked files in its
    directory, and the reserved sizes of the tracked ones. */
module DlqFiles {
  import opened DlqAccounts
  import opened MapSums

  /** Tracked paths never have the suffix of incomplete files. */
  predicate IsFinal(path: string) {
    Trim(path) == path
  }

  function Untracked(disk: map<string, nat>, paths: set<string>): map<string, nat> {
    map e | e in disk && Trim(e) !in paths :: disk[e]
  }

  ghost function Truth(disk: map<string, nat>, sizes: map<string, nat>): nat {
    Sum(Untracked(disk, sizes.Keys)) + Sum(sizes)
  }

  function SizeOf(disk: map<string, nat>, name: string): nat {
    if name in disk then disk[name] else 0
  }

  /** The actual size of a file, under either of its names. */
  function OnDisk(disk: map<string, nat>, path: string): nat {
    SizeOf(disk, path) + SizeOf(disk, Temp(path))
  }

  lemma NamesOf(path: string)
    requires IsFinal(path)
    ensures Temp(path) != path && Trim(Temp(path)) == path
    ensures forall e :: Trim(e) == path <==> e == path || e == Temp(path)
  {
    TrimOfTemp(path);
    forall e | Trim(e) == path
      ensures e == path || e == Temp(path)
    {
      if e != path {
        assert e == e[..|e| - |INCOMPLETE|] + e[|e| - |INCOMPLETE|..];
      }
    }
  }

  lemma SumWithMore(a: map<string, nat>, b: map<string, nat>, name: string)
    requires name !in a
    requires forall e {:trigger e in b} :: e in b && e != name <==> e in a
    requires forall e :: e in a ==> b[e] == a[e]
    ensures Sum(b) == Sum(a) + SizeOf(b, name)
  {
    if name in b {
      SumWithout(b, name);
      assert b - {name} == a;
    } else {
      assert b == a;
    }
  }

  /** The effect of not tracking a file anymore. */
  lemma UntrackOne(disk: map<string, nat>, sizes: map<string, nat>, path: string)
    requires path in sizes && IsFinal(path)
    ensures Truth(disk, sizes - {path}) == Truth(disk, sizes) - sizes[path] + OnDisk(disk, path)
  {
    NamesOf(path);
    hide Trim, Temp;
    SumWithout(sizes, path);
    var a := Untracked(disk, sizes.Keys);
    var c := Untracked(disk, (sizes - {path}).Keys);
    var b := map e | e in c && e != Temp(path) :: c[e];
    SumWithMore(a, b, path);
    SumWithMore(b, c, Temp(path));
  }

  /** Changes to tracked files don't matter. */
  lemma TruthIgnoresTracked(disk: map<string, nat>, disk': map<string, nat>, sizes: map<string, nat>)
    requires forall e {:trigger e in disk} {:trigger e in disk'} :: Trim(e) !in sizes ==>
               (e in disk <==> e in disk') && (e in disk ==> disk[e] == disk'[e])
    ensures Untracked(disk, sizes.Keys) == Untracked(disk', sizes.Keys)
    ensures Truth(disk, sizes) == Truth(disk', sizes)
  {
    hide Trim;
    assert Untracked(disk, sizes.Keys) == Untracked(disk', sizes.Keys);
  }

  /** If no tracked file exceeds its reserved size then the directory doesn't exceed the truth. */
  lemma {:induction false} DiskIsWithinTruth(disk: map<string, nat>, sizes: map<string, nat>)
    requires forall p :: p in sizes ==> IsFinal(p) && OnDisk(disk, p) <= sizes[p]
    ensures Sum(disk) <= Truth(disk, sizes)
    decreases |sizes|
  {
    hide Trim, Temp, OnDisk, IsFinal;
    if p :| p in sizes {
      UntrackOne(disk, sizes, p);
      DiskIsWithinTruth(disk, sizes - {p});
    } else {
      assert Untracked(disk, sizes.Keys) == disk;
      assert sizes == map[];
    }
  }

  /** Files that have their reserved sizes may be untracked together. */
  lemma {:induction false} UntrackComplete(disk: map<string, nat>, sizes: map<string, nat>, kept: map<string, nat>)
    requires forall p :: p in kept ==> p in sizes && kept[p] == sizes[p]
    requires forall p :: p in sizes && p !in kept ==> IsFinal(p) && OnDisk(disk, p) == sizes[p]
    ensures Truth(disk, sizes) == Truth(disk, kept)
    decreases |sizes|
  {
    hide Trim, Temp, OnDisk, IsFinal;
    if p :| p in sizes && p !in kept {
      UntrackOne(disk, sizes, p);
      UntrackComplete(disk, sizes - {p}, kept);
    } else {
      assert sizes == kept;
    }
  }
}
