/** The size accounting of the Dead-Letter Queue: the fields that its mutex protects, and the methods that hold it. */
module DlqAccounts {
  import opened MapSums

  const INCOMPLETE: string := ".incomplete"

  datatype NewFile = NewFile(size: nat, done: bool)

  datatype Limits = Limits(maxSize: nat, warnSize: nat)
  {
    predicate Enabled() { maxSize + warnSize != 0 }
  }

  datatype Accounts = Accounts(totalSize: int, newFiles: map<string, NewFile>, measuring: bool, warned: bool)

  /** The name of a file while it's being written. */
  function Temp(path: string): string {
    path + INCOMPLETE
  }

  function Trim(name: string): string {
    if |name| >= |INCOMPLETE| && name[|name| - |INCOMPLETE|..] == INCOMPLETE then name[..|name| - |INCOMPLETE|] else name
  }

  lemma TrimOfTemp(path: string)
    ensures Trim(Temp(path)) == path
  {
    assert Temp(path)[|path|..] == INCOMPLETE;
  }

  lemma TrimmedName(name: string)
    ensures name == Trim(name) || name == Temp(Trim(name))
  {}

  function Sizes(files: map<string, NewFile>): map<string, nat> {
    map p | p in files :: files[p].size
  }

  function Pending(files: map<string, NewFile>): map<string, NewFile> {
    map p | p in files && !files[p].done :: files[p]
  }

  /** Whether a warning is logged. */
  predicate Warns(l: Limits, a: Accounts) {
    !a.warned && l.warnSize != 0 && a.totalSize >= l.warnSize
  }

  function AfterWarning(l: Limits, a: Accounts): Accounts {
    a.(warned := a.warned || Warns(l, a))
  }

  predicate Fits(l: Limits, a: Accounts, size: nat) {
    l.maxSize == 0 || a.totalSize + size <= l.maxSize
  }

  function Reserved(a: Accounts, path: string, size: nat): Accounts {
    a.(totalSize := a.totalSize + size, newFiles := a.newFiles[path := NewFile(size, false)])
  }

  function AfterReserve(l: Limits, a: Accounts, path: string, size: nat): Accounts {
    if l.Enabled() && Fits(l, a, size) then AfterWarning(l, Reserved(a, path, size)) else a
  }

  function AfterRelease(a: Accounts, path: string, written: bool): Accounts {
    if path !in a.newFiles then a
    else
      var file := a.newFiles[path];
      if !written then a.(totalSize := a.totalSize - file.size, newFiles := a.newFiles - {path})
      else if a.measuring then a.(newFiles := a.newFiles[path := NewFile(file.size, true)])
      else a.(newFiles := a.newFiles - {path})
  }

  ghost function Measured(a: Accounts, walked: int): int {
    walked + Sum(Sizes(a.newFiles))
  }

  ghost function AfterMeasure(l: Limits, a: Accounts, walked: int, ok: bool): Accounts {
    var b := a.(measuring := false, newFiles := Pending(a.newFiles));
    if ok then
      var c := b.(totalSize := Measured(a, walked));
      AfterWarning(l, if c.totalSize < l.warnSize then c.(warned := false) else c)
    else b
  }

  /** What the file system does for a single write. */
  datatype Outcome = Outcome(mkdir: bool, create: bool, write: bool)

  datatype WriteResult = WriteOK | WriteRetry | WriteAbort

  const ATTEMPTS: nat := 3

  class DeadLetterQueue {
    const limits: Limits
    var totalSize: int
    var newFiles: map<string, NewFile>
    var measuring: bool
    var warned: bool

    constructor (limits: Limits)
      ensures this.limits == limits
      ensures State() == Accounts(0, map[], false, false)
    {
      this.limits := limits;
      totalSize, newFiles, measuring, warned := 0, map[], false, false;
    }

    function State(): Accounts
      reads this
    {
      Accounts(totalSize, newFiles, measuring, warned)
    }

    method WarnIfNeeded() returns (logged: bool)
      modifies this`warned
      ensures logged <==> !old(warned) && limits.warnSize > 0 && totalSize >= limits.warnSize
      ensures warned == (old(warned) || logged)
      ensures State() == AfterWarning(limits, old(State()))
    {
      if warned || limits.warnSize == 0 || totalSize < limits.warnSize {
        return false;
      }
      warned := true;
      return true;
    }

    method Reserve(path: string, size: nat) returns (ok: bool, logged: bool)
      modifies this
      ensures ok <==> limits.maxSize == 0 || old(totalSize) + size <= limits.maxSize
      ensures var tracks := ok && (limits.maxSize > 0 || limits.warnSize > 0);
        && totalSize == old(totalSize) + (if tracks then size else 0) && measuring == old(measuring)
        && newFiles == (if tracks then old(newFiles)[path := NewFile(size, false)] else old(newFiles))
        && (logged <==> tracks && !old(warned) && limits.warnSize > 0 && totalSize >= limits.warnSize)
        && warned == (old(warned) || logged)
      ensures State() == AfterReserve(limits, old(State()), path, size)
    {
      if limits.maxSize + limits.warnSize == 0 {
        return true, false;
      }
      if limits.maxSize > 0 && totalSize + size > limits.maxSize {
        return false, false;
      }
      totalSize := totalSize + size;
      newFiles := newFiles[path := NewFile(size, false)];
      logged := WarnIfNeeded();
      ok := true;
    }

    method Release(path: string, written: bool)
      modifies this
      ensures totalSize == old(totalSize) - (if path in old(newFiles) && !written then old(newFiles)[path].size else 0)
      ensures newFiles == if path in old(newFiles) && written && measuring
                          then old(newFiles)[path := NewFile(old(newFiles)[path].size, true)] else old(newFiles) - {path}
      ensures measuring == old(measuring) && warned == old(warned)
      ensures State() == AfterRelease(old(State()), path, written)
    {
      if path !in newFiles {
        return;
      }
      var file := newFiles[path];
      if !written {
        totalSize := totalSize - file.size;
        newFiles := newFiles - {path};
      } else if measuring {
        newFiles := newFiles[path := NewFile(file.size, true)];
      } else {
        newFiles := newFiles - {path};
      }
    }

    /** Only the accounting of a write, without interference. Failing to remove or to
        rename the temporary file affects neither the accounting nor the result. */
    method AsyncWriteFile(path: string, size: nat, fs: Outcome) returns (r: WriteResult)
      requires path !in newFiles
      modifies this
      ensures r == if limits.maxSize > 0 && old(totalSize) + size > limits.maxSize then WriteAbort
                   else if fs.mkdir && fs.create && fs.write then WriteOK else WriteRetry
      ensures totalSize
           == old(totalSize) + if r == WriteOK && (limits.maxSize > 0 || limits.warnSize > 0) then size else 0
      ensures newFiles == if r == WriteOK && (limits.maxSize > 0 || limits.warnSize > 0) && measuring
                          then old(newFiles)[path := NewFile(size, true)] else old(newFiles)
      ensures measuring == old(measuring) && (old(warned) ==> warned)
    {
      var ok, _ := Reserve(path, size);
      if !ok {
        return WriteAbort;
      }
      if !fs.mkdir || !fs.create || !fs.write {
        Release(path, false);
        assert newFiles == old(newFiles);
        return WriteRetry;
      }
      Release(path, true);
      assert !measuring || !limits.Enabled() ==> newFiles == old(newFiles);
      return WriteOK;
    }

    /** The attempts to write a single file: whatever happens, its size is accounted for at most once. */
    method SendFile(paths: seq<string>, size: nat, fs: seq<Outcome>) returns (written: bool)
      requires |paths| == |fs| == 3 && forall i :: 0 <= i < 3 ==> paths[i] !in newFiles
      modifies this
      ensures totalSize == old(totalSize) + if written && (limits.maxSize > 0 || limits.warnSize > 0) then size else 0
      ensures written <==> (exists i :: 0 <= i < 3 && fs[i].mkdir && fs[i].create && fs[i].write)
                           && (limits.maxSize == 0 || old(totalSize) + size <= limits.maxSize)
      ensures !(written && measuring) ==> newFiles == old(newFiles)
    {
      written := false;
      for i := 0 to ATTEMPTS
        invariant !written && totalSize == old(totalSize) && newFiles == old(newFiles) && measuring == old(measuring)
        invariant forall j :: 0 <= j < i ==> !(fs[j].mkdir && fs[j].create && fs[j].write)
        invariant i > 0 ==> limits.maxSize == 0 || old(totalSize) + size <= limits.maxSize
      {
        var r := AsyncWriteFile(paths[i], size, fs[i]);
        if r != WriteRetry {
          written := r == WriteOK;
          return;
        }
      }
    }

    method BeginMeasure()
      modifies this`measuring
      ensures State() == old(State()).(measuring := true)
    {
      measuring := true;
    }

    method IsTracked(name: string) returns (tracked: bool)
      ensures tracked == (Trim(name) in newFiles)
      ensures forall path :: path in newFiles ==>
                (name == path + ".incomplete" || name == path == Trim(path)) ==> tracked
      ensures tracked ==> name in newFiles || exists path :: path in newFiles && name == path + ".incomplete"
    {
      TrimmedName(name);
      forall path | path in newFiles
        ensures Trim(Temp(path)) == path
      {
        TrimOfTemp(path);
      }
      tracked := Trim(name) in newFiles;
    }

    /** The end of a measurement, after the walk. */
    method EndMeasure(walked: nat, ok: bool) returns (size: int, logged: bool)
      modifies this
      ensures size == walked + Sum(Sizes(old(newFiles)))
      ensures totalSize == (if ok then size else old(totalSize)) && !measuring
      ensures forall p :: p in newFiles <==> p in old(newFiles) && !old(newFiles)[p].done
      ensures forall p :: p in newFiles ==> newFiles[p] == old(newFiles)[p]
      ensures logged <==> ok && !old(warned) && limits.warnSize > 0 && size >= limits.warnSize
      ensures warned == if ok && limits.warnSize > 0 then size >= limits.warnSize else old(warned)
      ensures State() == AfterMeasure(limits, old(State()), walked, ok)
    {
      measuring := false;
      var tracked := TakeNewFiles();
      size := walked + tracked;
      logged := false;
      if ok {
        totalSize := size;
        if totalSize < limits.warnSize {
          warned := false;
        }
        logged := WarnIfNeeded();
      }
    }

    /** Sums up the sizes of all the tracked files, and stops tracking those that are done. */
    method TakeNewFiles() returns (size: nat)
      modifies this`newFiles
      ensures size == Sum(Sizes(old(newFiles)))
      ensures newFiles == Pending(old(newFiles))
    {
      size := 0;
      var left := newFiles;
      while left != map[]
        invariant forall p :: p in left ==> p in old(newFiles) && left[p] == old(newFiles)[p]
        invariant forall p :: p in newFiles <==> p in old(newFiles) && (p in left || !old(newFiles)[p].done)
        invariant forall p :: p in newFiles ==> newFiles[p] == old(newFiles)[p]
        invariant size + Sum(Sizes(left)) == Sum(Sizes(old(newFiles)))
        decreases |left|
      {
        var path :| path in left;
        SizesWithout(left, path);
        size := size + left[path].size;
        if left[path].done {
          newFiles := newFiles - {path};
        }
        left := left - {path};
      }
    }
  }

  lemma SizesWithout(files: map<string, NewFile>, path: string)
    requires path in files
    ensures Sum(Sizes(files)) == files[path].size + Sum(Sizes(files - {path}))
  {
    SumWithout(Sizes(files), path);
    assert Sizes(files) - {path} == Sizes(files - {path});
  }
}
