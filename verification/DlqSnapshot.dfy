/** Measuring the directory is a consistent snapshot, although the walk never holds the lock. */
module DlqSnapshot {
  import opened DlqAccounts
  import opened DlqFiles
  import opened DlqProtocol
  import opened MapSums
  import opened Wrappers

  ghost function TruthOf(s: State): nat {
    Truth(s.disk, Sizes(s.acc.newFiles))
  }

  /** By how much the files exceed the queue's total size. */
  ghost function Deficit(s: State): int {
    TruthOf(s) - s.acc.totalSize
  }

  ghost predicate Exact(s: State)
  {
    Deficit(s) == 0
  }

  /** The bytes that a failed writer leaves behind, because it couldn't remove its file. */
  function Leak(s: State, e: Event): nat {
    if e.Release? && InPhase(s, e.path, Failed) then SizeOf(s.disk, Temp(e.path)) else 0
  }

  /** Files that were written during a walk still have their reserved sizes. */
  ghost predicate DoneIsComplete(s: State) {
    forall p :: p in s.acc.newFiles && s.acc.newFiles[p].done ==> OnDisk(s.disk, p) == s.acc.newFiles[p].size
  }

  lemma SizesOfRelease(files: map<string, NewFile>, p: string, file: NewFile)
    ensures p in files && files[p].size == file.size ==> Sizes(files[p := file]) == Sizes(files)
    ensures Sizes(files - {p}) == Sizes(files) - {p}
    ensures p !in files ==> Sizes(files[p := file]) - {p} == Sizes(files)
  {}

  lemma ReserveConserves(l: Limits, s: State, e: Event)
    requires l.Enabled() && Inv(s) && Enabled(l, s, e) && e.Reserve?
    ensures Deficit(Apply(l, s, e)) == Deficit(s)
  {
    hide Temp, Trim, HasFiles;
    var s', p := Apply(l, s, e), e.path;
    if s' != s {
      assert p !in s.acc.newFiles;
      SizesOfRelease(s.acc.newFiles, p, NewFile(e.size, false));
      UntrackOne(s.disk, Sizes(s'.acc.newFiles), p);
    }
  }

  lemma FilesConserve(l: Limits, s: State, e: Event)
    requires Inv(s) && Enabled(l, s, e) && IsFileEvent(e)
    ensures Untracked(Apply(l, s, e).disk, s.acc.newFiles.Keys) == Untracked(s.disk, s.acc.newFiles.Keys)
    ensures TruthOf(Apply(l, s, e)) == TruthOf(s)
    ensures Apply(l, s, e).acc == s.acc
  {
    hide Temp, Trim, HasFiles;
    var s' := Apply(l, s, e);
    NamesOf(e.path);
    assert Sizes(s.acc.newFiles).Keys == s.acc.newFiles.Keys;
    TruthIgnoresTracked(s.disk, s'.disk, Sizes(s.acc.newFiles));
  }

  /** What's known about a file that's about to be released. */
  lemma ReleasedFile(l: Limits, s: State, p: string)
    requires Inv(s) && Enabled(l, s, Release(p))
    ensures p in s.writers && p in s.acc.newFiles && s.acc.newFiles[p].size == s.writers[p].size && IsFinal(p)
    ensures s.writers[p].phase == Renamed ==> OnDisk(s.disk, p) == s.writers[p].size
    ensures s.writers[p].phase != Renamed ==> OnDisk(s.disk, p) == SizeOf(s.disk, Temp(p)) == Leak(s, Release(p))
    ensures s.writers[p].phase == Renamed ==> Leak(s, Release(p)) == 0
  {
    hide Temp, Trim;
    WriterHasFiles(s, p);
  }

  lemma ReleaseChangesTruth(disk: map<string, nat>, a: Accounts, p: string, written: bool)
    requires p in a.newFiles && IsFinal(p)
    ensures var b := AfterRelease(a, p, written);
      Truth(disk, Sizes(b.newFiles)) - b.totalSize == Truth(disk, Sizes(a.newFiles)) - a.totalSize
        + (if !written then OnDisk(disk, p) else if a.measuring then 0 else OnDisk(disk, p) - a.newFiles[p].size)
  {
    hide Temp, Trim, OnDisk, Truth, IsFinal;
    SizesOfRelease(a.newFiles, p, NewFile(a.newFiles[p].size, true));
    assert p in Sizes(a.newFiles) && Sizes(a.newFiles)[p] == a.newFiles[p].size;
    hide Sizes;
    UntrackOne(disk, Sizes(a.newFiles), p);
  }

  lemma ReleaseConserves(l: Limits, s: State, e: Event)
    requires Inv(s) && Enabled(l, s, e) && e.Release?
    ensures Deficit(Apply(l, s, e)) == Deficit(s) + Leak(s, e)
  {
    hide Inv, HasFiles, OnDisk, Truth, IsFinal, Leak, AfterRelease, Sizes;
    ReleasedFile(l, s, e.path);
    ReleaseChangesTruth(s.disk, s.acc, e.path, s.writers[e.path].phase == Renamed);
  }

  lemma AbortConserves(l: Limits, s: State, e: Event)
    requires Inv(s) && Enabled(l, s, e) && e.AbortWalk? && DoneIsComplete(s)
    ensures Deficit(Apply(l, s, e)) == Deficit(s)
  {
    hide Temp, Trim, HasFiles, OnDisk;
    UntrackComplete(s.disk, Sizes(s.acc.newFiles), Sizes(Pending(s.acc.newFiles)));
  }

  /** The queue's own steps never change the difference between its total size and its files,
      except for what a failed writer leaves behind. */
  lemma StepConserves(l: Limits, s: State, e: Event)
    requires l.Enabled() && Inv(s) && Enabled(l, s, e) && DoneIsComplete(s)
    requires !e.External? && !e.EndWalk?
    ensures Deficit(Apply(l, s, e)) == Deficit(s) + Leak(s, e)
  {
    if IsFileEvent(e) {
      FilesConserve(l, s, e);
    } else if e.Reserve? {
      ReserveConserves(l, s, e);
    } else if e.Release? {
      ReleaseConserves(l, s, e);
    } else if e.AbortWalk? {
      AbortConserves(l, s, e);
    }
  }

  /** After a failed write the total size is still exact if and only if nothing was left behind. */
  lemma FailedWriteIsExactIfRemoved(l: Limits, s: State, p: string)
    requires l.Enabled() && Inv(s) && DoneIsComplete(s) && InPhase(s, p, Failed) && Exact(s)
    ensures Exact(Apply(l, s, Release(p))) <==> SizeOf(s.disk, Temp(p)) == 0
  {
    StepConserves(l, s, Release(p));
  }

  function Loose(s: State): map<string, nat> {
    Untracked(s.disk, s.acc.newFiles.Keys)
  }

  /** Skipping an unreadable entry hides no untracked file (for example, it was deleted after it was listed). */
  ghost predicate HidesNothing(s: State, e: Event) {
    e.Skip? ==> e.name !in Loose(s)
  }

  /** Nobody else changes the directory, failed writers remove their files, and no untracked file is skipped. */
  ghost predicate Quiet(s: State, e: Event) {
    !e.External? && HidesNothing(s, e) && (e.WriteFails? ==> e.removed)
  }

  ghost predicate IsQuietRun(l: Limits, s: State, es: seq<Event>)
    requires IsRun(l, s, es)
    decreases |es|
  {
    es == [] || (Quiet(s, es[0]) && IsQuietRun(l, Apply(l, s, es[0]), es[1..]))
  }

  ghost predicate NoLeaks(s: State) {
    forall p :: InPhase(s, p, Failed) ==> Temp(p) !in s.disk
  }

  /** What a walk counted so far is exactly what it visited of the untracked files. */
  ghost predicate Faithful(s: State) {
    s.walk.Walking? ==>
      && s.walk.size == Sum(s.walk.counts)
      && (forall e :: e in Loose(s) ==> e in s.walk.must)
      && (forall e :: e in s.walk.counts ==> e in Loose(s) && s.walk.counts[e] == Loose(s)[e] && e in s.walk.visited)
      && (forall e :: e in Loose(s) && e in s.walk.visited ==> e in s.walk.counts || s.walk.pending == Some(e))
      && (s.walk.pending.Some? ==>
            && s.walk.pending.value in s.walk.listed && s.walk.pending.value in s.walk.visited
            && s.walk.pending.value !in s.walk.counts && Trim(s.walk.pending.value) !in s.acc.newFiles)
  }

  ghost predicate Snapshot(s: State) {
    Inv(s) && DoneIsComplete(s) && NoLeaks(s) && Faithful(s)
  }

  lemma LooseAfterReserve(l: Limits, s: State, e: Event)
    requires l.Enabled() && Inv(s) && Enabled(l, s, e) && e.Reserve?
    ensures Loose(Apply(l, s, e)) == Loose(s)
    ensures s.walk.Walking? ==>
              forall name :: name in s.walk.listed ==>
                (Trim(name) in Apply(l, s, e).acc.newFiles <==> Trim(name) in s.acc.newFiles)
  {
    hide Temp, Trim, HasFiles;
    NamesOf(e.path);
  }

  /** While a walk is in progress, the untracked files are always the same ones. */
  lemma LooseAfterRelease(l: Limits, s: State, e: Event)
    requires Inv(s) && NoLeaks(s) && Enabled(l, s, e) && e.Release? && s.walk.Walking?
    ensures Loose(Apply(l, s, e)) == Loose(s)
  {
    ReleaseEffect(l, s, e.path);
    NamesOf(e.path);
    WriterHasFiles(s, e.path);
    hide Temp, Trim, Apply;
  }

  predicate IsWriterEvent(e: Event) {
    IsFileEvent(e) || e.Reserve? || e.Release?
  }

  /** Writers don't interfere with a walk: the files that it has to count remain the same, and names that it listed don't
      become tracked. */
  ghost predicate WalkIsLeftAlone(s: State, s': State) {
    && s.walk.Walking? && s'.walk.Walking? && s'.walk == s.walk.(must := s'.walk.must) && Loose(s') == Loose(s)
    && (forall name :: name in Loose(s) && name in s.walk.must ==> name in s'.walk.must)
    && (forall name :: name in s.walk.listed && Trim(name) in s'.acc.newFiles ==> Trim(name) in s.acc.newFiles)
  }

  lemma FileStepInWalk(l: Limits, s: State, e: Event)
    requires Inv(s) && Enabled(l, s, e) && IsFileEvent(e) && s.walk.Walking?
    ensures WalkIsLeftAlone(s, Apply(l, s, e))
  {
    hide Temp, Trim, HasFiles;
    FilesConserve(l, s, e);
    var s' := Apply(l, s, e);
    assert s'.walk == s.walk.(must := s.walk.must * s'.disk.Keys);
    hide Apply, Enabled, Inv;
    assert forall name :: name in Loose(s') ==> name in s'.disk;
    hide Untracked;
  }

  lemma ReleaseStepInWalk(l: Limits, s: State, e: Event)
    requires Inv(s) && NoLeaks(s) && Enabled(l, s, e) && e.Release? && s.walk.Walking?
    ensures WalkIsLeftAlone(s, Apply(l, s, e))
  {
    LooseAfterRelease(l, s, e);
    ReleaseEffect(l, s, e.path);
    hide Apply, Enabled, Inv, NoLeaks, Temp, Trim, Loose;
  }

  lemma ReserveStepInWalk(l: Limits, s: State, e: Event)
    requires l.Enabled() && Inv(s) && Enabled(l, s, e) && e.Reserve? && s.walk.Walking?
    ensures WalkIsLeftAlone(s, Apply(l, s, e))
  {
    LooseAfterReserve(l, s, e);
    hide Temp, Trim, Inv, Loose;
  }

  lemma WriterStepInWalk(l: Limits, s: State, e: Event)
    requires l.Enabled() && Inv(s) && NoLeaks(s) && Enabled(l, s, e) && IsWriterEvent(e) && s.walk.Walking?
    ensures WalkIsLeftAlone(s, Apply(l, s, e))
  {
    hide Inv, NoLeaks, Apply, Enabled, WalkIsLeftAlone, IsFileEvent;
    if IsFileEvent(e) {
      FileStepInWalk(l, s, e);
    } else if e.Reserve? {
      ReserveStepInWalk(l, s, e);
    } else {
      ReleaseStepInWalk(l, s, e);
    }
  }

  lemma WriterStepOutsideWalk(l: Limits, s: State, e: Event)
    requires Enabled(l, s, e) && IsWriterEvent(e) && s.walk.Idle?
    ensures Apply(l, s, e).walk.Idle?
  {}

  lemma FaithfulWriterStep(l: Limits, s: State, e: Event)
    requires l.Enabled() && Snapshot(s) && Enabled(l, s, e) && IsWriterEvent(e)
    ensures Faithful(Apply(l, s, e))
  {
    hide Inv, NoLeaks, DoneIsComplete, Apply, Enabled, IsWriterEvent, Loose, Sum, Trim;
    if s.walk.Walking? {
      WriterStepInWalk(l, s, e);
    } else {
      WriterStepOutsideWalk(l, s, e);
    }
  }

  lemma FaithfulStat(l: Limits, s: State)
    requires Snapshot(s) && Enabled(l, s, Stat)
    ensures Faithful(Apply(l, s, Stat))
  {
    hide Temp, Trim, Sum, Inv, NoLeaks, DoneIsComplete;
    var name := s.walk.pending.value;
    assert Loose(Apply(l, s, Stat)) == Loose(s) && (name in s.disk <==> name in Loose(s));
    assert name in s.disk ==> s.disk[name] == Loose(s)[name];
    hide Loose;
    if name in s.disk {
      SumOfUpdate(s.walk.counts, name, s.disk[name]);
    }
  }

  lemma FaithfulBegin(l: Limits, s: State)
    requires Enabled(l, s, BeginWalk)
    ensures Faithful(Apply(l, s, BeginWalk))
  {
    hide Trim;
  }

  lemma FaithfulWalkStep(l: Limits, s: State, e: Event)
    requires Snapshot(s) && Enabled(l, s, e) && !IsWriterEvent(e) && Quiet(s, e)
    ensures Faithful(Apply(l, s, e))
  {
    hide Inv, NoLeaks, DoneIsComplete, Sum, Temp, Trim;
    if e.Stat? {
      hide Apply, Enabled, Faithful;
      FaithfulStat(l, s);
    } else if e.BeginWalk? {
      hide Apply, Enabled, Faithful;
      FaithfulBegin(l, s);
    }
  }

  /** What may happen to a file that was completely written during a walk. */
  ghost predicate IsDoneFile(s: State, s': State, p: string)
    requires p in s'.acc.newFiles
  {
    || OnDisk(s'.disk, p) == s'.acc.newFiles[p].size
    || (p in s.acc.newFiles && s.acc.newFiles[p] == s'.acc.newFiles[p] && OnDisk(s'.disk, p) == OnDisk(s.disk, p))
  }

  lemma DoneInFileEvent(l: Limits, s: State, e: Event, p: string)
    requires Inv(s) && Enabled(l, s, e) && IsFileEvent(e)
    requires p in Apply(l, s, e).acc.newFiles && Apply(l, s, e).acc.newFiles[p].done
    ensures IsDoneFile(s, Apply(l, s, e), p)
  {
    hide Temp, Trim, HasFiles;
    WriterHasFiles(s, p);
    WriterHasFiles(s, e.path);
    OtherFilesDiffer(p, e.path);
  }

  lemma DoneInRelease(l: Limits, s: State, e: Event, p: string)
    requires Inv(s) && Enabled(l, s, e) && e.Release?
    requires p in Apply(l, s, e).acc.newFiles && Apply(l, s, e).acc.newFiles[p].done
    ensures IsDoneFile(s, Apply(l, s, e), p)
  {
    ReleaseEffect(l, s, e.path);
    ReleasedFile(l, s, e.path);
    hide Apply, Enabled, Inv, OnDisk, Temp;
  }

  lemma DoneFile(l: Limits, s: State, e: Event, p: string)
    requires l.Enabled() && Inv(s) && Enabled(l, s, e) && !e.External?
    requires p in Apply(l, s, e).acc.newFiles && Apply(l, s, e).acc.newFiles[p].done
    ensures IsDoneFile(s, Apply(l, s, e), p)
  {
    if IsFileEvent(e) {
      DoneInFileEvent(l, s, e, p);
      hide Apply, Enabled, Inv, IsDoneFile;
    } else if e.Release? {
      DoneInRelease(l, s, e, p);
      hide Apply, Enabled, Inv, IsDoneFile;
    } else {
      hide Inv, OnDisk, Temp, Trim;
    }
  }

  lemma DoneStaysComplete(l: Limits, s: State, e: Event)
    requires l.Enabled() && Inv(s) && DoneIsComplete(s) && Enabled(l, s, e) && !e.External?
    ensures DoneIsComplete(Apply(l, s, e))
  {
    var s' := Apply(l, s, e);
    hide Apply, Enabled, Inv, OnDisk;
    forall p | p in s'.acc.newFiles && s'.acc.newFiles[p].done
      ensures OnDisk(s'.disk, p) == s'.acc.newFiles[p].size
    {
      DoneFile(l, s, e, p);
    }
  }

  lemma NoLeaksStep(l: Limits, s: State, e: Event)
    requires Inv(s) && NoLeaks(s) && Enabled(l, s, e) && Quiet(s, e)
    ensures NoLeaks(Apply(l, s, e))
  {
    hide Temp, Trim;
    var s' := Apply(l, s, e);
    forall p | InPhase(s', p, Failed)
      ensures Temp(p) !in s'.disk
    {
      if IsFileEvent(e) {
        WriterHasFiles(s, e.path);
        if p != e.path {
          OtherFilesDiffer(p, e.path);
        }
      }
    }
  }

  /** A measurement that ends counted every untracked file exactly once. */
  lemma MeasureIsExact(l: Limits, s: State)
    requires Snapshot(s) && Enabled(l, s, EndWalk)
    ensures s.walk.size == Sum(Loose(s))
    ensures Measured(s.acc, s.walk.size) == TruthOf(s)
    ensures Exact(Apply(l, s, EndWalk))
  {
    hide Temp, Trim, OnDisk, HasFiles;
    assert s.walk.counts == Loose(s);
    assert Sizes(s.acc.newFiles).Keys == s.acc.newFiles.Keys;
    UntrackComplete(s.disk, Sizes(s.acc.newFiles), Sizes(Pending(s.acc.newFiles)));
  }

  lemma SnapshotStep(l: Limits, s: State, e: Event)
    requires l.Enabled() && Snapshot(s) && Enabled(l, s, e) && Quiet(s, e)
    ensures Snapshot(Apply(l, s, e))
    ensures Deficit(Apply(l, s, e)) == if e.EndWalk? then 0 else Deficit(s)
  {
    hide Apply, Temp, Trim, Inv, DoneIsComplete, Faithful, Deficit, Enabled;
    InvStep(l, s, e);
    DoneStaysComplete(l, s, e);
    NoLeaksStep(l, s, e);
    if IsWriterEvent(e) {
      FaithfulWriterStep(l, s, e);
    } else {
      FaithfulWalkStep(l, s, e);
    }
    if e.EndWalk? {
      MeasureIsExact(l, s);
    } else {
      StepConserves(l, s, e);
    }
  }

  /** As long as nobody else changes the directory and failed writers remove their files, the total size keeps its
      difference from the truth under all interleavings, and any successful measurement makes it exact. In
      particular, an exact total size isn't changed by measurements. */
  lemma {:induction false} QuietRunsAreExact(l: Limits, s: State, es: seq<Event>)
    requires l.Enabled() && Snapshot(s) && IsRun(l, s, es) && IsQuietRun(l, s, es)
    ensures Snapshot(After(l, s, es))
    ensures Deficit(After(l, s, es)) == if EndWalk in es then 0 else Deficit(s)
    decreases |es|
  {
    hide Apply, Snapshot, Deficit, Enabled, Quiet;
    if es != [] {
      SnapshotStep(l, s, es[0]);
      QuietRunsAreExact(l, Apply(l, s, es[0]), es[1..]);
    }
  }

  /** Whatever happened to the directory before, a successful measurement
      during which nobody else changes it makes the total size exact. */
  lemma MeasurementRepairs(l: Limits, disk: map<string, nat>, before: seq<Event>, es: seq<Event>)
    requires l.Enabled() && IsRun(l, Start(disk), before)
    requires var s := After(l, Start(disk), before);
      s.walk.Idle? && NoLeaks(s) && IsRun(l, s, es) && IsQuietRun(l, s, es)
    requires EndWalk in es
    ensures Exact(After(l, After(l, Start(disk), before), es))
  {
    hide Apply, After, Enabled, IsRun, IsQuietRun;
    InvRun(l, Start(disk), before);
    QuietRunsAreExact(l, After(l, Start(disk), before), es);
  }

  /** A write is kept if and only if there's no maximal size, or the total size and its own are within that. */
  lemma KeptIffWithinMaximum(l: Limits, s: State, path: string, size: nat)
    requires l.Enabled() && Enabled(l, s, Reserve(path, size))
    ensures var s' := Apply(l, s, Reserve(path, size));
      && (path in s'.writers <==> l.maxSize == 0 || s.acc.totalSize + size <= l.maxSize)
      && s'.acc.totalSize == s.acc.totalSize + (if path in s'.writers then size else 0)
      && s'.writers - {path} == s.writers
  {
    hide Temp, Trim;
  }

  /** So in every quiet run after a successful measurement, a write is discarded if and only if its size, together with
      those of all the files in the directory, where files in progress count as if they're complete, exceeds the maximum. */
  lemma DiscardedIffFull(l: Limits, disk: map<string, nat>, before: seq<Event>, es: seq<Event>, path: string, size: nat)
    requires l.Enabled() && IsRun(l, Start(disk), before)
    requires var s := After(l, Start(disk), before);
      s.walk.Idle? && NoLeaks(s) && IsRun(l, s, es) && IsQuietRun(l, s, es)
    requires EndWalk in es
    requires Enabled(l, After(l, After(l, Start(disk), before), es), Reserve(path, size))
    ensures var s := After(l, After(l, Start(disk), before), es);
      path !in Apply(l, s, Reserve(path, size)).writers <==>
        l.maxSize > 0
        && Sum(Untracked(s.disk, s.acc.newFiles.Keys)) + Sum(Sizes(s.acc.newFiles)) + size > l.maxSize
  {
    MeasurementRepairs(l, disk, before, es);
    var s := After(l, After(l, Start(disk), before), es);
    KeptIffWithinMaximum(l, s, path, size);
    assert Sizes(s.acc.newFiles).Keys == s.acc.newFiles.Keys;
    hide Apply, Enabled, IsRun, After, IsQuietRun;
  }
}
