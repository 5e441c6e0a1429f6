/** The configured maximal size of the Dead-Letter Queue. */
module DlqLimit {
  import opened DlqAccounts
  import opened DlqFiles
  import opened DlqProtocol
  import opened DlqSnapshot
  import opened MapSums
  import opened Wrappers

  /** Others may only delete or shrink files, failed writers remove theirs, and no untracked file is skipped. */
  ghost predicate Allowed(s: State, e: Event) {
    && HidesNothing(s, e) && (e.WriteFails? ==> e.removed)
    && (e.External? ==> forall name :: name in e.disk ==> name in s.disk && e.disk[name] <= s.disk[name])
    && (e.AbortWalk? ==> s.measured || e.closing)
  }

  ghost predicate IsAllowedRun(l: Limits, s: State, es: seq<Event>)
    requires IsRun(l, s, es)
    decreases |es|
  {
    es == [] || (Allowed(s, es[0]) && IsAllowedRun(l, Apply(l, s, es[0]), es[1..]))
  }

  ghost predicate DoneIsWithin(s: State) {
    forall p :: p in s.acc.newFiles && s.acc.newFiles[p].done ==> OnDisk(s.disk, p) <= s.acc.newFiles[p].size
  }

  /** The walk doesn't miss or underestimate any untracked file. */
  ghost predicate Covers(s: State) {
    s.walk.Walking? ==>
      && s.walk.size == Sum(s.walk.counts)
      && (forall e :: e in Loose(s) ==> e in s.walk.must)
      && (forall e :: e in s.walk.counts ==> e in s.walk.visited)
      && (forall e :: e in Loose(s) && e in s.walk.counts ==> s.walk.counts[e] >= Loose(s)[e])
      && (forall e :: e in Loose(s) && e in s.walk.visited ==> e in s.walk.counts || s.walk.pending == Some(e))
      && (s.walk.pending.Some? ==>
            && s.walk.pending.value in s.walk.listed && s.walk.pending.value in s.walk.visited
            && s.walk.pending.value !in s.walk.counts && Trim(s.walk.pending.value) !in s.acc.newFiles)
  }

  /** The untracked files that the walk didn't count yet. */
  function Uncounted(s: State): map<string, nat> {
    if s.walk.Walking? then Loose(s) - s.walk.counts.Keys else Loose(s)
  }

  /** What a measurement would find, if it ended now and nothing else changed. */
  ghost function Expected(s: State): nat {
    (if s.walk.Walking? then Sum(s.walk.counts) else 0) + Sum(Uncounted(s)) + Sum(Sizes(s.acc.newFiles))
  }

  ghost predicate Basics(s: State) {
    Inv(s) && NoLeaks(s) && DoneIsWithin(s) && Covers(s)
  }

  lemma DoneShrinks(l: Limits, s: State, e: Event, p: string)
    requires DoneIsWithin(s) && Enabled(l, s, e) && Allowed(s, e) && e.External?
    requires p in s.acc.newFiles && s.acc.newFiles[p].done
    ensures OnDisk(Apply(l, s, e).disk, p) <= s.acc.newFiles[p].size
  {
    hide Temp, Trim;
  }

  lemma DoneStaysWithin(l: Limits, s: State, e: Event)
    requires l.Enabled() && Inv(s) && DoneIsWithin(s) && Enabled(l, s, e) && Allowed(s, e)
    ensures DoneIsWithin(Apply(l, s, e))
  {
    var s' := Apply(l, s, e);
    assert e.External? ==> s'.acc == s.acc;
    hide Apply, Enabled, Allowed, Inv, OnDisk;
    forall p | p in s'.acc.newFiles && s'.acc.newFiles[p].done
      ensures OnDisk(s'.disk, p) <= s'.acc.newFiles[p].size
    {
      if e.External? {
        DoneShrinks(l, s, e, p);
      } else {
        DoneFile(l, s, e, p);
      }
    }
  }

  lemma NoLeaksAllowed(l: Limits, s: State, e: Event)
    requires Inv(s) && NoLeaks(s) && Enabled(l, s, e) && Allowed(s, e)
    ensures NoLeaks(Apply(l, s, e))
  {
    if e.External? {
      hide Temp, Trim;
    } else {
      NoLeaksStep(l, s, e);
    }
  }

  lemma CoversWriterStep(l: Limits, s: State, e: Event)
    requires l.Enabled() && Basics(s) && Enabled(l, s, e) && IsWriterEvent(e)
    ensures Covers(Apply(l, s, e))
    ensures s.walk.Walking? ==> WalkIsLeftAlone(s, Apply(l, s, e))
  {
    hide Inv, NoLeaks, DoneIsWithin, Apply, Enabled, IsWriterEvent, Loose, Sum, Trim;
    if s.walk.Walking? {
      WriterStepInWalk(l, s, e);
    } else {
      WriterStepOutsideWalk(l, s, e);
    }
  }

  lemma CoversStat(l: Limits, s: State)
    requires Basics(s) && Enabled(l, s, Stat)
    ensures Covers(Apply(l, s, Stat))
  {
    hide Temp, Trim, Sum, Inv, NoLeaks, DoneIsWithin;
    var name := s.walk.pending.value;
    assert Loose(Apply(l, s, Stat)) == Loose(s) && (name in Loose(s) ==> name in s.disk);
    assert name in Loose(s) ==> s.disk[name] == Loose(s)[name];
    hide Loose;
    if name in s.disk {
      SumOfUpdate(s.walk.counts, name, s.disk[name]);
    }
  }

  lemma CoversExternal(l: Limits, s: State, e: Event)
    requires Basics(s) && Enabled(l, s, e) && e.External? && Allowed(s, e)
    ensures Covers(Apply(l, s, e))
  {
    hide Temp, Trim, Sum, Inv, NoLeaks, DoneIsWithin;
    var s' := Apply(l, s, e);
    assert forall name :: name in Loose(s') ==>
      name in Loose(s) && Loose(s')[name] <= Loose(s)[name] && name in s'.disk;
    hide Loose;
  }

  lemma CoversOtherStep(l: Limits, s: State, e: Event)
    requires Basics(s) && Enabled(l, s, e) && !IsWriterEvent(e) && Allowed(s, e)
    ensures Covers(Apply(l, s, e))
  {
    hide Inv, NoLeaks, DoneIsWithin, Sum, Temp, Trim;
    if e.Stat? {
      hide Apply, Enabled, Covers;
      CoversStat(l, s);
    } else if e.External? {
      hide Apply, Enabled, Covers;
      CoversExternal(l, s, e);
    } else if e.BeginWalk? {
      NothingIsCounted();
    }
  }

  lemma NothingIsCounted()
    ensures Sum<string>(map[]) == 0
  {}

  lemma BasicsStep(l: Limits, s: State, e: Event)
    requires l.Enabled() && Basics(s) && Enabled(l, s, e) && Allowed(s, e)
    ensures Basics(Apply(l, s, e))
  {
    hide Apply, Inv, NoLeaks, DoneIsWithin, Covers, Enabled;
    InvStep(l, s, e);
    NoLeaksAllowed(l, s, e);
    DoneStaysWithin(l, s, e);
    if IsWriterEvent(e) {
      CoversWriterStep(l, s, e);
    } else {
      CoversOtherStep(l, s, e);
    }
  }

  /** A measurement that ends covers all the files. */
  lemma MeasureCoversTruth(l: Limits, s: State)
    requires Basics(s) && Enabled(l, s, EndWalk)
    ensures TruthOf(s) <= Measured(s.acc, s.walk.size) == Expected(s)
  {
    hide Temp, Trim, HasFiles, OnDisk;
    SumIsMonotonic(Loose(s), s.walk.counts);
    assert Uncounted(s) == map[];
    assert Sizes(s.acc.newFiles).Keys == s.acc.newFiles.Keys;
  }

  lemma {:induction false} UntrackWithin(disk: map<string, nat>, sizes: map<string, nat>, kept: map<string, nat>)
    requires forall p :: p in kept ==> p in sizes && kept[p] == sizes[p]
    requires forall p :: p in sizes && p !in kept ==> IsFinal(p) && OnDisk(disk, p) <= sizes[p]
    ensures Truth(disk, kept) <= Truth(disk, sizes)
    decreases |sizes|
  {
    hide Trim, Temp, OnDisk, IsFinal;
    if p :| p in sizes && p !in kept {
      UntrackOne(disk, sizes, p);
      UntrackWithin(disk, sizes - {p}, kept);
    } else {
      assert sizes == kept;
    }
  }

  lemma UntrackedIsWithin(s: State, p: string)
    requires Inv(s) && DoneIsWithin(s) && p in s.acc.newFiles && s.acc.newFiles[p].done
    ensures IsFinal(p) && OnDisk(s.disk, p) <= s.acc.newFiles[p].size
  {
    hide Temp, Trim, HasFiles, OnDisk;
  }

  lemma UntrackDone(s: State)
    requires Inv(s) && DoneIsWithin(s)
    ensures Truth(s.disk, Sizes(Pending(s.acc.newFiles))) <= TruthOf(s)
  {
    var files := s.acc.newFiles;
    hide IsFinal, OnDisk, Truth, Inv, DoneIsWithin;
    forall p | p in Sizes(files) && p !in Sizes(Pending(files))
      ensures IsFinal(p) && OnDisk(s.disk, p) <= Sizes(files)[p]
    {
      UntrackedIsWithin(s, p);
    }
    UntrackWithin(s.disk, Sizes(files), Sizes(Pending(files)));
  }

  lemma EndsWithin(l: Limits, s: State, e: Event)
    requires Basics(s) && Enabled(l, s, e) && (e.EndWalk? || e.AbortWalk?)
    ensures TruthOf(Apply(l, s, e)) <= TruthOf(s)
  {
    UntrackDone(s);
    hide Basics, Truth, Sizes, Pending, Measured, Temp, Trim;
  }

  /** The total size covers the files and what the current walk may still find, and it's within the cap. */
  ghost predicate Bounded(s: State, cap: int) {
    s.measured && TruthOf(s) <= s.acc.totalSize && Expected(s) <= s.acc.totalSize <= cap
  }

  /** If reserving space doesn't change the untracked files, it adds as much to what a measurement would find. */
  lemma ReserveIsExpected(l: Limits, s: State, path: string, size: nat)
    requires path !in s.acc.newFiles && l.Enabled() && Fits(l, s.acc, size)
    requires Loose(WithReservation(l, s, path, size)) == Loose(s)
    ensures Expected(WithReservation(l, s, path, size)) == Expected(s) + size
  {
    hide Untracked, Sum;
    var s' := WithReservation(l, s, path, size);
    assert Sizes(s'.acc.newFiles) == Sizes(s.acc.newFiles)[path := size];
    SumOfUpdate(Sizes(s.acc.newFiles), path, size);
  }

  lemma BoundedReserve(l: Limits, s: State, e: Event, cap: int)
    requires l.maxSize > 0 && Basics(s) && Enabled(l, s, e) && Allowed(s, e) && e.Reserve?
    requires Bounded(s, cap) && l.maxSize <= cap
    ensures Bounded(Apply(l, s, e), cap)
  {
    ReserveConserves(l, s, e);
    LooseAfterReserve(l, s, e);
    if Fits(l, s.acc, e.size) {
      assert e.path !in s.acc.newFiles;
      hide Inv, NoLeaks, DoneIsWithin, Covers, TruthOf, Expected, Loose;
      ReserveIsExpected(l, s, e.path, e.size);
    }
  }

  lemma IdleExpectsTruth(s: State)
    requires s.walk.Idle?
    ensures Expected(s) == TruthOf(s)
  {
    assert Sizes(s.acc.newFiles).Keys == s.acc.newFiles.Keys;
  }

  lemma ReleaseChangesSizes(a: Accounts, p: string, written: bool)
    requires p in a.newFiles && a.measuring
    ensures var b := AfterRelease(a, p, written);
      Sum(Sizes(b.newFiles)) - b.totalSize == Sum(Sizes(a.newFiles)) - a.totalSize
  {
    hide Sum;
    SizesOfRelease(a.newFiles, p, NewFile(a.newFiles[p].size, true));
    SumWithout(Sizes(a.newFiles), p);
  }

  lemma ReleaseInWalk(l: Limits, s: State, e: Event)
    requires Basics(s) && Enabled(l, s, e) && e.Release? && s.walk.Walking?
    ensures var s' := Apply(l, s, e); Expected(s') - s'.acc.totalSize == Expected(s) - s.acc.totalSize
  {
    LooseAfterRelease(l, s, e);
    ReleasedFile(l, s, e.path);
    var s' := Apply(l, s, e);
    hide Inv, NoLeaks, DoneIsWithin, Covers, Loose, Sizes, Sum, AfterRelease;
    ReleaseChangesSizes(s.acc, e.path, s.writers[e.path].phase == Renamed);
    assert Uncounted(s') == Uncounted(s);
  }

  lemma BoundedRelease(l: Limits, s: State, e: Event, cap: int)
    requires l.maxSize > 0 && Basics(s) && Enabled(l, s, e) && e.Release? && Bounded(s, cap)
    ensures Bounded(Apply(l, s, e), cap)
  {
    hide Temp, Trim, HasFiles, DoneIsWithin, Covers, Expected, TruthOf, Inv;
    ReleaseConserves(l, s, e);
    assert Leak(s, e) == 0;
    if s.walk.Walking? {
      ReleaseInWalk(l, s, e);
    } else {
      IdleExpectsTruth(Apply(l, s, e));
    }
  }

  lemma BoundedStat(l: Limits, s: State, cap: int)
    requires Basics(s) && Enabled(l, s, Stat) && Bounded(s, cap)
    ensures Bounded(Apply(l, s, Stat), cap)
  {
    hide Temp, Trim, HasFiles, DoneIsWithin, NoLeaks, Inv;
    var s', name := Apply(l, s, Stat), s.walk.pending.value;
    assert Loose(s') == Loose(s);
    if name in s.disk {
      SumWithout(Uncounted(s), name);
      SumOfUpdate(s.walk.counts, name, s.disk[name]);
      assert Uncounted(s') == Uncounted(s) - {name};
    }
  }

  lemma WalkExpects(l: Limits, s: State, e: Event)
    requires Enabled(l, s, e) && (e.BeginWalk? || e.List? || e.Check? || e.Skip?)
    ensures var s' := Apply(l, s, e);
      && Expected(s') == Expected(s) && s'.measured == s.measured && s'.disk == s.disk
      && s'.acc.newFiles == s.acc.newFiles && s'.acc.totalSize == s.acc.totalSize
  {
    hide Temp, Trim, Sum, Untracked;
    var s' := Apply(l, s, e);
    assert Loose(s') == Loose(s);
    if e.BeginWalk? {
      NothingIsCounted();
    }
    assert Uncounted(s') == Uncounted(s);
  }

  lemma BoundedWalk(l: Limits, s: State, e: Event, cap: int)
    requires Basics(s) && Enabled(l, s, e) && Bounded(s, cap)
    requires e.BeginWalk? || e.List? || e.Check? || e.Skip?
    ensures Bounded(Apply(l, s, e), cap)
  {
    hide Basics, Expected, Apply, Enabled;
    WalkExpects(l, s, e);
  }

  lemma BoundedExternal(l: Limits, s: State, e: Event, cap: int)
    requires Basics(s) && Enabled(l, s, e) && Allowed(s, e) && e.External? && Bounded(s, cap)
    ensures Bounded(Apply(l, s, e), cap)
  {
    hide Temp, Trim, HasFiles, DoneIsWithin, NoLeaks, Covers;
    var s' := Apply(l, s, e);
    SumIsMonotonic(Uncounted(s'), Uncounted(s));
    assert Sizes(s.acc.newFiles).Keys == s.acc.newFiles.Keys;
    SumIsMonotonic(Loose(s'), Loose(s));
  }

  lemma BoundedEnd(l: Limits, s: State, e: Event, cap: int)
    requires Basics(s) && Enabled(l, s, e) && (e.EndWalk? || e.AbortWalk?)
    requires (e.EndWalk? && Expected(s) <= cap) || Bounded(s, cap)
    ensures Bounded(Apply(l, s, e), cap)
  {
    hide Temp, Trim, HasFiles, DoneIsWithin, NoLeaks, Covers;
    EndsWithin(l, s, e);
    if e.EndWalk? {
      MeasureCoversTruth(l, s);
    }
    var s' := Apply(l, s, e);
    assert Sizes(s'.acc.newFiles).Keys == s'.acc.newFiles.Keys;
    assert Expected(s') == TruthOf(s');
  }

  lemma BoundedFile(l: Limits, s: State, e: Event, cap: int)
    requires l.maxSize > 0 && Basics(s) && Enabled(l, s, e) && IsFileEvent(e) && Bounded(s, cap)
    ensures Bounded(Apply(l, s, e), cap)
  {
    FilesConserve(l, s, e);
    FileStepExpects(l, s, e);
    assert Apply(l, s, e).measured == s.measured;
    hide Basics, Apply, Enabled, TruthOf, Expected;
  }

  lemma FileStepExpects(l: Limits, s: State, e: Event)
    requires Inv(s) && Enabled(l, s, e) && IsFileEvent(e)
    ensures Expected(Apply(l, s, e)) == Expected(s)
  {
    FilesConserve(l, s, e);
    var s' := Apply(l, s, e);
    assert s.walk.Walking? ==> s'.walk.Walking? && s'.walk.counts == s.walk.counts;
    assert s.walk.Idle? ==> s'.walk.Idle?;
    hide Apply, Enabled, Inv, Untracked, Sum;
  }

  lemma BoundedStep(l: Limits, s: State, e: Event, cap: int)
    requires l.maxSize > 0 && Basics(s) && Enabled(l, s, e) && Allowed(s, e)
    requires Bounded(s, cap) && l.maxSize <= cap
    ensures Bounded(Apply(l, s, e), cap)
  {
    hide Apply, Basics, Bounded, Enabled, Allowed;
    if IsFileEvent(e) {
      BoundedFile(l, s, e, cap);
    } else {
      match e
      case Reserve(_, _) => BoundedReserve(l, s, e, cap);
      case Release(_) => BoundedRelease(l, s, e, cap);
      case External(_) => BoundedExternal(l, s, e, cap);
      case EndWalk => BoundedEnd(l, s, e, cap);
      case AbortWalk(_) => BoundedEnd(l, s, e, cap);
      case Stat => BoundedStat(l, s, cap);
      case _ => BoundedWalk(l, s, e, cap);
    }
  }

  lemma {:induction false} BoundedRun(l: Limits, s: State, es: seq<Event>, cap: int)
    requires l.maxSize > 0 && Basics(s) && IsRun(l, s, es) && IsAllowedRun(l, s, es)
    requires Bounded(s, cap) && l.maxSize <= cap
    ensures Basics(After(l, s, es)) && Bounded(After(l, s, es), cap)
    decreases |es|
  {
    hide Apply, Basics, Bounded, Enabled, Allowed;
    if es != [] {
      BasicsStep(l, s, es[0]);
      BoundedStep(l, s, es[0], cap);
      BoundedRun(l, Apply(l, s, es[0]), es[1..], cap);
    }
  }

  /** No write reserves space before the first measurement ends. */
  ghost predicate Untouched(s: State) {
    !s.measured ==> s.writers == map[] && s.acc.newFiles == map[] && s.acc.totalSize == 0
  }

  lemma {:induction false} UntouchedRun(l: Limits, s: State, es: seq<Event>)
    requires l.maxSize > 0 && Inv(s) && Untouched(s) && IsRun(l, s, es)
    ensures Untouched(After(l, s, es))
    decreases |es|
  {
    hide Apply, Inv, Untouched, Enabled;
    if es != [] {
      InvStep(l, s, es[0]);
      UntouchedStep(l, s, es[0]);
      UntouchedRun(l, Apply(l, s, es[0]), es[1..]);
    }
  }

  lemma UntouchedStep(l: Limits, s: State, e: Event)
    requires l.maxSize > 0 && Inv(s) && Untouched(s) && Enabled(l, s, e)
    ensures Untouched(Apply(l, s, e))
  {
    hide Temp, Trim, HasFiles;
  }

  lemma {:induction false} BasicsRun(l: Limits, s: State, es: seq<Event>)
    requires l.Enabled() && Basics(s) && IsRun(l, s, es) && IsAllowedRun(l, s, es)
    ensures Basics(After(l, s, es))
    decreases |es|
  {
    hide Apply, Basics, Enabled, Allowed;
    if es != [] {
      BasicsStep(l, s, es[0]);
      BasicsRun(l, Apply(l, s, es[0]), es[1..]);
    }
  }

  lemma DiskIsWithinTotal(s: State, cap: int)
    requires Basics(s) && Bounded(s, cap)
    ensures Sum(s.disk) <= s.acc.totalSize <= cap
  {
    hide Temp, Trim;
    forall p | p in s.acc.newFiles
      ensures IsFinal(p) && OnDisk(s.disk, p) <= Sizes(s.acc.newFiles)[p]
    {
      WriterHasFiles(s, p);
    }
    DiskIsWithinTruth(s.disk, Sizes(s.acc.newFiles));
  }

  lemma BasicsAtStart(disk: map<string, nat>)
    ensures Basics(Start(disk)) && Untouched(Start(disk))
  {}

  /** With a maximal size, once the first measurement succeeded: all the bytes in the directory are within the
      total size, which is within the larger of the maximal size and the first measurement, in any run in which
      others don't add files, and failed writers remove theirs. */
  lemma LimitIsKept(l: Limits, disk: map<string, nat>, first: seq<Event>, es: seq<Event>)
    requires l.maxSize > 0 && IsRun(l, Start(disk), first) && IsAllowedRun(l, Start(disk), first)
    requires Enabled(l, After(l, Start(disk), first), EndWalk)
    requires var s := Apply(l, After(l, Start(disk), first), EndWalk); IsRun(l, s, es) && IsAllowedRun(l, s, es)
    ensures var s := Apply(l, After(l, Start(disk), first), EndWalk);
            var s' := After(l, s, es);
            Sum(s'.disk) <= s'.acc.totalSize <= if l.maxSize > s.acc.totalSize then l.maxSize else s.acc.totalSize
  {
    hide Apply, Basics, Bounded, Enabled, Allowed, IsRun, IsAllowedRun, After;
    var s0 := After(l, Start(disk), first);
    BasicsAtStart(disk);
    BasicsRun(l, Start(disk), first);
    var s := Apply(l, s0, EndWalk);
    EndMeasures(l, s0);
    var cap := if l.maxSize > s.acc.totalSize then l.maxSize else s.acc.totalSize;
    BoundedEnd(l, s0, EndWalk, cap);
    BasicsStep(l, s0, EndWalk);
    BoundedRun(l, s, es, cap);
    DiskIsWithinTotal(After(l, s, es), cap);
  }

  lemma EndMeasures(l: Limits, s: State)
    requires Basics(s) && Enabled(l, s, EndWalk)
    ensures Apply(l, s, EndWalk).acc.totalSize == Expected(s)
    ensures Allowed(s, EndWalk)
  {
    MeasureCoversTruth(l, s);
  }

  lemma RunOfOne(l: Limits, s: State, e: Event, es: seq<Event>)
    requires Enabled(l, s, e) && IsRun(l, Apply(l, s, e), es)
    ensures IsRun(l, s, [e] + es) && After(l, s, [e] + es) == After(l, Apply(l, s, e), es)
  {
    assert ([e] + es)[1..] == es;
  }

  /** An empty directory, after the first measurement. */
  function EmptyState(): State {
    State(Accounts(0, map[], false, false), map[], map[], Idle, true)
  }

  lemma MeasuringNothing(l: Limits, es: seq<Event>)
    requires l == Limits(10, 0) && IsRun(l, EmptyState(), es)
    ensures IsRun(l, Start(map[]), [BeginWalk, EndWalk] + es)
    ensures After(l, Start(map[]), [BeginWalk, EndWalk] + es) == After(l, EmptyState(), es)
  {
    var s0 := Start(map[]);
    var s1 := Apply(l, s0, BeginWalk);
    assert s1.walk.size == 0 && Sizes(s1.acc.newFiles) == map[];
    assert Apply(l, s1, EndWalk) == EmptyState();
    hide Apply, Enabled, IsRun, After;
    RunOfOne(l, s1, EndWalk, es);
    RunOfOne(l, s0, BeginWalk, [EndWalk] + es);
    assert [BeginWalk] + ([EndWalk] + es) == [BeginWalk, EndWalk] + es;
  }

  /** A failed write of 5 bytes, whose temporary file can't be removed. */
  function LeftoverRun(): seq<Event> {
    [Reserve("a", 5), Create("a"), Write("a", 5), WriteFails("a", false), Release("a")]
  }

  /** After the first steps of the failed write. */
  function WritingState(disk: map<string, nat>, phase: Phase): State {
    State(Accounts(5, map["a" := NewFile(5, false)], false, false), disk, map["a" := Writer(5, phase)], Idle, true)
  }

  lemma FirstLeftoverSteps(l: Limits)
    requires l == Limits(10, 0)
    ensures Enabled(l, EmptyState(), Reserve("a", 5))
    ensures Apply(l, EmptyState(), Reserve("a", 5)) == WritingState(map[], Phase.Reserved)
    ensures Enabled(l, WritingState(map[], Phase.Reserved), Create("a"))
    ensures Apply(l, WritingState(map[], Phase.Reserved), Create("a")) == WritingState(map[Temp("a") := 0], Writing)
  {
    assert IsFinal("a");
  }

  lemma LastLeftoverSteps(l: Limits)
    requires l == Limits(10, 0)
    ensures var s, t := WritingState(map[Temp("a") := 0], Writing), WritingState(map[Temp("a") := 5], Writing);
            && Enabled(l, s, Write("a", 5)) && Apply(l, s, Write("a", 5)) == t
            && Enabled(l, t, WriteFails("a", false))
            && var u := WritingState(map[Temp("a") := 5], Failed);
               && Apply(l, t, WriteFails("a", false)) == u
               && Enabled(l, u, Release("a"))
               && Apply(l, u, Release("a")).acc.totalSize == 0 && Apply(l, u, Release("a")).disk == map[Temp("a") := 5]
  {
    hide Temp;
  }

  lemma LeftoverTail(l: Limits)
    requires l == Limits(10, 0)
    ensures var s, es := WritingState(map[Temp("a") := 0], Writing), LeftoverRun()[2..];
      && IsRun(l, s, es) && After(l, s, es).acc.totalSize == 0 && After(l, s, es).disk == map[Temp("a") := 5]
  {
    LastLeftoverSteps(l);
    var e2, e3, e4 := Event.Write("a", 5), Event.WriteFails("a", false), Event.Release("a");
    assert LeftoverRun()[2..] == [e2] + ([e3] + ([e4] + []));
    var last := Apply(l, WritingState(map[Temp("a") := 5], Failed), e4);
    assert IsRun(l, last, []) && After(l, last, []) == last;
    hide Apply, Enabled, Temp, IsRun, After, WritingState, LeftoverRun;
    RunOfOne(l, WritingState(map[Temp("a") := 5], Failed), e4, []);
    RunOfOne(l, WritingState(map[Temp("a") := 5], Writing), e3, [e4] + []);
    RunOfOne(l, WritingState(map[Temp("a") := 0], Writing), e2, [e3] + ([e4] + []));
  }

  /** If a failed writer can't remove its file, the directory does exceed the total size, even right after the first
      measurement of an empty one. */
  lemma LeftoversExceedTotal(l: Limits)
    requires l == Limits(10, 0)
    ensures var es := [BeginWalk, EndWalk] + LeftoverRun();
      && IsRun(l, Start(map[]), es)
      && var s := After(l, Start(map[]), es); s.acc.totalSize == 0 && Sum(s.disk) == 5
  {
    FirstLeftoverSteps(l);
    LeftoverTail(l);
    LeftoverSize();
    var e0, e1, es := Event.Reserve("a", 5), Event.Create("a"), LeftoverRun()[2..];
    assert LeftoverRun() == [e0] + ([e1] + es);
    hide Apply, Enabled, Temp, IsRun, After, Sum, EmptyState, WritingState, LeftoverRun;
    RunOfOne(l, WritingState(map[], Phase.Reserved), e1, es);
    RunOfOne(l, EmptyState(), e0, [e1] + es);
    MeasuringNothing(l, LeftoverRun());
  }

  lemma LeftoverSize()
    ensures Sum(map[Temp("a") := 5 as nat]) == 5
  {
    var disk: map<string, nat> := map[Temp("a") := 5];
    SumWithout(disk, Temp("a"));
    assert disk - {Temp("a")} == map[];
  }
}
