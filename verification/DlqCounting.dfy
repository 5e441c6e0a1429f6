/** Every file of the queue is counted exactly once by a measurement, even while others change the directory. */
module DlqCounting {
  import opened DlqAccounts
  import opened DlqFiles
  import opened DlqProtocol
  import opened MapSums
  import opened Wrappers

  predicate IsTrackedName(s: State, name: string) {
    Trim(name) in s.acc.newFiles
  }

  /** Only visited names that aren't tracked are counted, each of them once, and whatever was there all along
      is counted as soon as it's visited. */
  ghost predicate CountsOnce(s: State) {
    s.walk.Walking? ==>
      && s.walk.must <= s.disk.Keys
      && s.walk.size == Sum(s.walk.counts)
      && s.walk.counts.Keys <= s.walk.visited
      && (s.walk.pending.Some? ==>
            s.walk.pending.value in s.walk.visited && s.walk.pending.value !in s.walk.counts)
      && (forall e :: e in s.walk.counts ==> !IsTrackedName(s, e) && e in s.walk.listed)
      && (s.walk.pending.Some? ==> !IsTrackedName(s, s.walk.pending.value) && s.walk.pending.value in s.walk.listed)
      && (forall e :: e in s.walk.visited && e in s.walk.must ==>
            || e in s.walk.counts || s.walk.pending == Some(e) || e in s.walk.skipped
            || IsTrackedName(s, e) || InPhase(s, Trim(e), Dropped))
  }

  lemma ListedStayUntracked(l: Limits, s: State, e: Event)
    requires l.Enabled() && Inv(s) && Enabled(l, s, e) && s.walk.Walking?
    ensures forall name :: name in s.walk.listed && !IsTrackedName(s, name) ==> !IsTrackedName(Apply(l, s, e), name)
  {
    hide Temp, Trim, HasFiles;
    if e.Reserve? {
      NamesOf(e.path);
    } else if e.Release? {
      ReleaseEffect(l, s, e.path);
      hide Apply, Enabled, Inv;
    }
  }

  lemma TrackedUntilDropped(l: Limits, s: State, e: Event, name: string)
    requires l.Enabled() && Inv(s) && Enabled(l, s, e) && s.walk.Walking? && Apply(l, s, e).walk.Walking?
    requires IsTrackedName(s, name) || InPhase(s, Trim(name), Dropped)
    ensures IsTrackedName(Apply(l, s, e), name) || InPhase(Apply(l, s, e), Trim(name), Dropped)
  {
    hide Temp, Trim, HasFiles;
    if e.Release? {
      ReleaseEffect(l, s, e.path);
      hide Apply, Enabled, Inv;
    } else {
      hide Inv;
    }
  }

  predicate IsWalkEvent(e: Event) {
    e.BeginWalk? || e.List? || e.Check? || e.Stat? || e.Skip? || e.EndWalk? || e.AbortWalk?
  }

  /** Nobody else interferes with the walk, but files that are gone don't have to be visited. */
  lemma OthersKeepWalk(l: Limits, s: State, e: Event)
    requires Enabled(l, s, e) && !IsWalkEvent(e) && s.walk.Walking?
    ensures var s' := Apply(l, s, e);
      s'.walk.Walking? && s'.walk == s.walk.(must := s'.walk.must) && s'.walk.must <= s.walk.must
      && (s.walk.must <= s.disk.Keys ==> s'.walk.must <= s'.disk.Keys)
  {
    hide Temp, Trim;
  }

  lemma CountsOnceOtherStep(l: Limits, s: State, e: Event)
    requires l.Enabled() && Inv(s) && CountsOnce(s) && Enabled(l, s, e) && !IsWalkEvent(e) && s.walk.Walking?
    ensures CountsOnce(Apply(l, s, e))
  {
    var s' := Apply(l, s, e);
    OthersKeepWalk(l, s, e);
    ListedStayUntracked(l, s, e);
    forall name | IsTrackedName(s, name) || InPhase(s, Trim(name), Dropped)
      ensures IsTrackedName(s', name) || InPhase(s', Trim(name), Dropped)
    {
      TrackedUntilDropped(l, s, e, name);
    }
    hide Apply, Enabled, Temp, Trim, HasFiles, Inv, InPhase, IsTrackedName;
  }

  /** The walk itself tracks nothing, and stops tracking only when it ends. */
  lemma WalkKeepsTracking(l: Limits, s: State, e: Event)
    requires Enabled(l, s, e) && IsWalkEvent(e) && !e.EndWalk? && !e.AbortWalk?
    ensures var s' := Apply(l, s, e);
      && s'.disk == s.disk && s'.walk.Walking?
      && (forall name :: IsTrackedName(s', name) == IsTrackedName(s, name))
      && (forall path :: InPhase(s', path, Dropped) == InPhase(s, path, Dropped))
  {
    hide Temp, Trim;
  }

  lemma CountsOnceStat(l: Limits, s: State)
    requires CountsOnce(s) && Enabled(l, s, Stat)
    ensures CountsOnce(Apply(l, s, Stat))
  {
    WalkKeepsTracking(l, s, Stat);
    if s.walk.pending.value in s.disk {
      SumOfUpdate(s.walk.counts, s.walk.pending.value, s.disk[s.walk.pending.value]);
    }
    hide Temp, Trim, Sum, InPhase, IsTrackedName;
  }

  lemma CountsOnceWalkStep(l: Limits, s: State, e: Event)
    requires Inv(s) && CountsOnce(s) && Enabled(l, s, e) && IsWalkEvent(e)
    ensures CountsOnce(Apply(l, s, e))
  {
    hide Inv, Sum, Temp;
    if e.EndWalk? || e.AbortWalk? {
      hide IsTrackedName, InPhase;
    } else if e.Stat? {
      CountsOnceStat(l, s);
      hide CountsOnce, Apply, Enabled;
    } else {
      assert e.Check? && !IsTrackedName(s, e.name) ==> Trim(e.name) !in s.acc.newFiles;
      assert e.Check? && IsTrackedName(s, e.name) ==> Trim(e.name) in s.acc.newFiles;
      NothingCountedYet();
      WalkKeepsTracking(l, s, e);
      hide Trim, InPhase, IsTrackedName;
    }
  }

  lemma NothingCountedYet()
    ensures Sum<string>(map[]) == 0
  {}

  lemma CountsOnceStep(l: Limits, s: State, e: Event)
    requires l.Enabled() && Inv(s) && CountsOnce(s) && Enabled(l, s, e)
    ensures CountsOnce(Apply(l, s, e))
  {
    if IsWalkEvent(e) {
      CountsOnceWalkStep(l, s, e);
      hide Apply, Enabled, CountsOnce, Inv;
    } else if s.walk.Walking? {
      CountsOnceOtherStep(l, s, e);
      hide Apply, Enabled, CountsOnce, Inv;
    }
  }

  lemma {:induction false} CountsOnceRun(l: Limits, s: State, es: seq<Event>)
    requires l.Enabled() && Inv(s) && CountsOnce(s) && IsRun(l, s, es)
    ensures Inv(After(l, s, es)) && CountsOnce(After(l, s, es))
    decreases |es|
  {
    hide Apply, Inv, CountsOnce, Enabled;
    if es != [] {
      InvStep(l, s, es[0]);
      CountsOnceStep(l, s, es[0]);
      CountsOnceRun(l, Apply(l, s, es[0]), es[1..]);
    }
  }

  lemma StartsCounting(disk: map<string, nat>)
    ensures Inv(Start(disk)) && CountsOnce(Start(disk))
  {}

  // ---- Sizes.

  /** The walk in progress doesn't end during these steps. */
  predicate IsOneWalk(es: seq<Event>) {
    forall e :: e in es ==> !e.EndWalk? && !e.AbortWalk?
  }

  lemma WalkGoesOn(l: Limits, s: State, e: Event)
    requires s.walk.Walking? && Enabled(l, s, e) && !e.EndWalk? && !e.AbortWalk?
    ensures Apply(l, s, e).walk.Walking?
  {}

  /** A size is counted only at the moment when it's read. */
  lemma CountsStep(l: Limits, s: State, e: Event, name: string)
    requires s.walk.Walking? && Enabled(l, s, e) && !e.EndWalk? && !e.AbortWalk?
    requires name in Apply(l, s, e).walk.counts
    ensures var count := Apply(l, s, e).walk.counts[name];
      || (name in s.walk.counts && s.walk.counts[name] == count) || (name in s.disk && s.disk[name] == count)
  {}

  ghost predicate HadSize(l: Limits, s: State, es: seq<Event>, n: nat, name: string, size: nat)
    requires IsRun(l, s, es) && n <= |es|
  {
    IsRun(l, s, es[..n]) && name in After(l, s, es[..n]).disk && After(l, s, es[..n]).disk[name] == size
  }

  lemma LaterSize(l: Limits, s: State, es: seq<Event>, n: nat, name: string, size: nat)
    requires es != [] && IsRun(l, s, es) && n < |es| && HadSize(l, Apply(l, s, es[0]), es[1..], n, name, size)
    ensures HadSize(l, s, es, n + 1, name, size)
  {
    assert es[..n + 1][0] == es[0] && es[..n + 1][1..] == es[1..][..n];
    hide Apply, Enabled;
  }

  /** Each size that the walk counted meanwhile is the file's size in some state of the walk. */
  lemma {:induction false} CountedSizes(l: Limits, s: State, es: seq<Event>, name: string) returns (n: nat)
    requires s.walk.Walking? && IsRun(l, s, es) && IsOneWalk(es)
    ensures After(l, s, es).walk.Walking? && n <= |es|
    ensures name in After(l, s, es).walk.counts ==>
      var count := After(l, s, es).walk.counts[name];
      || (name in s.walk.counts && s.walk.counts[name] == count)
      || HadSize(l, s, es, n, name, count)
    decreases |es|
  {
    hide HadSize, Apply, Enabled;
    n := 0;
    if es != [] {
      assert es[0] in es && forall e :: e in es[1..] ==> e in es;
      hide IsOneWalk;
      var s' := Apply(l, s, es[0]);
      WalkGoesOn(l, s, es[0]);
      var k := CountedSizes(l, s', es[1..], name);
      if name in s'.walk.counts {
        CountsStep(l, s, es[0], name);
      }
      SizeNow(l, s, es, name);
      var s'' := After(l, s, es);
      if name in s''.walk.counts && HadSize(l, s', es[1..], k, name, s''.walk.counts[name]) {
        LaterSize(l, s, es, k, name, s''.walk.counts[name]);
        n := k + 1;
      }
    }
  }

  lemma SizeNow(l: Limits, s: State, es: seq<Event>, name: string)
    requires IsRun(l, s, es)
    ensures name in s.disk ==> HadSize(l, s, es, 0, name, s.disk[name])
  {
    hide Apply, Enabled;
    assert es[..0] == [] && IsRun(l, s, []) && After(l, s, []) == s;
  }

  /** At the end of any successful measurement, whatever others do to the directory meanwhile: the total is the sum of
      the tracked and the counted sizes. A tracked file has its full reserved size, and neither of its names was counted
      by the walk. Any other name was counted once or not at all, and only if it was listed. If it was in the directory
      all along then it was counted, unless it was skipped as unreadable, or a failed writer left it behind. */
  lemma EachFileCountsOnce(l: Limits, disk: map<string, nat>, es: seq<Event>)
    requires l.Enabled() && IsRun(l, Start(disk), es)
    requires Enabled(l, After(l, Start(disk), es), EndWalk)
    ensures var s := After(l, Start(disk), es);
            && Apply(l, s, EndWalk).acc.totalSize == s.walk.size + Sum(Sizes(s.acc.newFiles))
            && s.walk.size == Sum(s.walk.counts) && s.walk.counts.Keys <= s.walk.listed
            && (forall p :: p in s.acc.newFiles ==>
                  && p in s.writers && Sizes(s.acc.newFiles)[p] == s.writers[p].size
                  && p !in s.walk.counts && Temp(p) !in s.walk.counts)
            && (forall name :: name in s.walk.must && Trim(name) !in s.acc.newFiles ==>
                  name in s.walk.counts || name in s.walk.skipped || InPhase(s, Trim(name), Dropped))
  {
    hide Apply, Enabled, Inv, CountsOnce, IsRun, After;
    StartsCounting(disk);
    CountsOnceRun(l, Start(disk), es);
    FilesAreCounted(l, After(l, Start(disk), es));
  }

  lemma FilesAreCounted(l: Limits, s: State)
    requires Inv(s) && CountsOnce(s) && Enabled(l, s, EndWalk)
    ensures Apply(l, s, EndWalk).acc.totalSize == s.walk.size + Sum(Sizes(s.acc.newFiles))
    ensures s.walk.size == Sum(s.walk.counts) && s.walk.counts.Keys <= s.walk.listed
    ensures forall p :: p in s.acc.newFiles ==>
              && p in s.writers && Sizes(s.acc.newFiles)[p] == s.writers[p].size
              && p !in s.walk.counts && Temp(p) !in s.walk.counts
    ensures forall name :: name in s.walk.must && Trim(name) !in s.acc.newFiles ==>
              name in s.walk.counts || name in s.walk.skipped || InPhase(s, Trim(name), Dropped)
  {
    hide Temp, Trim, HasFiles;
    forall p | p in s.acc.newFiles
      ensures p !in s.walk.counts && Temp(p) !in s.walk.counts
    {
      NamesOf(p);
      assert IsTrackedName(s, p) && IsTrackedName(s, Temp(p));
    }
  }

  /** And each size that was counted is one that the file really had, in some state between the beginning of the walk
      and its end. */
  lemma CountedSizesAreReal(l: Limits, disk: map<string, nat>, before: seq<Event>, during: seq<Event>, name: string)
    returns (n: nat)
    requires l.Enabled() && IsRun(l, Start(disk), before)
    requires var s := After(l, Start(disk), before);
      && Enabled(l, s, BeginWalk) && IsRun(l, Apply(l, s, BeginWalk), during) && IsOneWalk(during)
    ensures var s := Apply(l, After(l, Start(disk), before), BeginWalk);
      && n <= |during| && After(l, s, during).walk.Walking?
      && (name in After(l, s, during).walk.counts ==>
            HadSize(l, s, during, n, name, After(l, s, during).walk.counts[name]))
  {
    var s := Apply(l, After(l, Start(disk), before), BeginWalk);
    assert s.walk.Walking? && s.walk.counts == map[];
    hide Apply, Enabled, IsRun, After, HadSize;
    n := CountedSizes(l, s, during, name);
  }
}
