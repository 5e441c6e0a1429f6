/** The Dead-Letter Queue as a state machine: concurrent writers, and a measurement which walks the directory
    without holding the lock. Each event is one step of one goroutine, between which the others may run. */
module DlqProtocol {
  import opened DlqAccounts
  import opened DlqFiles
  import opened Wrappers

  /** The progress of a writer: it reserved its file's size; it created the temporary file; creating or writing
      it failed; it's fully written and synced; the writer tried to rename it. In the end the writer released it,
      after a success or after a failure. */
  datatype Phase = Reserved | Writing | Failed | Complete | Renamed | Ended | Dropped

  datatype Writer = Writer(size: nat, phase: Phase)

  /** A walk: the names that were in the directory all along, the names that it found, those that it already
      visited, those that it skipped because they're unreadable, the one whose size it's about to read, the sizes
      that it read, and their sum. An unreadable subdirectory is skipped with all the names in it. */
  datatype Walk =
    | Idle
    | Walking(must: set<string>, listed: set<string>, visited: set<string>, skipped: set<string>,
              pending: Option<string>, counts: map<string, nat>, size: nat)

  datatype State = State(acc: Accounts, disk: map<string, nat>, writers: map<string, Writer>, walk: Walk, measured: bool)

  datatype Event =
    | Reserve(path: string, size: nat)
    | Create(path: string)
    | CreateFails(path: string)
    | Write(path: string, written: nat)
    | WriteFails(path: string, removed: bool)
    | Finish(path: string)
    | Rename(path: string, renamed: bool)
    | Release(path: string)
    | BeginWalk
    | List(name: string)
    | Check(name: string)
    | Stat
    | Skip(name: string)
    | EndWalk
    | AbortWalk(closing: bool)
    | External(disk: map<string, nat>)

  function Start(disk: map<string, nat>): State {
    State(Accounts(0, map[], false, false), disk, map[], Idle, false)
  }

  predicate InPhase(s: State, path: string, phase: Phase) {
    path in s.writers && s.writers[path].phase == phase
  }

  predicate IsOwn(s: State, name: string) {
    Trim(name) in s.writers && InProgress(s.writers[Trim(name)])
  }

  predicate InProgress(w: Writer) {
    w.phase != Ended && w.phase != Dropped
  }

  /** File names are unique. */
  predicate IsNew(s: State, path: string) {
    && IsFinal(path) && path !in s.writers && path !in s.disk && Temp(path) !in s.disk
    && (s.walk.Walking? ==> path !in s.walk.listed && Temp(path) !in s.walk.listed)
  }

  ghost predicate Enabled(l: Limits, s: State, e: Event) {
    match e
    case Reserve(p, _) => (l.maxSize > 0 ==> s.measured) && IsNew(s, p) // Writers wait for the first measurement.
    case Create(p) => InPhase(s, p, Reserved)
    case CreateFails(p) => InPhase(s, p, Reserved)
    case Write(p, n) => InPhase(s, p, Writing) && SizeOf(s.disk, Temp(p)) <= n <= s.writers[p].size
    case WriteFails(p, _) => InPhase(s, p, Writing)
    case Finish(p) => InPhase(s, p, Writing) && SizeOf(s.disk, Temp(p)) == s.writers[p].size
    case Rename(p, _) => InPhase(s, p, Complete) && Temp(p) in s.disk
    case Release(p) => InPhase(s, p, Failed) || InPhase(s, p, Renamed)
    case BeginWalk => s.walk.Idle?
    case List(name) => s.walk.Walking? && name in s.disk
    case Check(name) => s.walk.Walking? && s.walk.pending == None && name in s.walk.listed && name !in s.walk.visited
    case Stat => s.walk.Walking? && s.walk.pending.Some?
    case Skip(name) => s.walk.Walking?
    case EndWalk => s.walk.Walking? && s.walk.pending == None && s.walk.must <= s.walk.visited
    case AbortWalk(_) => s.walk.Walking?
    case External(disk) => // Others never touch the files of writers in progress.
      forall name :: IsOwn(s, name) ==> (name in disk <==> name in s.disk) && SizeOf(disk, name) == SizeOf(s.disk, name)
  }

  function WithDisk(s: State, disk: map<string, nat>): State {
    s.(disk := disk, walk := if s.walk.Walking? then s.walk.(must := s.walk.must * disk.Keys) else s.walk)
  }

  function WithPhase(s: State, path: string, phase: Phase): State
    requires path in s.writers
  {
    s.(writers := s.writers[path := s.writers[path].(phase := phase)])
  }

  function FileChange(s: State, path: string, disk: map<string, nat>, phase: Phase): State
    requires path in s.writers
  {
    WithDisk(WithPhase(s, path, phase), disk)
  }

  function WithReservation(l: Limits, s: State, path: string, size: nat): State {
    if Fits(l, s.acc, size)
    then s.(acc := AfterReserve(l, s.acc, path, size), writers := s.writers[path := Writer(size, Reserved)])
    else s
  }

  ghost function Apply(l: Limits, s: State, e: Event): State
    requires Enabled(l, s, e)
  {
    match e
    case Reserve(p, size) => WithReservation(l, s, p, size)
    case Create(p) => FileChange(s, p, s.disk[Temp(p) := 0], Writing)
    case CreateFails(p) => FileChange(s, p, s.disk, Failed)
    case Write(p, n) => FileChange(s, p, s.disk[Temp(p) := n], Writing)
    case WriteFails(p, removed) => FileChange(s, p, if removed then s.disk - {Temp(p)} else s.disk, Failed)
    case Finish(p) => FileChange(s, p, s.disk, Complete)
    case Rename(p, renamed) =>
      FileChange(s, p, if renamed then (s.disk - {Temp(p)})[p := s.disk[Temp(p)]] else s.disk, Renamed)
    case Release(p) =>
      var written := s.writers[p].phase == Renamed;
      WithPhase(s, p, if written then Ended else Dropped).(acc := AfterRelease(s.acc, p, written))
    case BeginWalk =>
      s.(acc := s.acc.(measuring := true), walk := Walking(s.disk.Keys, {}, {}, {}, None, map[], 0))
    case List(name) => s.(walk := s.walk.(listed := s.walk.listed + {name}))
    case Check(name) =>
      var walk := s.walk.(visited := s.walk.visited + {name});
      s.(walk := if Trim(name) in s.acc.newFiles then walk else walk.(pending := Some(name)))
    case Stat =>
      var name := s.walk.pending.value;
      var walk := s.walk.(pending := None);
      s.(walk := if name !in s.disk then walk
                 else walk.(counts := walk.counts[name := s.disk[name]], size := walk.size + s.disk[name]))
    case Skip(name) =>
      s.(walk := s.walk.(visited := s.walk.visited + {name}, skipped := s.walk.skipped + {name},
                         pending := if s.walk.pending == Some(name) then None else s.walk.pending))
    case EndWalk => s.(acc := AfterMeasure(l, s.acc, s.walk.size, true), walk := Idle, measured := true)
    case AbortWalk(closing) =>
      s.(acc := AfterMeasure(l, s.acc, s.walk.size, false), walk := Idle, measured := s.measured || !closing)
    case External(disk) => WithDisk(s, disk)
  }

  ghost predicate IsRun(l: Limits, s: State, es: seq<Event>)
    decreases |es|
  {
    es == [] || (Enabled(l, s, es[0]) && IsRun(l, Apply(l, s, es[0]), es[1..]))
  }

  ghost function After(l: Limits, s: State, es: seq<Event>): State
    requires IsRun(l, s, es)
    decreases |es|
  {
    if es == [] then s else After(l, Apply(l, s, es[0]), es[1..])
  }

  /** What the file system holds for a writer in progress. */
  predicate HasFiles(disk: map<string, nat>, path: string, w: Writer) {
    match w.phase
    case Reserved => path !in disk && Temp(path) !in disk
    case Writing => path !in disk && Temp(path) in disk && disk[Temp(path)] <= w.size
    case Failed => path !in disk && SizeOf(disk, Temp(path)) <= w.size
    case Complete => path !in disk && Temp(path) in disk && disk[Temp(path)] == w.size
    case Renamed => OnDisk(disk, path) == w.size && (path in disk <==> Temp(path) !in disk)
    case Ended => true
    case Dropped => true
  }

  ghost predicate Inv(s: State) {
    && (s.acc.measuring <==> s.walk.Walking?)
    && (forall p :: p in s.writers ==> IsFinal(p) && HasFiles(s.disk, p, s.writers[p]))
    && (forall p :: p in s.writers && InProgress(s.writers[p]) ==> p in s.acc.newFiles)
    && (forall p :: p in s.acc.newFiles ==>
          && p in s.writers && s.acc.newFiles[p].size == s.writers[p].size
          && s.writers[p].phase != Dropped
          && (s.acc.newFiles[p].done <==> s.writers[p].phase == Ended)
          && (s.acc.newFiles[p].done ==> s.walk.Walking?))
  }

  lemma InvAtStart(disk: map<string, nat>)
    ensures Inv(Start(disk))
  {}

  /** The files of different writers have different names. */
  lemma OtherFilesDiffer(p: string, q: string)
    requires IsFinal(p) && IsFinal(q) && p != q
    ensures p != Temp(q) && Temp(p) != q && Temp(p) != Temp(q)
  {
    NamesOf(p);
    NamesOf(q);
  }

  lemma OthersKeepFiles(s: State, disk: map<string, nat>, p: string)
    requires IsFinal(p) && forall q :: q in s.writers ==> IsFinal(q) && HasFiles(s.disk, q, s.writers[q])
    requires forall name :: name != p && name != Temp(p) ==>
               (name in disk <==> name in s.disk) && SizeOf(disk, name) == SizeOf(s.disk, name)
    ensures forall q :: q in s.writers && q != p ==> HasFiles(disk, q, s.writers[q])
  {
    hide Temp, Trim;
    forall q | q in s.writers && q != p
      ensures HasFiles(disk, q, s.writers[q])
    {
      OtherFilesDiffer(p, q);
      assert SizeOf(disk, q) == SizeOf(s.disk, q) && SizeOf(disk, Temp(q)) == SizeOf(s.disk, Temp(q));
    }
  }

  predicate IsFileEvent(e: Event) {
    e.Create? || e.CreateFails? || e.Write? || e.WriteFails? || e.Finish? || e.Rename?
  }

  lemma InvAfterFileChange(s: State, p: string, disk: map<string, nat>, phase: Phase)
    requires Inv(s) && p in s.writers && InProgress(s.writers[p]) && phase != Ended && phase != Dropped
    requires forall name :: name != p && name != Temp(p) ==>
               (name in disk <==> name in s.disk) && SizeOf(disk, name) == SizeOf(s.disk, name)
    requires HasFiles(disk, p, s.writers[p].(phase := phase))
    ensures Inv(FileChange(s, p, disk, phase))
  {
    hide Temp, Trim, IsFinal, HasFiles, SizeOf;
    OthersKeepFiles(s, disk, p);
    var s' := FileChange(s, p, disk, phase);
    assert s'.acc == s.acc && s'.disk == disk && (s'.walk.Walking? <==> s.walk.Walking?);
    assert s'.writers[p] == s.writers[p].(phase := phase);
    assert forall q :: q in s'.writers <==> q in s.writers;
    assert forall q :: q in s.writers && q != p ==> s'.writers[q] == s.writers[q];
    hide FileChange, WithPhase, WithDisk;
  }

  lemma InvFileStep(l: Limits, s: State, e: Event)
    requires Inv(s) && Enabled(l, s, e) && IsFileEvent(e)
    ensures Inv(Apply(l, s, e))
  {
    hide Temp, Trim, IsFinal, Inv;
    WriterHasFiles(s, e.path);
    NamesOf(e.path);
    match e
    case Create(p) => InvAfterFileChange(s, p, s.disk[Temp(p) := 0], Writing);
    case CreateFails(p) => InvAfterFileChange(s, p, s.disk, Failed);
    case Finish(p) => InvAfterFileChange(s, p, s.disk, Complete);
    case Write(p, n) => InvAfterFileChange(s, p, s.disk[Temp(p) := n], Writing);
    case WriteFails(p, removed) =>
      InvAfterFileChange(s, p, if removed then s.disk - {Temp(p)} else s.disk, Failed);
    case Rename(p, renamed) =>
      InvAfterFileChange(s, p, if renamed then (s.disk - {Temp(p)})[p := s.disk[Temp(p)]] else s.disk, Renamed);
  }

  lemma WriterHasFiles(s: State, p: string)
    requires Inv(s) && p in s.writers
    ensures IsFinal(p) && HasFiles(s.disk, p, s.writers[p])
  {}

  lemma InvExternalStep(l: Limits, s: State, e: Event)
    requires Inv(s) && Enabled(l, s, e) && e.External?
    ensures Inv(Apply(l, s, e))
  {
    hide Temp, Trim, IsFinal;
    forall p | p in s.writers
      ensures HasFiles(e.disk, p, s.writers[p])
    {
      NamesOf(p);
      assert InProgress(s.writers[p]) ==> IsOwn(s, p) && IsOwn(s, Temp(p));
    }
  }

  lemma InvReserveStep(l: Limits, s: State, e: Event)
    requires l.Enabled() && Inv(s) && Enabled(l, s, e) && e.Reserve?
    ensures Inv(Apply(l, s, e))
  {
    hide Temp, Trim, IsFinal;
  }

  /** Releasing changes only the file's own writer and its own tracking. */
  lemma ReleaseEffect(l: Limits, s: State, p: string)
    requires Inv(s) && Enabled(l, s, Release(p))
    ensures var s' := Apply(l, s, Release(p));
            && s'.disk == s.disk && s'.walk == s.walk && s'.acc.measuring == s.acc.measuring
            && p in s.writers && s'.writers == s.writers[p := s'.writers[p]]
            && s'.writers[p] == s.writers[p].(phase := if s.writers[p].phase == Renamed then Ended else Dropped)
            && (forall q :: q != p ==> (q in s'.acc.newFiles <==> q in s.acc.newFiles))
            && (forall q :: q != p && q in s.acc.newFiles ==> s'.acc.newFiles[q] == s.acc.newFiles[q])
            && (p in s'.acc.newFiles <==> s.writers[p].phase == Renamed && s.walk.Walking?)
            && (p in s'.acc.newFiles ==> s'.acc.newFiles[p] == NewFile(s.writers[p].size, true))
  {
    hide Temp, Trim, IsFinal, HasFiles;
  }

  lemma NothingLeft(disk: map<string, nat>, path: string, w: Writer)
    requires !InProgress(w)
    ensures HasFiles(disk, path, w)
  {}

  lemma InvReleaseStep(l: Limits, s: State, e: Event)
    requires Inv(s) && Enabled(l, s, e) && e.Release?
    ensures Inv(Apply(l, s, e))
  {
    hide Apply, Enabled, Temp, Trim, IsFinal, HasFiles;
    var s' := Apply(l, s, e);
    ReleaseEffect(l, s, e.path);
    NothingLeft(s.disk, e.path, s'.writers[e.path]);
    forall q | q in s'.acc.newFiles
      ensures && q in s'.writers && s'.acc.newFiles[q].size == s'.writers[q].size && s'.writers[q].phase != Dropped
              && (s'.acc.newFiles[q].done <==> s'.writers[q].phase == Ended)
              && (s'.acc.newFiles[q].done ==> s'.walk.Walking?)
    {
      assert q != e.path ==> s'.writers[q] == s.writers[q];
    }
    forall q | q in s'.writers
      ensures IsFinal(q) && HasFiles(s'.disk, q, s'.writers[q])
      ensures InProgress(s'.writers[q]) ==> q in s'.acc.newFiles
    {
      assert q != e.path ==> s'.writers[q] == s.writers[q];
    }
  }

  lemma InvStep(l: Limits, s: State, e: Event)
    requires l.Enabled() && Inv(s) && Enabled(l, s, e)
    ensures Inv(Apply(l, s, e))
  {
    hide Temp, Trim, IsFinal, HasFiles;
    if IsFileEvent(e) {
      InvFileStep(l, s, e);
    } else if e.External? {
      InvExternalStep(l, s, e);
    } else if e.Reserve? {
      InvReserveStep(l, s, e);
    } else if e.Release? {
      InvReleaseStep(l, s, e);
    } else {
      InvOtherStep(l, s, e);
    }
  }

  lemma InvOtherStep(l: Limits, s: State, e: Event)
    requires Inv(s) && Enabled(l, s, e)
    requires !IsFileEvent(e) && !e.External? && !e.Reserve? && !e.Release?
    ensures Inv(Apply(l, s, e))
  {
    hide Temp, Trim, IsFinal, HasFiles;
  }

  lemma {:induction false} InvRun(l: Limits, s: State, es: seq<Event>)
    requires l.Enabled() && Inv(s) && IsRun(l, s, es)
    ensures Inv(After(l, s, es))
    decreases |es|
  {
    hide Apply, Inv, Enabled;
    if es != [] {
      InvStep(l, s, es[0]);
      InvRun(l, Apply(l, s, es[0]), es[1..]);
    }
  }
}
