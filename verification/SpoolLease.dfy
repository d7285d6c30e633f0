/** The builders, readers and invalidators that share one placement spool under
    `mPlacementSpoolMutex`. Every step below is one critical section, or one
    action outside it; a wait on the condition variable is a step that is enabled
    only while its predicate holds. */
module SpoolLeases {
  import opened Options

  type Directory = nat

  /** Where a thread stands in `ensure_placement_spool`, `get_chunks` or
      `invalidate_placement_spool`. */
  datatype Phase =
    | Idle
    | FirstWait
    | SecondWait
    | Building(made: Option<Directory>)
    | CleaningUp(made: Option<Directory>)
    | Ensured
    | Reading(dir: Option<Directory>)
    | WaitToInvalidate
    | WaitForUsers
    | Removing(taken: Option<Directory>)

  datatype Spool = Spool(
    ready: bool, building: bool, invalidating: bool, readers: nat, directory: Option<Directory>, failed: bool,
    existing: set<Directory>, next: Directory, threads: map<nat, Phase>)

  datatype Action =
    | StartEnsure | PassFirst | PassSecond | MakeDirectory | Publish | Fail(reported: bool) | CleanUp(removed: bool)
    | Register | Release
    | StartInvalidate | PassInvalidate | PassUsers | RemoveFiles(removed: bool) | FinishInvalidate

  function Goes(s: Spool, t: nat, phase: Phase): Spool {
    s.(threads := s.threads[t := phase])
  }

  /** Taking over as the builder. */
  function Build(s: Spool, t: nat): Spool {
    Goes(s.(building := true, failed := false), t, Building(None))
  }

  /** The invalidator takes the directory out of the shared state. */
  function Take(s: Spool, t: nat): Spool {
    Goes(s.(ready := false, directory := None, failed := false), t, Removing(s.directory))
  }

  function Without(existing: set<Directory>, dir: Option<Directory>, removed: bool): set<Directory> {
    if removed && dir.Some? then existing - {dir.value} else existing
  }

  /** The steps of `ensure_placement_spool`; `None` when not enabled. */
  function BuilderStep(s: Spool, t: nat, phase: Phase, action: Action): Option<Spool> {
    match (action, phase)
    case (StartEnsure, Idle) => Some(Goes(s, t, FirstWait))
    case (PassFirst, FirstWait) =>
      if s.invalidating then None
      else if s.ready then Some(Goes(s, t, Ensured))
      else if s.building then Some(Goes(s, t, SecondWait))
      else Some(Build(s, t))
    case (PassSecond, SecondWait) =>
      if s.building && !s.ready then None
      else if s.ready then Some(Goes(s, t, Ensured))
      else if s.failed then Some(Goes(s, t, Idle))
      else Some(Build(s, t))
    case (MakeDirectory, Building(None)) =>
      Some(Goes(s.(existing := s.existing + {s.next}, next := s.next + 1), t, Building(Some(s.next))))
    case (Publish, Building(Some(dir))) =>
      Some(Goes(s.(directory := Some(dir), failed := false, building := false, ready := true), t, Ensured))
    case (Fail(reported), Building(made)) =>
      Some(Goes(s.(directory := None, building := false, ready := false, failed := reported), t, CleaningUp(made)))
    case (CleanUp(removed), CleaningUp(made)) =>
      Some(Goes(s.(existing := Without(s.existing, made, removed)), t, Idle))
    case _ => None
  }

  /** The registration and release of a reader in `get_chunks`. */
  function ReaderStep(s: Spool, t: nat, phase: Phase, action: Action): Option<Spool> {
    match (action, phase)
    case (Register, Ensured) =>
      if s.invalidating || !s.ready then Some(Goes(s, t, FirstWait))
      else Some(Goes(s.(readers := s.readers + 1), t, Reading(s.directory)))
    case (Release, Reading(_)) =>
      Some(Goes(s.(readers := if s.readers != 0 then s.readers - 1 else s.readers), t, Idle))
    case _ => None
  }

  /** The steps of `invalidate_placement_spool`. */
  function InvalidatorStep(s: Spool, t: nat, phase: Phase, action: Action): Option<Spool> {
    match (action, phase)
    case (StartInvalidate, Idle) => Some(Goes(s, t, WaitToInvalidate))
    case (PassInvalidate, WaitToInvalidate) =>
      if s.invalidating then None
      else
        var begun := s.(invalidating := true, ready := false);
        if s.building || s.readers != 0 then Some(Goes(begun, t, WaitForUsers)) else Some(Take(begun, t))
    case (PassUsers, WaitForUsers) =>
      if s.building || s.readers != 0 then None else Some(Take(s, t))
    case (RemoveFiles(removed), Removing(taken)) =>
      Some(Goes(s.(existing := Without(s.existing, taken, removed)), t, Removing(None)))
    case (FinishInvalidate, Removing(None)) => Some(Goes(s.(invalidating := false), t, Idle))
    case _ => None
  }

  predicate Reads(action: Action) {
    action.Register? || action.Release?
  }

  predicate Clears(action: Action) {
    action.StartInvalidate? || action.PassInvalidate? || action.PassUsers? || action.RemoveFiles?
      || action.FinishInvalidate?
  }

  /** One step of thread `t`. */
  function Next(s: Spool, t: nat, action: Action): Option<Spool> {
    if t !in s.threads then None
    else if Reads(action) then ReaderStep(s, t, s.threads[t], action)
    else if Clears(action) then InvalidatorStep(s, t, s.threads[t], action)
    else BuilderStep(s, t, s.threads[t], action)
  }

  function Start(threads: set<nat>): Spool {
    Spool(false, false, false, 0, None, false, {}, 0, map t | t in threads :: Idle)
  }

  datatype Event = Event(thread: nat, action: Action)

  /** A run: any threads, interleaved in any way. */
  function Runs(threads: set<nat>, events: seq<Event>): Option<Spool> {
    if events == [] then Some(Start(threads))
    else
      match Runs(threads, events[..|events| - 1])
      case None => None
      case Some(s) => Next(s, events[|events| - 1].thread, events[|events| - 1].action)
  }

  function Readers(threads: map<nat, Phase>): set<nat> {
    set t | t in threads && threads[t].Reading?
  }

  function Builders(threads: map<nat, Phase>): set<nat> {
    set t | t in threads && threads[t].Building?
  }

  predicate Invalidates(phase: Phase) {
    phase.WaitForUsers? || phase.Removing?
  }

  function Invalidators(threads: map<nat, Phase>): set<nat> {
    set t | t in threads && Invalidates(threads[t])
  }

  /** The directory a thread owns alone: it made or took it, and will remove it
      unless it publishes it. */
  function Owned(phase: Phase): Option<Directory> {
    match phase
    case Building(made) => made
    case CleaningUp(made) => made
    case Removing(taken) => taken
    case _ => None
  }

  /** The flags count the threads in each role: at most one builds and at most
      one invalidates. */
  ghost predicate Counts(s: Spool) {
    && |Builders(s.threads)| == (if s.building then 1 else 0)
    && |Invalidators(s.threads)| == (if s.invalidating then 1 else 0)
    && s.readers == |Readers(s.threads)|
  }

  /** What is published or being read exists, and what a thread owns is neither
      published, nor read, nor owned twice. */
  ghost predicate Directories(s: Spool) {
    && (s.ready ==> s.directory.Some?)
    && (s.directory.Some? ==> s.directory.value in s.existing)
    && (forall d | d in s.existing :: d < s.next)
    && (forall t | t in s.threads && s.threads[t].Reading? ::
          s.threads[t].dir.Some? && s.threads[t].dir.value in s.existing)
    && (forall t | t in s.threads && s.threads[t].Building? && s.threads[t].made.Some? ::
      s.threads[t].made.value in s.existing)
    && (forall t | t in s.threads && Owned(s.threads[t]).Some? :: Unshared(s, t, Owned(s.threads[t]).value))
  }

  ghost predicate Unshared(s: Spool, t: nat, d: Directory) {
    && d < s.next && s.directory != Some(d)
    && forall u | u in s.threads :: s.threads[u] != Reading(Some(d)) && (u != t ==> Owned(s.threads[u]) != Some(d))
  }

  ghost predicate Inv(s: Spool) {
    Counts(s) && Directories(s)
  }

  function One(b: bool): nat {
    if b then 1 else 0
  }

  lemma Recounted(threads: map<nat, Phase>, t: nat, phase: Phase)
    requires t in threads
    ensures |Builders(threads[t := phase])| == |Builders(threads)| - One(threads[t].Building?) + One(phase.Building?)
    ensures |Readers(threads[t := phase])| == |Readers(threads)| - One(threads[t].Reading?) + One(phase.Reading?)
    ensures |Invalidators(threads[t := phase])|
      == |Invalidators(threads)| - One(Invalidates(threads[t])) + One(Invalidates(phase))
  {
    var after := threads[t := phase];
    Swapped(Builders(threads), Builders(after), t, threads[t].Building?, phase.Building?);
    Swapped(Readers(threads), Readers(after), t, threads[t].Reading?, phase.Reading?);
    Swapped(Invalidators(threads), Invalidators(after), t, Invalidates(threads[t]), Invalidates(phase));
  }

  lemma Swapped(before: set<nat>, after: set<nat>, t: nat, was: bool, now: bool)
    requires (t in before <==> was) && (t in after <==> now) && before - {t} == after - {t}
    ensures |after| == |before| - One(was) + One(now)
  {
    WithoutOne(before, t);
    WithoutOne(after, t);
  }

  lemma WithoutOne(s: set<nat>, t: nat)
    ensures |s - {t}| == |s| - One(t in s)
  {
    assert s == (s - {t}) + (if t in s then {t} else {});
  }

  lemma NobodyReads(s: Spool)
    requires Counts(s) && s.readers == 0
    ensures forall t | t in s.threads :: !s.threads[t].Reading?
  {
    forall t | t in s.threads
      ensures !s.threads[t].Reading?
    {
      assert t !in Readers(s.threads);
    }
  }

  lemma NobodyElse(s: Spool, t: nat)
    requires Counts(s) && t in s.threads
    ensures s.threads[t].Building? ==> s.building
    ensures Invalidates(s.threads[t]) ==> s.invalidating
    ensures s.threads[t].Reading? ==> s.readers > 0
  {
    assert t in Builders(s.threads) <==> s.threads[t].Building?;
    assert t in Readers(s.threads) <==> s.threads[t].Reading?;
    assert t in Invalidators(s.threads) <==> Invalidates(s.threads[t]);
  }

  lemma BuilderCounts(s: Spool, t: nat, action: Action)
    requires Counts(s) && t in s.threads && BuilderStep(s, t, s.threads[t], action).Some?
    ensures Counts(BuilderStep(s, t, s.threads[t], action).value)
  {
    hide Builders, Readers, Invalidators;
    var after := BuilderStep(s, t, s.threads[t], action).value;
    Recounted(s.threads, t, after.threads[t]);
    NobodyElse(s, t);
  }

  lemma ReaderCounts(s: Spool, t: nat, action: Action)
    requires Counts(s) && t in s.threads && ReaderStep(s, t, s.threads[t], action).Some?
    ensures Counts(ReaderStep(s, t, s.threads[t], action).value)
  {
    hide Builders, Readers, Invalidators;
    Recounted(s.threads, t, ReaderStep(s, t, s.threads[t], action).value.threads[t]);
    NobodyElse(s, t);
  }

  lemma InvalidatorCounts(s: Spool, t: nat, action: Action)
    requires Counts(s) && t in s.threads && InvalidatorStep(s, t, s.threads[t], action).Some?
    ensures Counts(InvalidatorStep(s, t, s.threads[t], action).value)
  {
    hide Builders, Readers, Invalidators;
    Recounted(s.threads, t, InvalidatorStep(s, t, s.threads[t], action).value.threads[t]);
    NobodyElse(s, t);
  }

  /** A step that moves a thread without touching directories. */
  lemma OnlyMoved(s: Spool, after: Spool, t: nat, phase: Phase)
    requires Directories(s) && t in s.threads && after.threads == s.threads[t := phase]
    requires after.directory == s.directory && after.existing == s.existing && after.next == s.next
    requires after.ready ==> after.directory.Some?
    requires Owned(phase) == None && (phase.Reading? ==> phase.dir == s.directory && s.directory.Some?)
    ensures Directories(after)
  {
  }

  lemma DirectoryMade(s: Spool, after: Spool, t: nat)
    requires Directories(s) && t in s.threads && s.threads[t] == Building(None)
    requires after == Goes(s.(existing := s.existing + {s.next}, next := s.next + 1), t, Building(Some(s.next)))
    ensures Directories(after)
  {
  }

  lemma DirectoryPublished(s: Spool, after: Spool, t: nat, dir: Directory)
    requires Directories(s) && t in s.threads && s.threads[t] == Building(Some(dir))
    requires after == Goes(s.(directory := Some(dir), failed := false, building := false, ready := true), t, Ensured)
    ensures Directories(after)
  {
    assert Unshared(s, t, dir);
  }

  lemma DirectoryForgotten(s: Spool, after: Spool, t: nat, phase: Phase)
    requires Directories(s) && t in s.threads && after.threads == s.threads[t := phase]
    requires after.directory == None && after.existing == s.existing && after.next == s.next && !after.ready
    requires Owned(phase) == Owned(s.threads[t]) && !phase.Reading? && !phase.Building?
    ensures Directories(after)
  {
    if Owned(phase).Some? {
      assert Unshared(s, t, Owned(phase).value);
    }
  }

  lemma DirectoryRemoved(s: Spool, after: Spool, t: nat, phase: Phase, removed: bool)
    requires Directories(s) && t in s.threads && !s.threads[t].Building?
    requires after == Goes(s.(existing := Without(s.existing, Owned(s.threads[t]), removed)), t, phase)
    requires Owned(phase) == None && !phase.Reading?
    ensures Directories(after)
  {
    if Owned(s.threads[t]).Some? {
      assert Unshared(s, t, Owned(s.threads[t]).value);
    }
  }

  /** The invalidator takes the directory once nobody reads it. */
  lemma DirectoryTaken(s: Spool, t: nat)
    requires Directories(s) && t in s.threads && Owned(s.threads[t]) == None
    requires forall u | u in s.threads :: !s.threads[u].Reading?
    ensures Directories(Take(s, t))
  {
    hide Without;
    var after := Take(s, t);
    forall u | u in after.threads && Owned(after.threads[u]).Some?
      ensures Unshared(after, u, Owned(after.threads[u]).value)
    {
      if u != t {
        assert Unshared(s, u, Owned(s.threads[u]).value);
      }
    }
  }

  lemma BuilderDirectories(s: Spool, t: nat, action: Action)
    requires Inv(s) && t in s.threads && BuilderStep(s, t, s.threads[t], action).Some?
    ensures Directories(BuilderStep(s, t, s.threads[t], action).value)
  {
    hide Counts, Directories, Without;
    var after := BuilderStep(s, t, s.threads[t], action).value;
    ReadyIsPublished(s);
    if action.MakeDirectory? {
      DirectoryMade(s, after, t);
    } else if action.Publish? {
      DirectoryPublished(s, after, t, s.threads[t].made.value);
    } else if action.Fail? {
      DirectoryForgotten(s, after, t, after.threads[t]);
    } else if action.CleanUp? {
      DirectoryRemoved(s, after, t, Idle, action.removed);
    } else {
      OnlyMoved(s, after, t, after.threads[t]);
    }
  }

  lemma ReadyIsPublished(s: Spool)
    requires Directories(s)
    ensures s.ready ==> s.directory.Some?
  {
  }

  lemma ReaderDirectories(s: Spool, t: nat, action: Action)
    requires Inv(s) && t in s.threads && ReaderStep(s, t, s.threads[t], action).Some?
    ensures Directories(ReaderStep(s, t, s.threads[t], action).value)
  {
    hide Counts, Directories;
    ReadyIsPublished(s);
    var after := ReaderStep(s, t, s.threads[t], action).value;
    OnlyMoved(s, after, t, after.threads[t]);
  }

  lemma InvalidatorDirectories(s: Spool, t: nat, action: Action)
    requires Inv(s) && t in s.threads && InvalidatorStep(s, t, s.threads[t], action).Some?
    ensures Directories(InvalidatorStep(s, t, s.threads[t], action).value)
  {
    hide Counts, Directories, Without;
    ReadyIsPublished(s);
    var after := InvalidatorStep(s, t, s.threads[t], action).value;
    if after.threads[t].Removing? && !s.threads[t].Removing? {
      NobodyReads(s);
      var begun := s.(invalidating := true, ready := false);
      SameDirectories(s, begun);
      DirectoryTaken(if action.PassInvalidate? then begun else s, t);
    } else if action.RemoveFiles? {
      DirectoryRemoved(s, after, t, Removing(None), action.removed);
    } else {
      OnlyMoved(s, after, t, after.threads[t]);
    }
  }

  lemma SameDirectories(s: Spool, after: Spool)
    requires Directories(s) && after == s.(invalidating := true, ready := false)
    ensures Directories(after)
  {
  }

  lemma StepKeepsInv(s: Spool, t: nat, action: Action)
    requires Inv(s) && Next(s, t, action).Some?
    ensures Inv(Next(s, t, action).value)
  {
    hide Counts, Directories, BuilderStep, ReaderStep, InvalidatorStep;
    if Reads(action) {
      ReaderCounts(s, t, action);
      ReaderDirectories(s, t, action);
    } else if Clears(action) {
      InvalidatorCounts(s, t, action);
      InvalidatorDirectories(s, t, action);
    } else {
      BuilderCounts(s, t, action);
      BuilderDirectories(s, t, action);
    }
  }

  /** Every reachable state of every interleaving has at most one builder and one
      invalidator, counts its readers exactly, and keeps the directories apart. */
  lemma {:induction false} RunsKeepInv(threads: set<nat>, events: seq<Event>)
    requires Runs(threads, events).Some?
    ensures Inv(Runs(threads, events).value)
  {
    hide Inv, Next;
    if events == [] {
      StartIsInv(threads);
    } else {
      RunsKeepInv(threads, events[..|events| - 1]);
      var last := events[|events| - 1];
      StepKeepsInv(Runs(threads, events[..|events| - 1]).value, last.thread, last.action);
    }
  }

  lemma StartIsInv(threads: set<nat>)
    ensures Inv(Start(threads))
  {
    var s := Start(threads);
    assert Builders(s.threads) == {} && Readers(s.threads) == {} && Invalidators(s.threads) == {};
  }

  /** No step of any run removes a directory that a registered reader holds. */
  lemma ReadersKeepTheirDirectory(threads: set<nat>, events: seq<Event>, t: nat, action: Action, reader: nat)
    requires Runs(threads, events).Some? && Next(Runs(threads, events).value, t, action).Some?
    requires reader in Runs(threads, events).value.threads && Runs(threads, events).value.threads[reader].Reading?
    ensures var dir := Runs(threads, events).value.threads[reader].dir;
      dir.Some? && dir.value in Next(Runs(threads, events).value, t, action).value.existing
  {
    RunsKeepInv(threads, events);
    var s := Runs(threads, events).value;
    hide Runs, Counts;
    assert s.threads[reader].dir.value in s.existing;
    if t in s.threads && Owned(s.threads[t]).Some? {
      assert Unshared(s, t, Owned(s.threads[t]).value);
    }
  }

  /** An invalidator is removing, and a builder is at work. */
  ghost predicate Overlaps(s: Spool) {
    s.building && exists t :: t in s.threads && s.threads[t].Removing?
  }

  /** Building and removal are not mutually exclusive: the second wait of a
      would-be builder does not look at the invalidation again. An overlap begins
      exactly when such a thread starts building while an invalidator removes. */
  lemma OverlapBeginsExactlyWhen(threads: set<nat>, events: seq<Event>, t: nat, action: Action)
    requires Runs(threads, events).Some? && Next(Runs(threads, events).value, t, action).Some?
    requires !Overlaps(Runs(threads, events).value)
    ensures var s := Runs(threads, events).value;
      Overlaps(Next(s, t, action).value)
      <==> action.PassSecond? && !s.ready && !s.failed && !s.building && exists u ::
        u in s.threads && s.threads[u].Removing?
  {
    RunsKeepInv(threads, events);
    var s := Runs(threads, events).value;
    hide Runs, Directories;
    var after := Next(s, t, action).value;
    forall u | u in s.threads && s.threads[u].Removing?
      ensures s.invalidating
    {
      NobodyElse(s, u);
    }
    if action.PassSecond? && !s.ready && !s.failed && !s.building
      && (exists u :: u in s.threads && s.threads[u].Removing?) {
      var u :| u in s.threads && s.threads[u].Removing?;
      assert after.threads[u].Removing?;
    }
  }

  ghost predicate Reachable(threads: set<nat>, s: Spool) {
    exists events :: Runs(threads, events) == Some(s)
  }

  lemma Reach(threads: set<nat>, s: Spool, t: nat, action: Action)
    requires Reachable(threads, s) && Next(s, t, action).Some?
    ensures Reachable(threads, Next(s, t, action).value)
  {
    hide Next;
    var events :| Runs(threads, events) == Some(s);
    var longer := events + [Event(t, action)];
    assert longer[..|events|] == events;
    assert Runs(threads, longer) == Next(s, t, action);
  }

  const THREADS := {0, 1, 2}

  /** Thread 0 builds, thread 1 waits for it. */
  ghost predicate BuildAwaited(s: Spool) {
    && s.threads.Keys == THREADS && s.threads[0] == Building(None) && s.threads[1] == SecondWait && s.threads[2] == Idle
    && !s.ready && s.building && !s.invalidating && s.readers == 0 && !s.failed && s.existing == {} && s.next == 0
  }

  lemma BuildAwaitedIsReachable() returns (s: Spool)
    ensures Reachable(THREADS, s) && BuildAwaited(s)
  {
    hide Reachable;
    var s0 := Start(THREADS);
    StartIsReachable(THREADS);
    Reach(THREADS, s0, 0, StartEnsure);
    var s1 := Goes(s0, 0, FirstWait);
    Reach(THREADS, s1, 0, PassFirst);
    var s2 := Build(s1, 0);
    Reach(THREADS, s2, 1, StartEnsure);
    var s3 := Goes(s2, 1, FirstWait);
    Reach(THREADS, s3, 1, PassFirst);
    s := Goes(s3, 1, SecondWait);
  }

  lemma StartIsReachable(threads: set<nat>)
    ensures Reachable(threads, Start(threads))
  {
    assert Runs(threads, []) == Some(Start(threads));
  }

  /** Thread 0 has published and reads; thread 1 has not woken up yet. */
  ghost predicate ReadUnnoticed(s: Spool) {
    && s.threads.Keys == THREADS && s.threads[0] == Reading(Some(0)) && s.threads[1] == SecondWait
    && s.threads[2] == Idle
    && s.ready && !s.building && !s.invalidating && s.readers == 1 && !s.failed
    && s.directory == Some(0) && s.existing == {0} && s.next == 1
  }

  lemma ReadUnnoticedIsReachable(s2: Spool) returns (s: Spool)
    requires Reachable(THREADS, s2) && BuildAwaited(s2)
    ensures Reachable(THREADS, s) && ReadUnnoticed(s)
  {
    hide Reachable;
    Reach(THREADS, s2, 0, MakeDirectory);
    var s3 := Goes(s2.(existing := s2.existing + {0}, next := 1), 0, Building(Some(0)));
    Reach(THREADS, s3, 0, Publish);
    var s4 := Goes(s3.(directory := Some(0), failed := false, building := false, ready := true), 0, Ensured);
    Reach(THREADS, s4, 0, Register);
    s := Goes(s4.(readers := 1), 0, Reading(Some(0)));
  }

  lemma RebuildIsReachable(s4: Spool) returns (s: Spool)
    requires Reachable(THREADS, s4) && ReadUnnoticed(s4)
    ensures Reachable(THREADS, s) && s.invalidating && s.building && s.readers == 1
    ensures s.threads.Keys == THREADS
    ensures s.threads[0] == Reading(Some(0)) && s.threads[1] == Building(None) && s.threads[2] == WaitForUsers
    ensures s.existing == {0} && s.next == 1
  {
    hide Reachable;
    Reach(THREADS, s4, 2, StartInvalidate);
    var s5 := Goes(s4, 2, WaitToInvalidate);
    Reach(THREADS, s5, 2, PassInvalidate);
    var s6 := Goes(s5.(invalidating := true, ready := false), 2, WaitForUsers);
    Reach(THREADS, s6, 1, PassSecond);
    s := Build(s6, 1);
  }

  /** Nothing refers to the directory any more, so nothing will remove it. */
  ghost predicate Leaked(s: Spool, d: Directory) {
    && d in s.existing && d < s.next && s.directory != Some(d)
    && forall t | t in s.threads :: Owned(s.threads[t]) != Some(d)
  }

  /** A directory can be forgotten while it is being read: thread 1, waiting for
      thread 0's build, wakes up after an invalidation has begun, builds again and
      publishes over the directory thread 0 is reading. */
  lemma RebuildLeaks() returns (s: Spool)
    ensures Reachable(THREADS, s) && Leaked(s, 0) && s.threads.Keys == THREADS && s.threads[0] == Reading(Some(0))
  {
    hide Reachable, BuildAwaited, ReadUnnoticed;
    var s2 := BuildAwaitedIsReachable();
    var s4 := ReadUnnoticedIsReachable(s2);
    var s7 := RebuildIsReachable(s4);
    Reach(THREADS, s7, 1, MakeDirectory);
    var s8 := Goes(s7.(existing := s7.existing + {1}, next := 2), 1, Building(Some(1)));
    Reach(THREADS, s8, 1, Publish);
    s := Goes(s8.(directory := Some(1), failed := false, building := false, ready := true), 1, Ensured);
  }

  lemma StepKeepsLeak(s: Spool, t: nat, action: Action, d: Directory)
    requires Leaked(s, d) && Next(s, t, action).Some?
    ensures Leaked(Next(s, t, action).value, d)
  {
    var after := Next(s, t, action).value;
    assert d in after.existing && d < after.next && after.directory != Some(d);
    assert Owned(after.threads[t]) != Some(d) && forall u | u in s.threads && u != t ::
      after.threads[u] == s.threads[u];
  }

  /** No continuation removes it. */
  lemma {:induction false} LeaksAreForever(threads: set<nat>, events: seq<Event>, more: seq<Event>, d: Directory)
    requires Runs(threads, events).Some? && Leaked(Runs(threads, events).value, d)
    requires Runs(threads, events + more).Some?
    ensures Leaked(Runs(threads, events + more).value, d)
  {
    hide Leaked, Next;
    if more == [] {
      assert events + more == events;
    } else {
      var init, last := more[..|more| - 1], more[|more| - 1];
      assert (events + more)[..|events + more| - 1] == events + init;
      LeaksAreForever(threads, events, init, d);
      StepKeepsLeak(Runs(threads, events + init).value, last.thread, last.action, d);
    }
  }

  /** A directory is forgotten exactly when a builder publishes or fails over it, or
      the removal of one that was made or taken does not succeed. */
  lemma LeakBeginsExactlyWhen(threads: set<nat>, events: seq<Event>, t: nat, action: Action, d: Directory)
    requires Runs(threads, events).Some? && Next(Runs(threads, events).value, t, action).Some?
    requires !Leaked(Runs(threads, events).value, d)
    ensures var s := Runs(threads, events).value;
      Leaked(Next(s, t, action).value, d)
      <==> || ((action.Publish? || action.Fail?) && s.directory == Some(d))
           || (d in s.existing && action == CleanUp(false) && s.threads[t] == CleaningUp(Some(d)))
           || (d in s.existing && action == RemoveFiles(false) && s.threads[t] == Removing(Some(d)))
  {
    RunsKeepInv(threads, events);
    var s := Runs(threads, events).value;
    hide Runs, Counts;
    var after := Next(s, t, action).value;
    assert forall u | u in s.threads && u != t :: after.threads[u] == s.threads[u];
    forall u | u in s.threads && Owned(s.threads[u]) == Some(d)
      ensures Unshared(s, u, d)
    {
    }
    LeakStep(s, t, action, d);
  }

  lemma LeakStep(s: Spool, t: nat, action: Action, d: Directory)
    requires Directories(s) && Next(s, t, action).Some? && !Leaked(s, d)
    ensures Leaked(Next(s, t, action).value, d)
      <==> || ((action.Publish? || action.Fail?) && s.directory == Some(d))
           || (d in s.existing && action == CleanUp(false) && s.threads[t] == CleaningUp(Some(d)))
           || (d in s.existing && action == RemoveFiles(false) && s.threads[t] == Removing(Some(d)))
  {
    hide Directories, Next;
    Apart(s, d);
    if action.Publish? || action.Fail? {
      ForgottenStep(s, t, action, d);
    } else if action.CleanUp? || action.RemoveFiles? {
      RemovalStep(s, t, action, d);
    } else {
      OtherStep(s, t, action, d);
    }
  }

  /** What a published or owned directory is not. */
  lemma Apart(s: Spool, d: Directory)
    requires Directories(s)
    ensures d in s.existing ==> d < s.next
    ensures s.directory == Some(d) ==> d in s.existing && forall u | u in s.threads :: Owned(s.threads[u]) != Some(d)
    ensures forall u, v | u in s.threads && v in s.threads && Owned(s.threads[u]) == Some(d)
      && Owned(s.threads[v]) == Some(d) :: u == v
  {
    forall u | u in s.threads && Owned(s.threads[u]) == Some(d)
      ensures Unshared(s, u, d)
    {
    }
  }

  lemma ForgottenStep(s: Spool, t: nat, action: Action, d: Directory)
    requires Directories(s) && (action.Publish? || action.Fail?) && Next(s, t, action).Some? && !Leaked(s, d)
    ensures Leaked(Next(s, t, action).value, d) <==> s.directory == Some(d)
  {
    Apart(s, d);
    hide Directories;
    var after := Next(s, t, action).value;
    assert forall u | u in s.threads && u != t :: after.threads[u] == s.threads[u];
    assert t in after.threads && (action.Fail? ==> Owned(after.threads[t]) == Owned(s.threads[t]));
    if s.directory != Some(d) && d in s.existing && d < s.next {
      var u :| u in s.threads && Owned(s.threads[u]) == Some(d);
      assert u != t || action.Fail? ==> Owned(after.threads[u]) == Some(d);
    }
  }

  lemma RemovalStep(s: Spool, t: nat, action: Action, d: Directory)
    requires Directories(s) && (action.CleanUp? || action.RemoveFiles?) && Next(s, t, action).Some? && !Leaked(s, d)
    ensures Leaked(Next(s, t, action).value, d) <==>
      d in s.existing && !action.removed && Owned(s.threads[t]) == Some(d)
    ensures Owned(s.threads[t]) == Some(d)
      <==> s.threads[t] == (if action.CleanUp? then CleaningUp(Some(d)) else Removing(Some(d)))
  {
    Apart(s, d);
    if Owned(s.threads[t]) == Some(d) {
      assert Unshared(s, t, d);
    }
    hide Directories;
    var after := Next(s, t, action).value;
    assert forall u | u in s.threads && u != t :: after.threads[u] == s.threads[u];
    if Owned(s.threads[t]) != Some(d) && d in s.existing && d < s.next && s.directory != Some(d) {
      var u :| u in s.threads && Owned(s.threads[u]) == Some(d);
      assert Owned(after.threads[u]) == Some(d);
    }
  }

  /** The remaining steps only make directories and hand them over. */
  lemma OtherEffect(s: Spool, t: nat, action: Action)
    requires Next(s, t, action).Some?
    requires !action.Publish? && !action.Fail? && !action.CleanUp? && !action.RemoveFiles?
    ensures var after := Next(s, t, action).value;
      && t in s.threads && t in after.threads
      && (forall u | u in s.threads && u != t :: u in after.threads && after.threads[u] == s.threads[u])
      && (after.directory == s.directory || Owned(after.threads[t]) == s.directory)
      && (Owned(s.threads[t]) == None || Owned(after.threads[t]) == Owned(s.threads[t]))
      && (after.existing == s.existing
        || (after.existing == s.existing + {s.next} && Owned(after.threads[t]) == Some(s.next)))
  {
  }

  lemma OtherStep(s: Spool, t: nat, action: Action, d: Directory)
    requires Directories(s) && Next(s, t, action).Some? && !Leaked(s, d)
    requires !action.Publish? && !action.Fail? && !action.CleanUp? && !action.RemoveFiles?
    ensures !Leaked(Next(s, t, action).value, d)
  {
    hide Directories, Next;
    Apart(s, d);
    OtherEffect(s, t, action);
    var after := Next(s, t, action).value;
    if d in s.existing && s.directory != Some(d) {
      var u :| u in s.threads && Owned(s.threads[u]) == Some(d);
      assert Owned(after.threads[u]) == Some(d);
    }
  }

  /** A builder works while a directory is still published. */
  predicate Rebuilds(s: Spool) {
    s.building && s.directory.Some?
  }

  /** A directory that is published but not ready waits for an invalidator that has
      not taken it yet. */
  ghost predicate HiddenMeansAwaited(s: Spool) {
    s.directory.Some? && !s.ready ==> s.invalidating && forall t | t in s.threads :: !s.threads[t].Removing?
  }

  lemma {:induction false} RunsKeepHidden(threads: set<nat>, events: seq<Event>)
    requires Runs(threads, events).Some?
    ensures HiddenMeansAwaited(Runs(threads, events).value)
  {
    if events != [] {
      var init, last := events[..|events| - 1], events[|events| - 1];
      RunsKeepHidden(threads, init);
      RunsKeepInv(threads, init);
      var s := Runs(threads, init).value;
      hide Runs, Directories;
      forall u | u in s.threads && Invalidates(s.threads[u])
        ensures s.invalidating
      {
        NobodyElse(s, u);
      }
      HiddenStep(s, last.thread, last.action);
    }
  }

  lemma HiddenStep(s: Spool, t: nat, action: Action)
    requires HiddenMeansAwaited(s) && Next(s, t, action).Some?
    requires forall u | u in s.threads && Invalidates(s.threads[u]) :: s.invalidating
    ensures HiddenMeansAwaited(Next(s, t, action).value)
  {
    var after := Next(s, t, action).value;
    assert forall u | u in s.threads && u != t :: after.threads[u] == s.threads[u];
  }

  /** And building over a published directory begins exactly where a thread passes its
      second wait although an invalidation is under way. */
  lemma RebuildBeginsExactlyWhen(threads: set<nat>, events: seq<Event>, t: nat, action: Action)
    requires Runs(threads, events).Some? && Next(Runs(threads, events).value, t, action).Some?
    requires !Rebuilds(Runs(threads, events).value)
    ensures var s := Runs(threads, events).value;
      && (Rebuilds(Next(s, t, action).value)
        <==> action.PassSecond? && s.directory.Some? && !s.ready && !s.failed && !s.building)
      && (Rebuilds(Next(s, t, action).value) ==> s.invalidating)
  {
    RunsKeepInv(threads, events);
    RunsKeepHidden(threads, events);
    var s := Runs(threads, events).value;
    hide Runs, Directories;
    if t in s.threads {
      NobodyElse(s, t);
    }
  }

  /** A thread waits for something, or has something to do. */
  predicate Unfinished(phase: Phase) {
    !phase.Idle?
  }

  ghost predicate Moves(s: Spool, t: nat, action: Action) {
    Next(s, t, action).Some?
  }

  /** The protocol has no deadlock: while some thread is unfinished, an unfinished
      thread can take a step. */
  lemma NoDeadlock(threads: set<nat>, events: seq<Event>, t: nat)
    requires Runs(threads, events).Some?
    requires t in Runs(threads, events).value.threads && Unfinished(Runs(threads, events).value.threads[t])
    ensures var s := Runs(threads, events).value;
      exists u, action :: u in s.threads && Unfinished(s.threads[u]) && Moves(s, u, action)
  {
    hide Runs, Inv, Moves, Unfinished;
    RunsKeepInv(threads, events);
    SomeoneMoves(Runs(threads, events).value, t);
  }

  lemma SomeoneMoves(s: Spool, t: nat)
    requires Inv(s) && t in s.threads && Unfinished(s.threads[t])
    ensures exists u, action :: u in s.threads && Unfinished(s.threads[u]) && Moves(s, u, action)
  {
    hide Directories;
    if u :| u in s.threads && s.threads[u].Building? {
      assert Moves(s, u, Fail(true));
    } else if u :| u in s.threads && s.threads[u].Reading? {
      assert Moves(s, u, Release);
    } else {
      assert Builders(s.threads) == {} && Readers(s.threads) == {};
      if u :| u in s.threads && Invalidates(s.threads[u]) {
        var action := if s.threads[u].WaitForUsers? then PassUsers else RemoveFiles(true);
        assert Moves(s, u, action);
      } else {
        assert Invalidators(s.threads) == {};
        WaiterMoves(s, t);
      }
    }
  }

  lemma WaiterMoves(s: Spool, t: nat)
    requires t in s.threads && Unfinished(s.threads[t]) && !s.building && !s.invalidating
    requires !s.threads[t].Building? && !s.threads[t].Reading? && !Invalidates(s.threads[t])
    ensures exists action :: Moves(s, t, action)
  {
    var phase := s.threads[t];
    var action :=
      if phase.FirstWait? then PassFirst
      else if phase.SecondWait? then PassSecond
      else if phase.CleaningUp? then CleanUp(true)
      else if phase.Ensured? then Register
      else PassInvalidate;
    assert Moves(s, t, action);
  }
}
