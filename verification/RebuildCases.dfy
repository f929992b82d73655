/** Two kinds of archive in which no hazard can arise: one without colliding files, and one whose files
  * are first ingested with an EIT present record in them and are never unlinked. */
module RebuildCases {
  import opened Collisions
  import opened IndexInvariant
  import opened IndexRuns
  import opened IngestPass
  import opened Lines
  import opened TextOrder
  import opened Rebuild
  import opened SearchTables
  import R = Recording

  // ---------------------------------------------------------------- archives without collisions

  predicate SameKey(r: Reader, p: Path, q: Path) {
    r.locate(p).Some? && r.locate(q).Some? && KeyOf(r.locate(p).value) == KeyOf(r.locate(q).value)
  }

  /** At most one of the paths is recorded under the key. */
  ghost predicate Uncontested(r: Reader, paths: set<Path>, key: Key) {
    forall p, q :: p in paths && q in paths && Belongs(r, p, key) && Belongs(r, q, key) ==> p == q
  }

  ghost predicate Within(s: State, paths: set<Path>) {
    s.fs.Keys <= paths && s.tables.files.Keys <= paths
  }

  ghost predicate WritesWithin(events: seq<Event>, paths: set<Path>) {
    forall i :: 0 <= i < |events| && events[i].Append? ==> events[i].path in paths
  }

  lemma {:induction false} StepWithin(r: Reader, s: State, e: Event, paths: set<Path>)
    requires Inv(r, s) && Enabled(s, e) && Within(s, paths) && (e.Append? ==> e.path in paths)
    ensures Within(Step(r, s, e), paths)
  {
    hide Consistent, IngestFile, RowMatchesFile;
    if e.Pass? {
      forall q | q in Step(r, s, e).tables.files ensures q in paths {
        if q != e.path {
          NewRowsOnlyForPass(r, s, e, q);
        }
      }
    }
  }

  lemma {:induction false} UncontestedNoHazard(r: Reader, s: State, e: Event, paths: set<Path>, key: Key)
    requires Inv(r, s) && Enabled(s, e) && Within(s, paths) && Uncontested(r, paths, key)
    ensures !Hazard(r, s, e, key)
  {
    hide Consistent, IngestFile, RowMatchesFile, LastEit;
    if OwnerPath(s.tables, key).Some? {
      OwnerPointsBack(r, s.tables, key);
      assert Belongs(r, OwnerPath(s.tables, key).value, key);
      TextLessIrreflexive(OwnerPath(s.tables, key).value);
    }
  }

  lemma {:induction false} UncontestedHazardFree(r: Reader, s: State, events: seq<Event>, paths: set<Path>, key: Key)
    requires Inv(r, s) && Within(s, paths) && Uncontested(r, paths, key)
    requires Legal(r, s, events) && WritesWithin(events, paths)
    ensures HazardFree(r, s, events, key) && Within(Run(r, s, events), paths)
  {
    hide Inv, Enabled, Step, Hazard, Within, Uncontested;
    if events != [] {
      var n := |events| - 1;
      UncontestedHazardFree(r, s, events[..n], paths, key);
      RunKeeps(r, s, events[..n]);
      UncontestedNoHazard(r, Run(r, s, events[..n]), events[n], paths, key);
      StepWithin(r, Run(r, s, events[..n]), events[n], paths);
    }
  }

  /** A key that only one file can have needs no further assumption: whatever is appended, indexed, unlinked and
    * cleaned up in whatever order, the caught-up index equals a rebuild. */
  lemma {:induction false} CollisionFreeEqualsRebuild(
      r: Reader, fs: map<Path, Bytes>, events: seq<Event>, paths: set<Path>, order: seq<Path>, key: Key)
    requires fs.Keys <= paths && Uncontested(r, paths, key) && WritesWithin(events, paths)
    requires Legal(r, State(fs, EMPTY), events)
    requires var s := Run(r, State(fs, EMPTY), events);
      CaughtUp(r, s) && forall path :: path in order <==> path in s.fs
    ensures var s := Run(r, State(fs, EMPTY), events);
      Shows(s.tables, key) == Shows(Rebuilt(r, s.fs, order).tables, key)
  {
    hide Inv, Faithful, CaughtUp, Shows, Run, Rebuilt, NoDeletedOwner, Settled, Legal, HazardFree, Uncontested, WritesWithin;
    EmptyTidy(r, fs);
    UncontestedHazardFree(r, State(fs, EMPTY), events, paths, key);
    IncrementalEqualsRebuild(r, State(fs, EMPTY), events, order, key);
  }

  // ---------------------------------------------------------------- archives whose files begin with an EIT

  /** No file of the key is unlinked, and each is first ingested with an EIT present record in its complete lines. */
  ghost predicate EitFirst(r: Reader, s: State, e: Event, key: Key) {
    match e
    case Pass(path, _, content) =>
      Belongs(r, path, key) && path !in s.tables.files ==> LastEit(r, CompleteLines(content)).Some?
    case Unlink(path) => !Belongs(r, path, key)
    case _ => true
  }

  ghost predicate AllEitFirst(r: Reader, s: State, events: seq<Event>, key: Key) {
    events != [] ==>
      && AllEitFirst(r, s, events[..|events| - 1], key)
      && EitFirst(r, Run(r, s, events[..|events| - 1]), events[|events| - 1], key)
  }

  ghost predicate OwnsIfIndexed(s: State, path: Path) {
    path in s.tables.files ==>
      && path in s.fs
      && (s.tables.files[path].status == Indexed ==> s.tables.files[path].programId.Some?)
  }

  ghost predicate EveryRowOwns(r: Reader, s: State, key: Key) {
    forall path :: Belongs(r, path, key) ==> OwnsIfIndexed(s, path)
  }

  lemma {:induction false} LastEitStays(r: Reader, lines: seq<Bytes>, k: nat)
    requires k <= |lines| && LastEit(r, lines[..k]).Some?
    ensures LastEit(r, lines).Some?
  {
    if k < |lines| {
      assert lines[..|lines| - 1][..k] == lines[..k];
      LastEitStays(r, lines[..|lines| - 1], k);
    } else {
      assert lines[..k] == lines;
    }
  }

  lemma {:induction false} OwnRowOwns(r: Reader, s: State, e: Event, key: Key)
    requires Inv(r, s) && Enabled(s, e) && e.Pass? && Belongs(r, e.path, key)
    requires OwnsIfIndexed(s, e.path) && EitFirst(r, s, e, key)
    ensures OwnsIfIndexed(Step(r, s, e), e.path)
  {
    hide Consistent, IngestFile, LastEit, CompleteLines, Unlines;
    var t, path, content := s.tables, e.path, e.content;
    assert RowMatchesFile(r, s, path);
    if Reads(r, t, path, e.size) {
      NothingReadYet(r, t, path, content);
      if path in t.files {
        ShorterReads(r, t, path, e.size, content, s.fs[path]);
        LastEitStays(r, CompleteLines(content), t.files[path].indexedLines);
      }
      PassReadsEverything(r, t, path, e.size, content);
      var lines := CompleteLines(content);
      assert lines[..|lines|] == lines;
    } else {
      PassReturnsEarly(r, t, path, e.size, content);
    }
  }

  lemma {:induction false} OtherRowOwns(r: Reader, s: State, e: Event, path: Path)
    requires Inv(r, s) && Enabled(s, e) && OwnsIfIndexed(s, path)
    requires e.Pass? || e.Unlink? ==> path != e.path
    ensures OwnsIfIndexed(Step(r, s, e), path)
  {
    hide Consistent, IngestFile, RowMatchesFile, Cleanup, LastEit;
    if e.Pass? {
      hide ConsistentBut;
      RowUnlessPassed(r, s.tables, e.path, e.size, e.content, path);
      IngestFileKeeps(r, s.tables, e.path, e.size, e.content);
      assert FrameAt(s.tables, Step(r, s, e).tables, path);
    } else if e.CleanUp? {
      CleanupKeepsPresent(r, s.tables, s.fs.Keys, path);
    }
  }

  lemma {:induction false} EitFirstNoHazard(r: Reader, s: State, e: Event, key: Key)
    requires Inv(r, s) && Enabled(s, e) && EveryRowOwns(r, s, key) && EitFirst(r, s, e, key)
    ensures !Hazard(r, s, e, key)
  {
    hide IndexesMatch, RowsLocated, ProgramIdsMatch, IngestFile, RowMatchesFile, LastEit, CompleteLines;
    if OwnerPath(s.tables, key).Some? {
      OwnerPointsBack(r, s.tables, key);
      assert Belongs(r, OwnerPath(s.tables, key).value, key);
      assert OwnsIfIndexed(s, OwnerPath(s.tables, key).value);
    }
    if e.Pass? && Belongs(r, e.path, key) {
      assert OwnsIfIndexed(s, e.path);
      if e.path in s.tables.files && s.tables.files[e.path].programId.Some? {
        PointsToOwnProgram(r, s.tables, e.path);
        TextLessIrreflexive(e.path);
      }
    }
  }

  lemma {:induction false} StepKeepsOwning(r: Reader, s: State, e: Event, key: Key)
    requires Inv(r, s) && Enabled(s, e) && EveryRowOwns(r, s, key) && EitFirst(r, s, e, key)
    ensures EveryRowOwns(r, Step(r, s, e), key)
  {
    hide Inv, Enabled, Step, OwnsIfIndexed, Belongs;
    forall path | Belongs(r, path, key) ensures OwnsIfIndexed(Step(r, s, e), path) {
      if e.Pass? && path == e.path {
        OwnRowOwns(r, s, e, key);
      } else {
        OtherRowOwns(r, s, e, path);
      }
    }
  }

  lemma {:induction false} EitFirstHazardFree(r: Reader, s: State, events: seq<Event>, key: Key)
    requires Inv(r, s) && EveryRowOwns(r, s, key) && Legal(r, s, events) && AllEitFirst(r, s, events, key)
    ensures HazardFree(r, s, events, key) && EveryRowOwns(r, Run(r, s, events), key)
  {
    hide Inv, Enabled, Step, Hazard, EveryRowOwns, EitFirst;
    if events != [] {
      var n := |events| - 1;
      EitFirstHazardFree(r, s, events[..n], key);
      RunKeeps(r, s, events[..n]);
      EitFirstNoHazard(r, Run(r, s, events[..n]), events[n], key);
      StepKeepsOwning(r, Run(r, s, events[..n]), events[n], key);
    }
  }

  lemma {:induction false} EmptyOwns(r: Reader, fs: map<Path, Bytes>, key: Key)
    ensures EveryRowOwns(r, State(fs, EMPTY), key)
  {
  }

  ghost predicate NoneLeft(r: Reader, s: State, key: Key) {
    forall path :: path in s.fs ==> !Belongs(r, path, key)
  }

  /** Colliding files that are first ingested with an EIT present record also equal a rebuild, in whatever order and
    * however many increments they are ingested, when either all of them or none are left: garbage collection that
    * removes every file of a key does no harm, whatever it leaves in between. */
  lemma {:induction false} EitFirstEqualsRebuild(
      r: Reader, fs: map<Path, Bytes>, events: seq<Event>, order: seq<Path>, key: Key)
    requires Legal(r, State(fs, EMPTY), events)
    requires AllEitFirst(r, State(fs, EMPTY), events, key) || NoneLeft(r, Run(r, State(fs, EMPTY), events), key)
    requires var s := Run(r, State(fs, EMPTY), events);
      CaughtUp(r, s) && forall path :: path in order <==> path in s.fs
    ensures var s := Run(r, State(fs, EMPTY), events);
      Shows(s.tables, key) == Shows(Rebuilt(r, s.fs, order).tables, key)
  {
    hide Inv, Faithful, CaughtUp, Shows, Run, Rebuilt, ArchiveShows, NoDeletedOwner, Settled, Legal, HazardFree, EveryRowOwns,
      AllEitFirst;
    var start, s := State(fs, EMPTY), Run(r, State(fs, EMPTY), events);
    EmptyTidy(r, fs);
    RunKeeps(r, start, events);
    if NoneLeft(r, s, key) {
      GoneIsFaithful(r, s, key);
    } else {
      EmptyOwns(r, fs, key);
      EitFirstHazardFree(r, start, events, key);
      RunFaithful(r, start, events, key);
    }
    FaithfulShowsArchive(r, s, key);
    RebuildShowsArchive(r, s.fs, order, key);
  }

  /** At every moment of such a run the owner of a key is the greatest of the paths ingested so far that share
    * it, and every other one of them is a duplicate without a program. */
  lemma {:induction false} GreatestPathOwnsTheKey(
      r: Reader, fs: map<Path, Bytes>, events: seq<Event>, path: Path, key: Key)
    requires Legal(r, State(fs, EMPTY), events) && AllEitFirst(r, State(fs, EMPTY), events, key)
    requires path in Run(r, State(fs, EMPTY), events).tables.files && Belongs(r, path, key)
    ensures var t := Run(r, State(fs, EMPTY), events).tables;
      var owner := OwnerPath(t, key);
      && owner.Some?
      && (path != owner.value ==>
            TextLess(path, owner.value) && t.files[path].status == Duplicate && t.files[path].programId.None?)
  {
    hide Run, Legal, AllEitFirst, HazardFree, ReadUpTo, IndexesMatch, RowsLocated, ProgramIdsMatch;
    EmptyTidy(r, fs);
    EmptyOwns(r, fs, key);
    EitFirstHazardFree(r, State(fs, EMPTY), events, key);
    RunFaithful(r, State(fs, EMPTY), events, key);
    var s := Run(r, State(fs, EMPTY), events);
    assert RowMatchesFile(r, s, path) && OwnsIfIndexed(s, path) && Sheltered(r, s, path);
    if s.tables.files[path].programId.Some? {
      PointsToOwnProgram(r, s.tables, path);
    }
  }

  /** When a program is recorded again within the second it was first recorded in, the first capture keeps the
    * program: its path is the greatest, whatever the order of indexing. */
  lemma {:induction false} FirstCaptureKeepsTheProgram(
      r: Reader, fs: map<Path, Bytes>, events: seq<Event>, key: Key, directory: string, stem: string, n: nat)
    requires Legal(r, State(fs, EMPTY), events) && AllEitFirst(r, State(fs, EMPTY), events, key) && n > 0
    requires var t := Run(r, State(fs, EMPTY), events).tables;
      forall m :: m in {0, n} ==> var path := R.ArchivePath(directory, stem, m); path in t.files && Belongs(r, path, key)
    ensures var (t, path) := (Run(r, State(fs, EMPTY), events).tables, R.ArchivePath(directory, stem, n));
      && path in t.files && t.files[path].status == Duplicate && t.files[path].programId.None?
      && OwnerPath(t, key).Some? && OwnerPath(t, key).value != path
  {
    hide Run, Legal, AllEitFirst, R.ArchivePath, TextLess;
    var (first, later) := (R.ArchivePath(directory, stem, 0), R.ArchivePath(directory, stem, n));
    GreatestPathOwnsTheKey(r, fs, events, first, key);
    GreatestPathOwnsTheKey(r, fs, events, later, key);
    R.FirstCaptureIsGreatest(directory, stem, n);
    TextLessAsymmetric(later, first);
  }
}
