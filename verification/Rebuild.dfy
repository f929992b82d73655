/** The search index is a cache: what it shows is what a rebuild from the same archive files would show. */
module Rebuild {
  import opened Collisions
  import opened IndexInvariant
  import opened IndexRuns
  import opened IngestPass
  import opened Lines
  import opened TextOrder
  import opened SearchTables
  import opened Wrappers

  /** A program as queries see it, whatever its row id. */
  datatype ProgramView = ProgramView(program: Program, genres: set<Genre>, captions: map<nat, CaptionLine>)

  /** What the index shows under a key. */
  function Shows(t: Tables, key: Key): Option<ProgramView> {
    if key in t.byKey && t.byKey[key] in t.programs && t.byKey[key] in t.genres then
      var id := t.byKey[key];
      Some(ProgramView(t.programs[id], t.genres[id], CaptionsOf(t.captions, id)))
    else None
  }

  /** What one archive file amounts to. */
  function FileView(r: Reader, path: Path, content: Bytes): Option<ProgramView> {
    var lines := CompleteLines(content);
    var eit := LastEit(r, lines);
    if r.locate(path).None? || eit.None? then None
    else
      Some(ProgramView(ProgramRow(r, r.locate(path).value, path, eit.value.metadata),
        GenreSet(eit.value.genres), CaptionRows(r, lines)))
  }

  ghost predicate Candidate(r: Reader, fs: map<Path, Bytes>, key: Key, path: Path) {
    && path in fs && r.locate(path).Some? && KeyOf(r.locate(path).value) == key
    && LastEit(r, CompleteLines(fs[path])).Some?
  }

  ghost predicate Best(r: Reader, fs: map<Path, Bytes>, key: Key, path: Path) {
    && Candidate(r, fs, key, path)
    && forall q :: Candidate(r, fs, key, q) ==> q == path || TextLess(q, path)
  }

  /** What the archive files amount to under a key: the greatest path with an EIT present record. */
  ghost function ArchiveShows(r: Reader, fs: map<Path, Bytes>, key: Key): Option<ProgramView> {
    if path :| Best(r, fs, key, path) then FileView(r, path, fs[path]) else None
  }

  lemma {:induction false} BestIsUnique(r: Reader, fs: map<Path, Bytes>, key: Key, p: Path, q: Path)
    requires Best(r, fs, key, p) && Best(r, fs, key, q)
    ensures p == q
  {
    if p != q {
      TextLessAsymmetric(p, q);
    }
  }

  /** Every complete line of a file is accounted for, or the path has lost to another. */
  ghost predicate Settled(r: Reader, s: State, path: Path) {
    path in s.fs && r.locate(path).Some? ==>
      if path in s.tables.files then
        s.tables.files[path].status == Indexed ==> s.tables.files[path].indexedLines == |CompleteLines(s.fs[path])|
      else CompleteLines(s.fs[path]) == []
  }

  ghost predicate NoDeletedOwner(s: State, key: Key) {
    var owner := OwnerPath(s.tables, key);
    owner.Some? ==> owner.value in s.fs
  }

  ghost predicate CaughtUp(r: Reader, s: State) {
    && (forall path :: Settled(r, s, path))
    && (forall key :: NoDeletedOwner(s, key))
  }

  /** What the index shows for an owner whose file is settled is what the file amounts to. */
  lemma {:induction false} OwnerShowsItsFile(r: Reader, s: State, key: Key)
    requires Inv(r, s) && CaughtUp(r, s) && OwnerPath(s.tables, key).Some?
    ensures var owner := OwnerPath(s.tables, key).value;
      && Candidate(r, s.fs, key, owner)
      && Shows(s.tables, key) == FileView(r, owner, s.fs[owner])
  {
    hide IndexesMatch, RowsLocated, ProgramIdsMatch, CaptionRows, LastEit, CompleteLines;
    var owner := OwnerPath(s.tables, key).value;
    OwnerPointsBack(r, s.tables, key);
    assert NoDeletedOwner(s, key) && Settled(r, s, owner) && RowMatchesFile(r, s, owner);
    PointsToOwnProgram(r, s.tables, owner);
    assert s.tables.files[owner].status == Indexed;
    var lines := CompleteLines(s.fs[owner]);
    assert lines[..|lines|] == lines;
  }

  /** A candidate is the owner, or has been set aside as a duplicate. */
  lemma {:induction false} CandidateOwnsOrLost(r: Reader, s: State, key: Key, path: Path)
    requires Inv(r, s) && CaughtUp(r, s) && Candidate(r, s.fs, key, path)
    ensures path in s.tables.files
    ensures OwnerPath(s.tables, key) == Some(path) || s.tables.files[path].status == Duplicate
  {
    hide IndexesMatch, RowsLocated, ProgramIdsMatch, CaptionRows, CompleteLines;
    assert Settled(r, s, path) && RowMatchesFile(r, s, path);
    var lines := CompleteLines(s.fs[path]);
    assert lines[..|lines|] == lines;
    if s.tables.files[path].status == Indexed {
      PointsToOwnProgram(r, s.tables, path);
    }
  }

  /** A duplicate whose file would be a program is outranked by the program that is shown. */
  ghost predicate Outranked(r: Reader, s: State, key: Key, path: Path) {
    Candidate(r, s.fs, key, path) && path in s.tables.files && s.tables.files[path].status == Duplicate ==>
      OwnerPath(s.tables, key).Some? && TextLess(path, OwnerPath(s.tables, key).value)
  }

  lemma {:induction false} GreatestExists(paths: set<Path>) returns (best: Path)
    requires paths != {}
    ensures best in paths && forall q :: q in paths ==> q == best || TextLess(q, best)
  {
    var p :| p in paths;
    var others := paths - {p};
    assert forall q :: q in paths ==> q == p || q in others;
    if others == {} {
      best := p;
    } else {
      var other := GreatestExists(others);
      TextLessTotal(p, other);
      best := if TextLess(p, other) then other else p;
      forall q | q in paths ensures q == best || TextLess(q, best) {
        if q != p && q != other && best == p {
          TextLessTransitive(q, other, p);
        }
      }
    }
  }

  lemma {:induction false} BestExists(r: Reader, fs: map<Path, Bytes>, key: Key, path: Path) returns (best: Path)
    requires Candidate(r, fs, key, path)
    ensures Best(r, fs, key, best) && ArchiveShows(r, fs, key) == FileView(r, best, fs[best])
  {
    hide FileView, CompleteLines, LastEit;
    var candidates := set q | q in fs && Candidate(r, fs, key, q);
    assert path in candidates;
    best := GreatestExists(candidates);
    assert Best(r, fs, key, best);
    var chosen: Path :| Best(r, fs, key, chosen) && ArchiveShows(r, fs, key) == FileView(r, chosen, fs[chosen]);
    BestIsUnique(r, fs, key, chosen, best);
  }

  lemma {:induction false} NoOwnerShowsNothing(r: Reader, t: Tables, key: Key)
    requires Consistent(r, t) && OwnerPath(t, key).None?
    ensures Shows(t, key).None?
  {
  }

  lemma {:induction false} CandidateView(r: Reader, fs: map<Path, Bytes>, key: Key, path: Path)
    requires Candidate(r, fs, key, path)
    ensures FileView(r, path, fs[path]).Some? && FileView(r, path, fs[path]).value.program.path == path
  {
    hide CompleteLines, CaptionRows;
  }

  /** Once caught up, the index shows what the archive amounts to exactly when every duplicate is outranked. */
  lemma {:induction false} ShowsArchiveIff(r: Reader, s: State, key: Key)
    requires Inv(r, s) && CaughtUp(r, s)
    ensures Shows(s.tables, key) == ArchiveShows(r, s.fs, key) <==> forall path :: Outranked(r, s, key, path)
  {
    hide Inv, CaughtUp, Outranked;
    if path :| !Outranked(r, s, key, path) {
      NotOutrankedNotShown(r, s, key, path);
    } else {
      OutrankedShown(r, s, key);
    }
  }

  lemma {:induction false} OutrankedShown(r: Reader, s: State, key: Key)
    requires Inv(r, s) && CaughtUp(r, s) && forall path :: Outranked(r, s, key, path)
    ensures Shows(s.tables, key) == ArchiveShows(r, s.fs, key)
  {
    hide Consistent, RowMatchesFile, CaughtUp, FileView, Candidate, Shows;
    var owner := OwnerPath(s.tables, key);
    forall q | Candidate(r, s.fs, key, q)
      ensures owner.Some? && (q == owner.value || TextLess(q, owner.value))
    {
      CandidateOwnsOrLost(r, s, key, q);
      assert Outranked(r, s, key, q);
    }
    if owner.Some? {
      OwnerShowsItsFile(r, s, key);
      var best := BestExists(r, s.fs, key, owner.value);
      assert Best(r, s.fs, key, owner.value);
      BestIsUnique(r, s.fs, key, best, owner.value);
    } else {
      NoOwnerShowsNothing(r, s.tables, key);
    }
  }

  lemma {:induction false} NotOutrankedNotShown(r: Reader, s: State, key: Key, path: Path)
    requires Inv(r, s) && CaughtUp(r, s) && !Outranked(r, s, key, path)
    ensures Shows(s.tables, key) != ArchiveShows(r, s.fs, key)
  {
    hide RowMatchesFile, CaughtUp, FileView, Candidate, Shows, IndexesMatch, RowsLocated, ProgramIdsMatch;
    var best := BestExists(r, s.fs, key, path);
    CandidateView(r, s.fs, key, best);
    if OwnerPath(s.tables, key).Some? {
      OwnerShowsItsFile(r, s, key);
      CandidateView(r, s.fs, key, OwnerPath(s.tables, key).value);
      OwnerPointsBack(r, s.tables, key);
    } else {
      NoOwnerShowsNothing(r, s.tables, key);
    }
  }

  // ---------------------------------------------------------------- full scans

  function ScanEvents(fs: map<Path, Bytes>, order: seq<Path>): seq<Event>
    requires forall path :: path in order ==> path in fs
  {
    seq(|order|, i requires 0 <= i < |order| => Pass(order[i], |fs[order[i]]|, fs[order[i]]))
  }

  /** The index after reading every file of `order` once from where it stands. */
  ghost function Scan(r: Reader, s: State, order: seq<Path>): State
    requires forall path :: path in order ==> path in s.fs
  {
    Run(r, s, ScanEvents(s.fs, order))
  }

  /** A rebuild starts from empty tables. */
  ghost function Rebuilt(r: Reader, fs: map<Path, Bytes>, order: seq<Path>): State
    requires forall path :: path in order ==> path in fs
  {
    Scan(r, State(fs, EMPTY), order)
  }

  lemma {:induction false} UnlinesStrict(lines: seq<Bytes>, k: nat)
    requires k < |lines|
    ensures |Unlines(lines[..k])| < |Unlines(lines)|
  {
    UnlinesNext(lines, k);
    UnlinesPrefix(lines, k + 1);
  }

  lemma {:induction false} OffsetInFile(r: Reader, t: Tables, path: Path, content: Bytes)
    requires ReadUpTo(r, t, path, content) && path in t.files && t.files[path].status == Indexed && r.locate(path).Some?
    ensures t.files[path].indexedOffset <= |content|
    ensures t.files[path].indexedOffset == |content| ==> t.files[path].indexedLines == |CompleteLines(content)|
  {
    hide Mirrors;
    SplitJoins(content);
    var k, lines := t.files[path].indexedLines, CompleteLines(content);
    UnlinesPrefix(lines, k);
    if k < |lines| {
      UnlinesStrict(lines, k);
    }
  }

  ghost predicate FullPass(s: State, e: Event) {
    e.Pass? && e.path in s.fs && e.size == |s.fs[e.path]| && e.content == s.fs[e.path]
  }

  lemma {:induction false} FullPassEnabled(r: Reader, s: State, e: Event)
    requires Inv(r, s) && FullPass(s, e)
    ensures Enabled(s, e)
  {
    hide Consistent, ReadUpTo;
    assert RowMatchesFile(r, s, e.path);
    if e.path in s.tables.files && s.tables.files[e.path].status == Indexed {
      OffsetInFile(r, s.tables, e.path, s.fs[e.path]);
    }
  }

  /** Reading a whole file settles it: every complete line is accounted for, or the path has lost. */
  lemma {:induction false} FullPassSettles(r: Reader, s: State, e: Event)
    requires Inv(r, s) && FullPass(s, e)
    ensures Settled(r, Step(r, s, e), e.path)
    ensures r.locate(e.path).Some? ==> e.path in Step(r, s, e).tables.files
  {
    hide Consistent, ReadUpTo, IngestFile;
    var t, path, content := s.tables, e.path, s.fs[e.path];
    assert RowMatchesFile(r, s, path);
    if Reads(r, t, path, |content|) {
      NothingReadYet(r, t, path, content);
      PassReadsEverything(r, t, path, |content|, content);
    } else {
      PassReturnsEarly(r, t, path, |content|, content);
      if r.locate(path).Some? && path !in t.files {
        EarlyRow(r, t, path, |content|, content);
      }
      if path in t.files && t.files[path].status == Indexed {
        OffsetInFile(r, t, path, content);
      }
    }
  }

  lemma {:induction false} EarlyRow(r: Reader, t: Tables, path: Path, size: nat, content: Bytes)
    requires !Reads(r, t, path, size) && r.locate(path).Some? && path !in t.files
    ensures path in IngestFile(r, t, path, size, content).files
    ensures IngestFile(r, t, path, size, content).files[path].status == Duplicate
  {
    hide IngestTail;
  }

  /** A pass leaves other files settled and every owner present. */
  lemma {:induction false} PassKeepsSettled(r: Reader, s: State, e: Event, q: Path)
    requires Inv(r, s) && e.Pass? && q != e.path && Settled(r, s, q)
    ensures Settled(r, Step(r, s, e), q)
    ensures q in Step(r, s, e).tables.files <==> q in s.tables.files
  {
    hide ConsistentBut, ReadUpTo, IngestFile, RowMatchesFile, CompleteLines;
    IngestFileKeeps(r, s.tables, e.path, e.size, e.content);
    assert FrameAt(s.tables, Step(r, s, e).tables, q);
  }

  lemma {:induction false} PassKeepsOwnersPresent(r: Reader, s: State, e: Event, key: Key)
    requires Inv(r, s) && e.Pass? && Enabled(s, e) && NoDeletedOwner(s, key)
    ensures NoDeletedOwner(Step(r, s, e), key)
  {
    hide ConsistentBut, IngestFile, RowMatchesFile;
    PassOwner(r, s.tables, e.path, e.size, e.content, key);
  }

  /** The state of a scan that has dealt with `done`. */
  ghost predicate Scanned(r: Reader, s: State, done: seq<Path>) {
    && Inv(r, s)
    && (forall key :: NoDeletedOwner(s, key))
    && (forall path :: path in done && path in s.fs && r.locate(path).Some? ==> path in s.tables.files && Settled(r, s, path))
  }

  lemma {:induction false} ScanSettles(r: Reader, s: State, order: seq<Path>)
    requires forall path :: path in order ==> path in s.fs
    requires Inv(r, s) && forall key :: NoDeletedOwner(s, key)
    ensures Scanned(r, Scan(r, s, order), order)
    ensures Scan(r, s, order).fs == s.fs && Legal(r, s, ScanEvents(s.fs, order))
  {
    hide Inv, NoDeletedOwner, Settled, Enabled, IngestFile;
    if order != [] {
      var n := |order| - 1;
      var events := ScanEvents(s.fs, order);
      assert events[..n] == ScanEvents(s.fs, order[..n]);
      ScanSettles(r, s, order[..n]);
      var mid, e := Scan(r, s, order[..n]), events[n];
      FullPassEnabled(r, mid, e);
      StepKeeps(r, mid, e);
      FullPassSettles(r, mid, e);
      forall key ensures NoDeletedOwner(Step(r, mid, e), key) {
        PassKeepsOwnersPresent(r, mid, e, key);
      }
      forall path | path in order && path in s.fs && r.locate(path).Some?
        ensures path in Step(r, mid, e).tables.files && Settled(r, Step(r, mid, e), path)
      {
        if path != e.path {
          assert path in order[..n];
          PassKeepsSettled(r, mid, e, path);
        }
      }
    }
  }

  /** One complete pass over the archive catches the index up, once deleted files are cleaned away. */
  lemma {:induction false} FullScanCatchesUp(r: Reader, s: State, order: seq<Path>)
    requires forall path :: path in order <==> path in s.fs
    requires Inv(r, s) && forall key :: NoDeletedOwner(s, key)
    ensures Inv(r, Scan(r, s, order)) && CaughtUp(r, Scan(r, s, order)) && Scan(r, s, order).fs == s.fs
  {
    hide Inv, NoDeletedOwner, IngestFile, CompleteLines;
    ScanSettles(r, s, order);
    var s' := Scan(r, s, order);
    forall path ensures Settled(r, s', path) {
      assert path in s'.fs ==> path in order;
    }
  }

  lemma {:induction false} CleanUpRemovesDeletedOwners(r: Reader, s: State, key: Key)
    requires Inv(r, s)
    ensures NoDeletedOwner(Step(r, s, CleanUp), key)
  {
    hide ConsistentBut, RowMatchesFile, Cleanup;
    CleanupKeepsOwner(r, s.tables, s.fs.Keys, key);
  }

  // ---------------------------------------------------------------- incremental equals rebuild

  /** A tidy state has no unread line in any file it has a row for. */
  ghost predicate Tidy(r: Reader, s: State) {
    && Inv(r, s) && (forall key :: Faithful(r, s, key))
    && (forall key :: NoDeletedOwner(s, key))
    && (forall path :: path in s.tables.files ==> Settled(r, s, path))
  }

  /** Reading a settled file once more finds nothing new, so no full pass of a scan is a hazard. */
  lemma {:induction false} FullPassNoHazard(r: Reader, s: State, e: Event, key: Key)
    requires Tidy(r, s) && FullPass(s, e)
    ensures !Hazard(r, s, e, key)
  {
    hide Consistent, Faithful, IngestFile;
    var t, path, content := s.tables, e.path, s.fs[e.path];
    if path in t.files && Reads(r, t, path, |content|) {
      assert RowMatchesFile(r, s, path) && Settled(r, s, path);
      TailIsRemainingLines(content, t.files[path].indexedLines);
      assert NewLines(t, path, content) == [];
    }
    assert r.locate(path).Some? ==> NoDeletedOwner(s, KeyOf(r.locate(path).value));
  }

  lemma {:induction false} FullPassTidy(r: Reader, s: State, e: Event)
    requires Tidy(r, s) && FullPass(s, e)
    ensures Tidy(r, Step(r, s, e))
  {
    hide Inv, Faithful, NoDeletedOwner, Settled, Enabled, Hazard, IngestFile;
    FullPassEnabled(r, s, e);
    StepKeeps(r, s, e);
    forall key ensures Faithful(r, Step(r, s, e), key) {
      FullPassNoHazard(r, s, e, key);
      FaithfulUnlessHazard(r, s, e, key);
    }
    forall key ensures NoDeletedOwner(Step(r, s, e), key) {
      PassKeepsOwnersPresent(r, s, e, key);
    }
    forall path | path in Step(r, s, e).tables.files ensures Settled(r, Step(r, s, e), path) {
      if path == e.path {
        FullPassSettles(r, s, e);
      } else {
        NewRowsOnlyForPass(r, s, e, path);
        PassKeepsSettled(r, s, e, path);
      }
    }
  }

  lemma {:induction false} NewRowsOnlyForPass(r: Reader, s: State, e: Event, path: Path)
    requires Inv(r, s) && e.Pass? && path != e.path && path in Step(r, s, e).tables.files
    ensures path in s.tables.files
  {
    hide Consistent, IngestFile, RowMatchesFile;
    RowUnlessPassed(r, s.tables, e.path, e.size, e.content, path);
  }

  lemma {:induction false} ScanTidy(r: Reader, s: State, order: seq<Path>)
    requires forall path :: path in order ==> path in s.fs
    requires Tidy(r, s)
    ensures Tidy(r, Scan(r, s, order)) && Scan(r, s, order).fs == s.fs
  {
    hide Tidy, IngestFile;
    if order != [] {
      var n := |order| - 1;
      assert ScanEvents(s.fs, order)[..n] == ScanEvents(s.fs, order[..n]);
      ScanTidy(r, s, order[..n]);
      FullPassTidy(r, Scan(r, s, order[..n]), ScanEvents(s.fs, order)[n]);
    }
  }

  lemma {:induction false} EmptyTidy(r: Reader, fs: map<Path, Bytes>)
    ensures Tidy(r, State(fs, EMPTY))
  {
  }

  lemma {:induction false} FaithfulOutranked(r: Reader, s: State, key: Key, path: Path)
    requires Faithful(r, s, key)
    ensures Outranked(r, s, key, path)
  {
    hide LastEit, CompleteLines;
    assert Belongs(r, path, key) ==> Sheltered(r, s, path);
  }

  /** Under a key that no hazard has touched a caught-up index shows what the archive amounts to. */
  lemma {:induction false} FaithfulShowsArchive(r: Reader, s: State, key: Key)
    requires Inv(r, s) && Faithful(r, s, key) && CaughtUp(r, s)
    ensures Shows(s.tables, key) == ArchiveShows(r, s.fs, key)
  {
    hide Inv, Faithful, CaughtUp, Outranked, Shows, ArchiveShows;
    forall path ensures Outranked(r, s, key, path) {
      FaithfulOutranked(r, s, key, path);
    }
    ShowsArchiveIff(r, s, key);
  }

  /** A rebuild shows what the archive amounts to, in whatever order it walks the files. */
  lemma {:induction false} RebuildShowsArchive(r: Reader, fs: map<Path, Bytes>, order: seq<Path>, key: Key)
    requires forall path :: path in order <==> path in fs
    ensures Shows(Rebuilt(r, fs, order).tables, key) == ArchiveShows(r, fs, key)
  {
    hide Inv, Faithful, NoDeletedOwner, Settled, Shows, ArchiveShows, CaughtUp, Scan;
    var s := State(fs, EMPTY);
    EmptyTidy(r, fs);
    ScanTidy(r, s, order);
    FullScanCatchesUp(r, s, order);
    FaithfulShowsArchive(r, Scan(r, s, order), key);
  }

  /** The headline: after any legal run of appends, committed passes, unlinks and cleanups in which no step was a
    * hazard to a key, once the index is caught up it shows under the key exactly what a rebuild would show. What
    * happened to the key before the run does not matter, as long as the run starts with its duplicates outranked,
    * say with none of its files present. */
  lemma {:induction false} IncrementalEqualsRebuild(r: Reader, start: State, events: seq<Event>, order: seq<Path>, key: Key)
    requires Inv(r, start) && Faithful(r, start, key)
    requires Legal(r, start, events) && HazardFree(r, start, events, key)
    requires var s := Run(r, start, events);
      CaughtUp(r, s) && forall path :: path in order <==> path in s.fs
    ensures var s := Run(r, start, events);
      Shows(s.tables, key) == Shows(Rebuilt(r, s.fs, order).tables, key)
  {
    hide Inv, Faithful, CaughtUp, Shows, ArchiveShows, Run, Rebuilt, Legal, HazardFree;
    RunFaithful(r, start, events, key);
    var s := Run(r, start, events);
    FaithfulShowsArchive(r, s, key);
    RebuildShowsArchive(r, s.fs, order, key);
  }
}
