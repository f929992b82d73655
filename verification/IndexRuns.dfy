/** Runs of the archive and its search index: files grow and are unlinked, passes commit one path at a
  * time, cleanup follows unlinking. A failed pass rolls back and is no step. */
module IndexRuns {
  import opened IndexInvariant
  import opened IngestPass
  import opened Lines
  import opened TextOrder
  import opened SearchTables
  import opened Wrappers

  datatype State = State(fs: map<Path, Bytes>, tables: Tables)

  datatype Event =
    | Append(path: Path, data: Bytes)
    | Pass(path: Path, size: nat, content: Bytes)
    | Unlink(path: Path)
    | CleanUp

  /** What the surroundings guarantee. A file only grows, and a path that still has rows is not created anew.
    * A pass takes the size after the previous pass, then reads what was in the file at some moment between
    * then and its commit. */
  ghost predicate Enabled(s: State, e: Event) {
    match e
    case Append(path, _) => path in s.fs || path !in s.tables.files
    case Pass(path, size, content) =>
      && path in s.fs && size <= |content| && content <= s.fs[path]
      && (path in s.tables.files && s.tables.files[path].status == Indexed ==> s.tables.files[path].indexedOffset <= size)
    case Unlink(path) => path in s.fs
    case CleanUp => true
  }

  ghost function Step(r: Reader, s: State, e: Event): State {
    match e
    case Append(path, data) => s.(fs := s.fs[path := (if path in s.fs then s.fs[path] else []) + data])
    case Pass(path, size, content) => s.(tables := IngestFile(r, s.tables, path, size, content))
    case Unlink(path) => s.(fs := s.fs - {path})
    case CleanUp => s.(tables := Cleanup(s.tables, s.fs.Keys))
  }

  ghost function Run(r: Reader, s: State, events: seq<Event>): State {
    if events == [] then s else Step(r, Run(r, s, events[..|events| - 1]), events[|events| - 1])
  }

  ghost predicate Legal(r: Reader, s: State, events: seq<Event>) {
    events != [] ==>
      && Legal(r, s, events[..|events| - 1])
      && Enabled(Run(r, s, events[..|events| - 1]), events[|events| - 1])
  }

  // ---------------------------------------------------------------- what every run keeps

  ghost predicate RowMatchesFile(r: Reader, s: State, path: Path) {
    path in s.tables.files ==>
      && r.locate(path).Some?
      && (path in s.fs ==> s.tables.files[path].status != Failed && ReadUpTo(r, s.tables, path, s.fs[path]))
  }

  ghost predicate Inv(r: Reader, s: State) {
    && Consistent(r, s.tables)
    && forall path :: RowMatchesFile(r, s, path)
  }

  lemma {:induction false} AppendKeeps(r: Reader, s: State, path: Path, data: Bytes)
    requires Inv(r, s) && Enabled(s, Append(path, data))
    ensures Inv(r, Step(r, s, Append(path, data)))
  {
    hide Consistent, ReadUpTo;
    var s' := Step(r, s, Append(path, data));
    forall q ensures RowMatchesFile(r, s', q) {
      assert RowMatchesFile(r, s, q);
      if q == path && q in s.tables.files && q in s.fs {
        AppendKeepsReads(r, s.tables, q, s.fs[q], s'.fs[q]);
      }
    }
  }

  lemma {:induction false} PassKeeps(r: Reader, s: State, path: Path, size: nat, content: Bytes)
    requires Inv(r, s) && Enabled(s, Pass(path, size, content))
    ensures Inv(r, Step(r, s, Pass(path, size, content)))
  {
    hide Consistent, ReadUpTo, IngestFile, Frame;
    var s' := Step(r, s, Pass(path, size, content));
    IngestFileKeeps(r, s.tables, path, size, content);
    forall q ensures RowMatchesFile(r, s', q) {
      assert RowMatchesFile(r, s, q);
      if q == path {
        PassKeepsOwnRow(r, s, path, size, content);
      } else {
        PassKeepsOtherRow(r, s, path, size, content, q);
      }
    }
  }

  lemma {:induction false} ShorterReads(r: Reader, t: Tables, path: Path, size: nat, content: Bytes, whole: Bytes)
    requires ReadUpTo(r, t, path, whole) && size <= |content| && content <= whole
    requires path in t.files && t.files[path].status == Indexed ==> t.files[path].indexedOffset <= size
    ensures ReadUpTo(r, t, path, content)
  {
    hide Mirrors;
    if path in t.files && t.files[path].status == Indexed && r.locate(path).Some? {
      var k, lines := t.files[path].indexedLines, CompleteLines(whole)[..t.files[path].indexedLines];
      SplitJoins(whole);
      UnlinesPrefix(CompleteLines(whole), k);
      var offset := |Unlines(lines)|;
      assert content == Unlines(lines) + content[offset..];
      ResumeSplit(lines, content[offset..]);
      assert CompleteLines(content)[..k] == lines;
    }
  }

  lemma {:induction false} PassKeepsOwnRow(r: Reader, s: State, path: Path, size: nat, content: Bytes)
    requires Inv(r, s) && Enabled(s, Pass(path, size, content))
    ensures RowMatchesFile(r, Step(r, s, Pass(path, size, content)), path)
  {
    hide Consistent, ReadUpTo, IngestFile;
    assert RowMatchesFile(r, s, path);
    var t' := IngestFile(r, s.tables, path, size, content);
    if Reads(r, s.tables, path, size) {
      NothingReadYet(r, s.tables, path, content);
      if path in s.tables.files {
        ShorterReads(r, s.tables, path, size, content, s.fs[path]);
      }
      PassReadsEverything(r, s.tables, path, size, content);
      AppendKeepsReads(r, t', path, content, s.fs[path]);
    } else {
      PassReturnsEarly(r, s.tables, path, size, content);
      EarlyRowLocated(r, s.tables, path, size, content);
      DuplicateReads(r, t', path, s.fs[path]);
    }
  }

  lemma {:induction false} NothingReadYet(r: Reader, t: Tables, path: Path, content: Bytes)
    ensures path !in t.files ==> ReadUpTo(r, t, path, content)
  {
  }

  lemma {:induction false} DuplicateReads(r: Reader, t: Tables, path: Path, content: Bytes)
    ensures path in t.files && t.files[path].status == Duplicate ==> ReadUpTo(r, t, path, content)
  {
  }

  lemma {:induction false} EarlyRowLocated(r: Reader, t: Tables, path: Path, size: nat, content: Bytes)
    requires !Reads(r, t, path, size)
    ensures path !in t.files && path in IngestFile(r, t, path, size, content).files ==> r.locate(path).Some?
  {
    hide IngestTail;
  }

  lemma {:induction false} PassKeepsOtherRow(r: Reader, s: State, path: Path, size: nat, content: Bytes, q: Path)
    requires Inv(r, s) && q != path
    requires Frame(s.tables, IngestFile(r, s.tables, path, size, content), path)
    ensures RowMatchesFile(r, Step(r, s, Pass(path, size, content)), q)
  {
    hide Consistent, ReadUpTo, IngestFile;
    assert RowMatchesFile(r, s, q);
    assert FrameAt(s.tables, IngestFile(r, s.tables, path, size, content), q);
    if q in s.tables.files && q in s.fs {
      FrameKeepsReads(r, s.tables, IngestFile(r, s.tables, path, size, content), path, q, s.fs[q]);
    }
  }

  lemma {:induction false} UnlinkKeeps(r: Reader, s: State, path: Path)
    requires Inv(r, s)
    ensures Inv(r, Step(r, s, Unlink(path)))
  {
    hide Consistent, ReadUpTo;
    forall q ensures RowMatchesFile(r, Step(r, s, Unlink(path)), q) {
      assert RowMatchesFile(r, s, q);
    }
  }

  lemma {:induction false} CleanupConsistent(r: Reader, t: Tables, present: set<Path>)
    requires Consistent(r, t)
    ensures Consistent(r, Cleanup(t, present))
  {
    var t' := Cleanup(t, present);
    CleanupProgramIds(t, present);
    assert ProgramsConsistent(r, t') by {
      CleanupPrograms(r, t, present);
    }
  }

  lemma {:induction false} CleanupIndexes(
      programs: map<nat, Program>, byPath: map<Path, nat>, byKey: map<Key, nat>, gone: set<nat>)
    requires IndexesMatch(programs, byPath, byKey)
    ensures IndexesMatch(programs - gone, Without(byPath, gone), Without(byKey, gone))
  {
    forall id | id in programs - gone
      ensures Lookup(Without(byPath, gone), programs[id].path) == Some(id)
      ensures Lookup(Without(byKey, gone), KeyOf(programs[id].location)) == Some(id)
    {
      assert Lookup(byPath, programs[id].path) == Some(id) && Lookup(byKey, KeyOf(programs[id].location)) == Some(id);
    }
  }

  lemma {:induction false} CleanupPrograms(r: Reader, t: Tables, present: set<Path>)
    requires ProgramsConsistent(r, t)
    ensures ProgramsConsistent(r, Cleanup(t, present))
  {
    hide IndexesMatch, Gone, Without, KeptFiles;
    CleanupIndexes(t.programs, t.byPath, t.byKey, Gone(t.programs, present));
  }

  lemma {:induction false} CleanupProgramIds(t: Tables, present: set<Path>)
    requires IndexesMatch(t.programs, t.byPath, t.byKey)
    requires ProgramIdsMatch(t.files, t.byPath, None) && DuplicatesPointNowhere(t.files)
    ensures var t' := Cleanup(t, present);
      ProgramIdsMatch(t'.files, t'.byPath, None) && DuplicatesPointNowhere(t'.files)
    ensures forall q :: q in t.files && q in present ==>
      q in Cleanup(t, present).files && Cleanup(t, present).files[q] == t.files[q]
  {
    var gone := Gone(t.programs, present);
    forall q | q in t.files && q in present
      ensures Unreferenced(t.files[q], gone) == t.files[q]
    {
      assert ProgramIdOf(t.files, q) == Lookup(t.byPath, q);
    }
    var t' := Cleanup(t, present);
    forall q ensures ProgramIdOf(t'.files, q) == Lookup(t'.byPath, q) {
      assert ProgramIdOf(t.files, q) == Lookup(t.byPath, q);
    }
  }

  /** Cleaning up leaves rows only for present paths, and those as they were. */
  lemma {:induction false} CleanupKeepsPresent(r: Reader, t: Tables, present: set<Path>, path: Path)
    requires Consistent(r, t)
    ensures var t' := Cleanup(t, present);
      && (path in t'.files <==> path in t.files && path in present)
      && (path in t'.files ==> t'.files[path] == t.files[path])
      && (path in t'.files && t.files[path].programId.Some? ==> SameProgram(t, t', t.files[path].programId.value))
  {
    hide IndexesMatch, RowsLocated, ProgramIdsMatch, DuplicatesPointNowhere, Cleanup, SameProgram;
    CleanupProgramIds(t, present);
    CleanupFiles(t, present, path);
    if path in t.files && path in present && t.files[path].programId.Some? {
      PointsToOwnProgram(r, t, path);
      CleanupKeepsProgram(t, present, t.files[path].programId.value);
    }
  }

  lemma {:induction false} CleanupFiles(t: Tables, present: set<Path>, path: Path)
    ensures path in Cleanup(t, present).files <==> path in t.files && path in present
  {
  }

  lemma {:induction false} PointsToOwnProgram(r: Reader, t: Tables, path: Path)
    requires Consistent(r, t) && path in t.files && t.files[path].programId.Some?
    ensures var id := t.files[path].programId.value;
      && id in t.programs && id in t.genres && t.programs[id].path == path
      && OwnerPath(t, KeyOf(t.programs[id].location)) == Some(path)
      && r.locate(path) == Some(t.programs[id].location)
  {
    assert ProgramIdOf(t.files, path) == Lookup(t.byPath, path);
  }

  lemma {:induction false} CleanupKeepsProgram(t: Tables, present: set<Path>, id: nat)
    requires id in t.programs && id in t.genres && t.programs[id].path in present
    ensures SameProgram(t, Cleanup(t, present), id)
  {
  }

  lemma {:induction false} SameProgramKeepsReads(r: Reader, t: Tables, t': Tables, path: Path, content: Bytes)
    requires path in t.files && path in t'.files && t'.files[path] == t.files[path]
    requires t.files[path].programId.Some? ==> SameProgram(t, t', t.files[path].programId.value)
    requires ReadUpTo(r, t, path, content)
    ensures ReadUpTo(r, t', path, content)
  {
    hide LastEit, CaptionRows, CompleteLines, Unlines;
  }

  lemma {:induction false} CleanUpKeeps(r: Reader, s: State)
    requires Inv(r, s)
    ensures Inv(r, Step(r, s, CleanUp))
  {
    hide Consistent, ReadUpTo, Cleanup;
    var s' := Step(r, s, CleanUp);
    CleanupConsistent(r, s.tables, s.fs.Keys);
    forall q ensures RowMatchesFile(r, s', q) {
      assert RowMatchesFile(r, s, q);
      CleanupKeepsPresent(r, s.tables, s.fs.Keys, q);
      if q in s'.tables.files {
        SameProgramKeepsReads(r, s.tables, s'.tables, q, s.fs[q]);
      }
    }
  }

  lemma {:induction false} StepKeeps(r: Reader, s: State, e: Event)
    requires Inv(r, s) && Enabled(s, e)
    ensures Inv(r, Step(r, s, e))
  {
    hide Inv, Enabled, Step;
    match e
    case Append(path, data) => AppendKeeps(r, s, path, data);
    case Pass(path, size, content) => PassKeeps(r, s, path, size, content);
    case Unlink(path) => UnlinkKeeps(r, s, path);
    case CleanUp => CleanUpKeeps(r, s);
  }

  /** In every reachable state the tables hang together and every row tells the truth about its file. */
  lemma {:induction false} RunKeeps(r: Reader, s: State, events: seq<Event>)
    requires Inv(r, s) && Legal(r, s, events)
    ensures Inv(r, Run(r, s, events))
  {
    hide Inv, Enabled, Step;
    if events != [] {
      RunKeeps(r, s, events[..|events| - 1]);
      StepKeeps(r, Run(r, s, events[..|events| - 1]), events[|events| - 1]);
    }
  }
}
