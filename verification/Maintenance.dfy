/** The archive writers and the background indexer, interleaved (src/archive.rs, src/search_db/indexer.rs).
  *
  * A writer appends bytes to a file and marks its path dirty only afterwards; the indexer snapshots the
  * dirty paths with their generations, then for each path takes its size, reads it and commits without
  * holding the store's lock, and finally clears the path if its generation has not changed. Marking,
  * snapshotting and clearing each happen under the lock and are one step; everything else interleaves. */
module Maintenance {
  import opened Collisions
  import opened IndexInvariant
  import opened IndexRuns
  import opened IngestPass
  import opened Lines
  import opened TextOrder
  import opened Rebuild
  import Recording
  import opened SearchTables
  import opened Wrappers

  /** A file being written, and whether a newline has been written since the last mark. */
  datatype Writing = Writing(path: Path, wroteNewline: bool)

  /** Where the indexer is. `todo` is what remains of the snapshot; a scan pass has no snapshot. */
  datatype Phase =
    | Resting
    | Passing(todo: map<Path, nat>)
    | Statted(todo: map<Path, nat>, path: Path, size: nat, scan: bool)
    | HasRead(todo: map<Path, nat>, path: Path, size: nat, content: Bytes, scan: bool)
    | Committed(todo: map<Path, nat>, path: Path)

  /** The startup scan is under way while `scanning` and has come by the paths of `visited`; it is never repeated.
    * `unscanned` are the files of earlier runs that have not been indexed since the process started, and `marks`
    * counts, per path, the marks since the last snapshot. */
  datatype System = System(
    fs: map<Path, Bytes>,
    tables: Tables,
    dirty: map<Path, nat>,
    writers: map<nat, Writing>,
    phase: Phase,
    scanning: bool,
    visited: set<Path>,
    unscanned: set<Path>,
    marks: map<Path, nat>)

  datatype Action =
    | Open(writer: nat, path: Path)
    | Begin(writer: nat, path: Path)
    | Write(writer: nat, data: Bytes)
    | Mark(writer: nat)
    | Abort(writer: nat)
    | Snapshot
    | Stat(path: Path)
    | ScanStat(path: Path)
    | EndScan
    | Read
    | Commit
    | Skip(path: Path)
    | Fail
    | Clear
    | Finish
    | Unlink(path: Path)
    | CleanUp

  function MarksOf(s: System, path: Path): nat {
    if path in s.marks then s.marks[path] else 0
  }

  function Archive(s: System): State {
    State(s.fs, s.tables)
  }

  predicate CanAct(s: System, a: Action) {
    match a
    case Open(w, path) => w !in s.writers && path !in s.fs && path !in s.tables.files
    case Begin(w, path) => w !in s.writers && path in s.fs
    case Write(w, _) => w in s.writers && s.writers[w].path in s.fs
    case Mark(w) => w in s.writers
    // A failed write ends without a mark, but a line counts as written only once its newline is.
    case Abort(w) => w in s.writers && !s.writers[w].wroteNewline
    case Snapshot => s.phase.Resting? && !s.scanning
    case Stat(path) => s.phase.Passing? && path in s.phase.todo && path in s.fs
    // The scan walks whatever files exist by then, also files opened since the process started, each once. It can
    // miss files: reading one can fail, and so can walking a directory.
    case ScanStat(path) => s.phase.Resting? && s.scanning && path in s.fs && path !in s.visited
    case EndScan => s.phase.Resting? && s.scanning
    case Read => s.phase.Statted? && s.phase.path in s.fs
    case Commit => s.phase.HasRead?
    case Skip(path) => s.phase.Passing? && path in s.phase.todo
    case Fail => s.phase.Statted? || s.phase.HasRead?
    case Clear => s.phase.Committed?
    case Finish => s.phase.Passing? && s.phase.todo == map[]
    // Garbage collection and cleanup run on the indexer's own task, and never touch a file being written.
    case Unlink(path) => s.phase.Resting? && path in s.fs && forall w :: w in s.writers ==> s.writers[w].path != path
    case CleanUp => s.phase.Resting? && !s.scanning
  }

  /** Where the indexer goes on after it is done with `path`, whatever became of it. */
  function Onward(todo: map<Path, nat>, path: Path, scan: bool): Phase {
    if scan then Resting else Passing(todo - {path})
  }

  ghost function Act(r: Reader, s: System, a: Action): System
    requires CanAct(s, a)
  {
    match a
    case Open(w, path) => s.(fs := s.fs[path := []], writers := s.writers[w := Writing(path, false)])
    case Begin(w, path) => s.(writers := s.writers[w := Writing(path, false)])
    case Write(w, data) =>
      var was := s.writers[w];
      s.(fs := s.fs[was.path := s.fs[was.path] + data],
         writers := s.writers[w := Writing(was.path, was.wroteNewline || NEWLINE in data)])
    case Mark(w) =>
      var path := s.writers[w].path;
      s.(dirty := Recording.MarkDirty(s.dirty, path),
         writers := s.writers - {w},
         marks := s.marks[path := MarksOf(s, path) + 1])
    case Abort(w) => s.(writers := s.writers - {w})
    case Snapshot => s.(phase := Passing(s.dirty), marks := map[])
    case Stat(path) => s.(phase := Statted(s.phase.todo, path, |s.fs[path]|, false))
    case ScanStat(path) => s.(phase := Statted(map[], path, |s.fs[path]|, true), visited := s.visited + {path})
    case EndScan => s.(scanning := false)
    case Read => s.(phase := HasRead(s.phase.todo, s.phase.path, s.phase.size, s.fs[s.phase.path], s.phase.scan))
    case Commit =>
      var p := s.phase;
      s.(tables := IngestFile(r, s.tables, p.path, p.size, p.content),
         phase := if p.scan then Resting else Committed(p.todo, p.path),
         unscanned := s.unscanned - {p.path})
    case Skip(path) => s.(phase := Onward(s.phase.todo, path, false))
    case Fail => s.(phase := Onward(s.phase.todo, s.phase.path, s.phase.scan))
    case Clear =>
      var p := s.phase;
      s.(dirty := if p.path in p.todo then Recording.ClearIfUnchanged(s.dirty, p.path, p.todo[p.path]) else s.dirty,
         phase := Onward(p.todo, p.path, false))
    case Finish => s.(phase := Resting)
    case Unlink(path) => s.(fs := s.fs - {path})
    case CleanUp => s.(tables := Cleanup(s.tables, s.fs.Keys))
  }

  // ---------------------------------------------------------------- the invariant

  /** Some writer has written a newline to `path` and not marked it yet. */
  ghost predicate Pending(s: System, path: Path) {
    exists w :: w in s.writers && s.writers[w] == Writing(path, true)
  }

  /** No complete line of `path` is forgotten: it is indexed, or the path is marked, about to be marked, or is
    * of an earlier run and has not been indexed since the process started. */
  ghost predicate NotLost(r: Reader, s: System, path: Path) {
    Settled(r, Archive(s), path) || path in s.dirty || Pending(s, path) || path in s.unscanned
  }

  function Todo(p: Phase): map<Path, nat> {
    if p.Resting? then map[] else p.todo
  }

  /** Since the snapshot a path's generation has only been counted up, once per mark. */
  ghost predicate Counted(s: System, path: Path) {
    && (path in s.dirty ==> s.dirty[path] < Recording.GENERATIONS)
    && (path in Todo(s.phase) ==>
          && path in s.dirty && Todo(s.phase)[path] < Recording.GENERATIONS
          && s.dirty[path] == (Todo(s.phase)[path] + MarksOf(s, path)) % Recording.GENERATIONS)
  }

  /** Complete lines beyond the first `size` bytes leave a trace: a mark since the snapshot, or a writer that is
    * about to mark. */
  ghost predicate Traced(s: System, path: Path, size: nat, scan: bool) {
    && path in s.fs && size <= |s.fs[path]|
    && (|CompleteLines(s.fs[path][..size])| == |CompleteLines(s.fs[path])|
        || Pending(s, path) || (if scan then path in s.dirty else MarksOf(s, path) > 0))
  }

  ghost predicate Resumable(t: Tables, path: Path, size: nat) {
    path in t.files && t.files[path].status == Indexed ==> t.files[path].indexedOffset <= size
  }

  ghost predicate PhaseHolds(r: Reader, s: System) {
    match s.phase
    case Resting => true
    case Passing(_) => true
    case Statted(todo, path, size, scan) =>
      && Traced(s, path, size, scan) && Resumable(s.tables, path, size)
      && (if scan then todo == map[] && path in s.visited else path in todo)
    case HasRead(todo, path, size, content, scan) =>
      && Traced(s, path, size, scan) && Resumable(s.tables, path, size)
      && size <= |content| && content <= s.fs[path]
      && (if scan then todo == map[] && path in s.visited else path in todo)
    case Committed(todo, path) =>
      && path in todo && path in s.fs && path !in s.unscanned
      && (Settled(r, Archive(s), path) || Pending(s, path) || MarksOf(s, path) > 0)
  }

  ghost predicate SysInv(r: Reader, s: System) {
    && Inv(r, Archive(s))
    && (forall path :: NotLost(r, s, path))
    && (forall path :: Counted(s, path))
    && PhaseHolds(r, s)
  }

  /** The one thing the protocol asks of its surroundings: when a path is cleared, the marks since the snapshot are
    * not a positive multiple of 2^64. */
  predicate NotWrapped(s: System, a: Action) {
    a.Clear? && s.phase.Committed? ==>
      MarksOf(s, s.phase.path) == 0 || MarksOf(s, s.phase.path) % Recording.GENERATIONS != 0
  }

  // ---------------------------------------------------------------- the archive side of an action

  /** The archive event an action amounts to, if any. */
  function EventOf(s: System, a: Action): Option<Event>
    requires CanAct(s, a)
  {
    match a
    case Open(_, path) => Some(Append(path, []))
    case Write(w, data) => Some(Append(s.writers[w].path, data))
    case Commit => Some(Pass(s.phase.path, s.phase.size, s.phase.content))
    case Unlink(path) => Some(Event.Unlink(path))
    case CleanUp => Some(Event.CleanUp)
    case _ => None
  }

  /** Every action is one legal archive event or leaves the archive and its index alone. */
  lemma {:induction false} ActRefines(r: Reader, s: System, a: Action)
    requires SysInv(r, s) && CanAct(s, a)
    ensures EventOf(s, a).Some? ==>
      && Enabled(Archive(s), EventOf(s, a).value)
      && Archive(Act(r, s, a)) == Step(r, Archive(s), EventOf(s, a).value)
    ensures EventOf(s, a).None? ==> Archive(Act(r, s, a)) == Archive(s)
  {
    hide Inv, NotLost, Counted, IngestFile, Cleanup, CompleteLines;
  }

  lemma {:induction false} ActKeepsArchive(r: Reader, s: System, a: Action)
    requires SysInv(r, s) && CanAct(s, a)
    ensures Inv(r, Archive(Act(r, s, a)))
  {
    hide Inv, NotLost, Counted, PhaseHolds, CanAct, Act, Enabled, Step;
    ActRefines(r, s, a);
    if EventOf(s, a).Some? {
      StepKeeps(r, Archive(s), EventOf(s, a).value);
    }
  }

  // ---------------------------------------------------------------- what each action keeps

  lemma {:induction false} MarkCounts(r: Reader, s: System, w: nat, path: Path)
    requires CanAct(s, Mark(w)) && Counted(s, path)
    ensures Counted(Act(r, s, Mark(w)), path)
  {
    hide IngestFile, Cleanup;
    if path == s.writers[w].path && path in Todo(s.phase) {
      CountUp(Todo(s.phase)[path], MarksOf(s, path) + 1);
    }
  }

  lemma {:induction false} ActCounts(r: Reader, s: System, a: Action, path: Path)
    requires CanAct(s, a) && Counted(s, path)
    ensures Counted(Act(r, s, a), path)
  {
    hide IngestFile, Cleanup;
    if a.Mark? {
      MarkCounts(r, s, a.writer, path);
    }
  }

  /** A pending path stays pending until it is marked. */
  lemma {:induction false} PendingStays(r: Reader, s: System, a: Action, path: Path)
    requires CanAct(s, a) && Pending(s, path)
    ensures var s' := Act(r, s, a); Pending(s', path) || (path in s'.dirty && MarksOf(s', path) > 0)
  {
    hide IngestFile, Cleanup;
    var w :| w in s.writers && s.writers[w] == Writing(path, true);
    var s' := Act(r, s, a);
    if a != Mark(w) {
      assert w in s'.writers && s'.writers[w] == Writing(path, true);
    }
  }

  lemma {:induction false} AppendWithoutNewline(content: Bytes, data: Bytes)
    requires NEWLINE !in data
    ensures CompleteLines(content + data) == CompleteLines(content)
  {
    SplitAppend(content, data);
    SplitJoins(content);
    SplitUnique([], Rest(content) + data);
    assert Unlines([]) + (Rest(content) + data) == Rest(content) + data;
  }

  /** Writing to a file completes no line, or leaves its path pending. */
  lemma {:induction false} WriteSettled(r: Reader, s: System, w: nat, data: Bytes, path: Path)
    requires CanAct(s, Write(w, data)) && path in s.fs
    ensures var s' := Act(r, s, Write(w, data));
      Pending(s', path) || CompleteLines(s'.fs[path]) == CompleteLines(s.fs[path])
  {
    hide CompleteLines;
    var s' := Act(r, s, Write(w, data));
    if s.writers[w].path == path {
      if NEWLINE in data {
        assert s'.writers[w] == Writing(path, true);
      } else {
        AppendWithoutNewline(s.fs[path], data);
      }
    }
  }

  /** A commit covers every line that was complete when the size was taken. */
  lemma {:induction false} CommitCovers(r: Reader, s: State, path: Path, size: nat, content: Bytes)
    requires Inv(r, s) && Enabled(s, Pass(path, size, content))
    requires |CompleteLines(s.fs[path][..size])| == |CompleteLines(s.fs[path])|
    ensures Settled(r, Step(r, s, Pass(path, size, content)), path)
  {
    hide Consistent, IngestFile, ReadUpTo, CompleteLines;
    assert RowMatchesFile(r, s, path);
    var t, whole := s.tables, s.fs[path];
    if Reads(r, t, path, size) {
      NothingReadYet(r, t, path, content);
      if path in t.files {
        ShorterReads(r, t, path, size, content, whole);
      }
      PassReadsEverything(r, t, path, size, content);
      CompleteLinesGrow(whole[..size], content);
      CompleteLinesGrow(content, whole);
    } else {
      PassReturnsEarly(r, t, path, size, content);
      if r.locate(path).Some? {
        if path !in t.files {
          EarlyRow(r, t, path, size, content);
        } else if t.files[path].status == Indexed {
          AtOffsetAllRead(r, t, path, whole);
        }
      }
    }
  }

  lemma {:induction false} AtOffsetAllRead(r: Reader, t: Tables, path: Path, content: Bytes)
    requires ReadUpTo(r, t, path, content) && path in t.files && t.files[path].status == Indexed && r.locate(path).Some?
    ensures t.files[path].indexedOffset <= |content|
    ensures |CompleteLines(content[..t.files[path].indexedOffset])| == t.files[path].indexedLines
  {
    hide Mirrors;
    var k, lines := t.files[path].indexedLines, CompleteLines(content);
    SplitJoins(content);
    UnlinesPrefix(lines, k);
    SplitUnique(lines[..k], []);
    assert content[..t.files[path].indexedOffset] == Unlines(lines[..k]) + [];
  }

  /** Committing a shorter read never forgets lines already accounted for. */
  lemma {:induction false} CommitKeepsSettled(r: Reader, s: State, path: Path, size: nat, content: Bytes)
    requires Inv(r, s) && Enabled(s, Pass(path, size, content)) && Settled(r, s, path)
    ensures Settled(r, Step(r, s, Pass(path, size, content)), path)
  {
    hide Consistent, IngestFile, ReadUpTo, CompleteLines;
    assert RowMatchesFile(r, s, path);
    var t, whole := s.tables, s.fs[path];
    if Reads(r, t, path, size) {
      NothingReadYet(r, t, path, content);
      CompleteLinesGrow(content, whole);
      if path in t.files {
        ShorterReads(r, t, path, size, content, whole);
        LinesRead(r, t, path, content);
      }
      PassReadsEverything(r, t, path, size, content);
    } else {
      PassReturnsEarly(r, t, path, size, content);
    }
  }

  lemma {:induction false} LinesRead(r: Reader, t: Tables, path: Path, content: Bytes)
    requires ReadUpTo(r, t, path, content) && path in t.files && t.files[path].status == Indexed && r.locate(path).Some?
    ensures t.files[path].indexedLines <= |CompleteLines(content)|
  {
    hide Mirrors;
  }

  /** An action keeps a settled path settled, or makes it pending. */
  lemma {:induction false} SettledStays(r: Reader, s: System, a: Action, path: Path)
    requires SysInv(r, s) && CanAct(s, a) && Settled(r, Archive(s), path)
    ensures Settled(r, Archive(Act(r, s, a)), path) || Pending(Act(r, s, a), path)
  {
    hide Consistent, NotLost, Counted, RowMatchesFile, IngestFile, Cleanup, CompleteLines;
    ActRefines(r, s, a);
    match a
    case Open(_, p) => NothingInEmpty();
    case Write(w, data) =>
      if path in s.fs {
        WriteSettled(r, s, w, data, path);
      }
    case Commit =>
      if path == s.phase.path {
        CommitKeepsSettled(r, Archive(s), path, s.phase.size, s.phase.content);
      } else {
        PassKeepsSettled(r, Archive(s), Pass(s.phase.path, s.phase.size, s.phase.content), path);
      }
    case CleanUp =>
      if path in s.tables.files || path in Cleanup(s.tables, s.fs.Keys).files {
        CleanupKeepsPresent(r, s.tables, s.fs.Keys, path);
      }
    case _ =>
  }

  lemma {:induction false} NothingInEmpty()
    ensures CompleteLines([]) == []
  {
  }

  /** Counting up comes back to the same generation exactly after a multiple of 2^64 marks. */
  lemma {:induction false} SameGenerationIff(generation: nat, marks: nat)
    requires generation < Recording.GENERATIONS
    ensures (generation + marks) % Recording.GENERATIONS == generation <==> marks % Recording.GENERATIONS == 0
  {
  }

  /** Clearing takes a path off the dirty list exactly when the marks since the snapshot are a multiple of 2^64. */
  lemma {:induction false} ClearsIffMultiple(r: Reader, s: System)
    requires SysInv(r, s) && CanAct(s, Clear)
    ensures s.phase.path !in Act(r, s, Clear).dirty <==> MarksOf(s, s.phase.path) % 0x1_0000_0000_0000_0000 == 0
  {
    hide Inv, NotLost, Settled;
    var path := s.phase.path;
    assert Counted(s, path);
    SameGenerationIff(s.phase.todo[path], MarksOf(s, path));
  }

  lemma {:induction false} ClearIsSafe(r: Reader, s: System, path: Path)
    requires SysInv(r, s) && CanAct(s, Clear) && NotWrapped(s, Clear)
    ensures NotLost(r, Act(r, s, Clear), path)
  {
    hide Inv, Settled;
    assert NotLost(r, s, path) && Counted(s, path);
    var s' := Act(r, s, Clear);
    if Pending(s, path) {
      PendingStays(r, s, Clear, path);
    } else if path in s.dirty && path !in s'.dirty {
      ClearsIffMultiple(r, s);
    }
  }

  lemma {:induction false} ScanCommitIsSafe(r: Reader, s: System, path: Path)
    requires SysInv(r, s) && CanAct(s, Commit) && s.phase.scan && s.phase.path == path
    ensures NotLost(r, Act(r, s, Commit), path)
  {
    hide Consistent, Counted, RowMatchesFile, Settled, IngestFile, CompleteLines;
    if Pending(s, path) {
      PendingStays(r, s, Commit, path);
    } else if path !in s.dirty {
      CommitCovers(r, Archive(s), path, s.phase.size, s.phase.content);
    }
  }

  /** What is read outside the scan is dirty until it is cleared. */
  lemma {:induction false} ReadIsDirty(r: Reader, s: System)
    requires SysInv(r, s) && s.phase.HasRead? && !s.phase.scan
    ensures s.phase.path in s.dirty
  {
    hide Inv, NotLost;
    assert Counted(s, s.phase.path);
  }

  /** No action forgets a complete line. */
  lemma {:induction false} NothingLost(r: Reader, s: System, a: Action, path: Path)
    requires SysInv(r, s) && CanAct(s, a) && NotWrapped(s, a)
    ensures NotLost(r, Act(r, s, a), path)
  {
    hide Inv, Counted, PhaseHolds, Settled, Pending, IngestFile, Cleanup, CompleteLines;
    assert NotLost(r, s, path);
    if a.Clear? {
      ClearIsSafe(r, s, path);
    } else if a.Commit? && s.phase.scan && s.phase.path == path {
      ScanCommitIsSafe(r, s, path);
    } else if a.Commit? && s.phase.path == path {
      ReadIsDirty(r, s);
    } else if Pending(s, path) {
      PendingStays(r, s, a, path);
    } else if Settled(r, Archive(s), path) {
      SettledStays(r, s, a, path);
    }
  }

  lemma {:induction false} TracedStays(r: Reader, s: System, a: Action, path: Path, size: nat, scan: bool)
    requires CanAct(s, a) && Traced(s, path, size, scan)
    requires !a.Snapshot? && !a.Clear? && !a.Unlink?
    ensures Traced(Act(r, s, a), path, size, scan)
  {
    hide CompleteLines, IngestFile, Cleanup, Pending;
    var s' := Act(r, s, a);
    if Pending(s, path) {
      PendingStays(r, s, a, path);
    }
    if a.Write? {
      WriteSettled(r, s, a.writer, a.data, path);
      assert s'.fs[path][..size] == s.fs[path][..size];
    }
  }

  lemma {:induction false} StatTraces(r: Reader, s: System, a: Action)
    requires SysInv(r, s) && CanAct(s, a) && (a.Stat? || a.ScanStat?)
    ensures PhaseHolds(r, Act(r, s, a))
  {
    hide Consistent, NotLost, Counted, CompleteLines, ReadUpTo, Pending;
    assert s.fs[a.path][..|s.fs[a.path]|] == s.fs[a.path];
    assert RowMatchesFile(r, Archive(s), a.path);
    if a.path in s.tables.files && s.tables.files[a.path].status == Indexed {
      OffsetInFile(r, s.tables, a.path, s.fs[a.path]);
    }
  }

  lemma {:induction false} CommitPhase(r: Reader, s: System)
    requires SysInv(r, s) && CanAct(s, Commit)
    ensures PhaseHolds(r, Act(r, s, Commit))
  {
    hide Consistent, NotLost, Counted, RowMatchesFile, Settled, IngestFile, CompleteLines;
    if !s.phase.scan && !Pending(s, s.phase.path) && MarksOf(s, s.phase.path) == 0 {
      CommitCovers(r, Archive(s), s.phase.path, s.phase.size, s.phase.content);
    } else if Pending(s, s.phase.path) {
      PendingStays(r, s, Commit, s.phase.path);
    }
  }

  predicate WriterAction(a: Action) {
    a.Open? || a.Begin? || a.Write? || a.Mark? || a.Abort?
  }

  lemma {:induction false} WriterKeepsPhase(r: Reader, s: System, a: Action)
    requires SysInv(r, s) && CanAct(s, a) && WriterAction(a)
    ensures PhaseHolds(r, Act(r, s, a))
  {
    hide Inv, NotLost, Counted, Settled, Pending, CompleteLines;
    var s' := Act(r, s, a);
    if s.phase.Statted? || s.phase.HasRead? {
      TracedStays(r, s, a, s.phase.path, s.phase.size, s.phase.scan);
      FilesGrow(r, s, a, s.phase.path);
    } else if s.phase.Committed? {
      FilesGrow(r, s, a, s.phase.path);
      if Pending(s, s.phase.path) {
        PendingStays(r, s, a, s.phase.path);
      } else if Settled(r, Archive(s), s.phase.path) {
        SettledStays(r, s, a, s.phase.path);
      }
    }
  }

  lemma {:induction false} FilesGrow(r: Reader, s: System, a: Action, path: Path)
    requires CanAct(s, a) && WriterAction(a) && path in s.fs
    ensures var s' := Act(r, s, a);
      && path in s'.fs && s.fs[path] <= s'.fs[path] && s'.tables == s.tables && s'.phase == s.phase
      && MarksOf(s', path) >= MarksOf(s, path)
  {
  }

  lemma {:induction false} ActPhase(r: Reader, s: System, a: Action)
    requires SysInv(r, s) && CanAct(s, a)
    ensures PhaseHolds(r, Act(r, s, a))
  {
    hide Inv, NotLost, Counted, Settled, Pending, CompleteLines, IngestFile, Cleanup;
    if WriterAction(a) {
      WriterKeepsPhase(r, s, a);
    } else if a.Stat? || a.ScanStat? {
      StatTraces(r, s, a);
    } else if a.Commit? {
      CommitPhase(r, s);
    } else if a.Read? {
      TracedStays(r, s, a, s.phase.path, s.phase.size, s.phase.scan);
    }
  }

  /** Every action keeps the invariant of the interleaved system. */
  lemma {:induction false} ActKeeps(r: Reader, s: System, a: Action)
    requires SysInv(r, s) && CanAct(s, a) && NotWrapped(s, a)
    ensures SysInv(r, Act(r, s, a))
  {
    hide Inv, NotLost, Counted, PhaseHolds, CanAct, Act, NotWrapped;
    ActKeepsArchive(r, s, a);
    ActPhase(r, s, a);
    forall path ensures NotLost(r, Act(r, s, a), path) && Counted(Act(r, s, a), path) {
      NothingLost(r, s, a, path);
      ActCounts(r, s, a, path);
    }
  }

  // ---------------------------------------------------------------- runs of the system

  ghost predicate Runs(r: Reader, states: seq<System>, actions: seq<Action>) {
    && |states| == |actions| + 1
    && forall i :: 0 <= i < |actions| ==> CanAct(states[i], actions[i]) && states[i + 1] == Act(r, states[i], actions[i])
  }

  /** A process starts with nothing marked, nothing being written, and every existing file still to be scanned. */
  ghost predicate Starts(r: Reader, s: System) {
    && Inv(r, Archive(s))
    && s.dirty == map[] && s.writers == map[] && s.phase == Resting && s.marks == map[]
    && s.scanning && s.visited == {} && s.unscanned == s.fs.Keys
  }

  lemma {:induction false} StartHolds(r: Reader, s: System)
    requires Starts(r, s)
    ensures SysInv(r, s)
  {
    hide Inv, CompleteLines;
  }

  lemma {:induction false} RunKeepsInvariant(r: Reader, states: seq<System>, actions: seq<Action>, n: nat)
    requires Runs(r, states, actions) && Starts(r, states[0]) && n < |states|
    requires forall i :: 0 <= i < |actions| ==> NotWrapped(states[i], actions[i])
    ensures SysInv(r, states[n])
  {
    hide SysInv, CanAct, Act, NotWrapped, Starts;
    if n == 0 {
      StartHolds(r, states[0]);
    } else {
      RunKeepsInvariant(r, states, actions, n - 1);
      ActKeeps(r, states[n - 1], actions[n - 1]);
    }
  }

  /** No lost update: in every reachable state a file with complete lines beyond its indexed offset is marked
    * dirty, or has a writer between writing and marking, or is of an earlier run and has not been indexed since
    * the process started. */
  lemma {:induction false} NoLostUpdate(r: Reader, states: seq<System>, actions: seq<Action>, n: nat, path: Path)
    requires Runs(r, states, actions) && Starts(r, states[0]) && n < |states|
    requires forall i :: 0 <= i < |actions| ==> NotWrapped(states[i], actions[i])
    ensures var s := states[n];
      path in s.fs && r.locate(path).Some? && path !in s.dirty && path !in s.unscanned
      && !Pending(s, path) && CompleteLines(s.fs[path]) != [] ==>
        && path in s.tables.files
        && (s.tables.files[path].status == Indexed ==>
              s.tables.files[path].indexedLines == |CompleteLines(s.fs[path])|)
  {
    hide Inv, Counted, PhaseHolds, CompleteLines, Runs, Starts, NotWrapped;
    RunKeepsInvariant(r, states, actions, n);
    assert NotLost(r, states[n], path);
  }

  ghost predicate HazardFreeRun(r: Reader, states: seq<System>, actions: seq<Action>, key: Key)
    requires |states| == |actions| + 1
  {
    forall i :: 0 <= i < |actions| && CanAct(states[i], actions[i]) && EventOf(states[i], actions[i]).Some? ==>
      !Hazard(r, Archive(states[i]), EventOf(states[i], actions[i]).value, key)
  }

  lemma {:induction false} SystemStaysFaithful(r: Reader, states: seq<System>, actions: seq<Action>, n: nat, key: Key)
    requires Runs(r, states, actions) && Starts(r, states[0]) && n < |states|
    requires forall i :: 0 <= i < |actions| ==> NotWrapped(states[i], actions[i])
    requires Faithful(r, Archive(states[0]), key) && HazardFreeRun(r, states, actions, key)
    ensures Faithful(r, Archive(states[n]), key)
  {
    hide SysInv, CanAct, Act, NotWrapped, Starts, Faithful, Hazard, Enabled, Step, EventOf;
    if n > 0 {
      SystemStaysFaithful(r, states, actions, n - 1, key);
      RunKeepsInvariant(r, states, actions, n - 1);
      var s, a := states[n - 1], actions[n - 1];
      ActRefines(r, s, a);
      SysInvHasInv(r, s);
      if EventOf(s, a).Some? {
        FaithfulUnlessHazard(r, Archive(s), EventOf(s, a).value, key);
      }
    }
  }

  lemma {:induction false} SysInvHasInv(r: Reader, s: System)
    requires SysInv(r, s)
    ensures Inv(r, Archive(s))
  {
  }

  /** No present file is marked, waits for a mark or is still to be scanned, and deleted files have been cleaned
    * away. */
  ghost predicate Quiescent(s: System) {
    && (forall path :: path in s.fs ==> path !in s.dirty && path !in s.unscanned && !Pending(s, path))
    && (forall key :: NoDeletedOwner(Archive(s), key))
  }

  lemma {:induction false} QuiescentCaughtUp(r: Reader, s: System)
    requires SysInv(r, s) && Quiescent(s)
    ensures CaughtUp(r, Archive(s))
  {
    hide Inv, Counted, PhaseHolds, Pending, NoDeletedOwner, CompleteLines;
    forall path ensures Settled(r, Archive(s), path) {
      assert NotLost(r, s, path);
    }
  }

  /** Whenever the interleaved system comes to rest after a run without a hazard to a key, the index shows under the
    * key what the archive files of that moment amount to, which is exactly what a rebuild from them would show. */
  lemma {:induction false} QuiescentEqualsRebuild(
      r: Reader, states: seq<System>, actions: seq<Action>, n: nat, order: seq<Path>, key: Key)
    requires Runs(r, states, actions) && Starts(r, states[0]) && n < |states|
    requires forall i :: 0 <= i < |actions| ==> NotWrapped(states[i], actions[i])
    requires Faithful(r, Archive(states[0]), key) && HazardFreeRun(r, states, actions, key)
    requires Quiescent(states[n]) && forall path :: path in order <==> path in states[n].fs
    ensures Shows(states[n].tables, key) == ArchiveShows(r, states[n].fs, key)
    ensures Shows(states[n].tables, key) == Shows(Rebuilt(r, states[n].fs, order).tables, key)
  {
    hide SysInv, Inv, Quiescent, CaughtUp, Runs, Starts, NotWrapped, Faithful, HazardFreeRun, Shows, Rebuilt, ArchiveShows;
    var s := states[n];
    RunKeepsInvariant(r, states, actions, n);
    SystemStaysFaithful(r, states, actions, n, key);
    SysInvHasInv(r, s);
    QuiescentCaughtUp(r, s);
    FaithfulShowsArchive(r, Archive(s), key);
    RebuildShowsArchive(r, s.fs, order, key);
  }

  // ---------------------------------------------------------------- the bound on marks is needed

  lemma {:induction false} RunsOneMore(r: Reader, states: seq<System>, actions: seq<Action>, a: Action)
    requires Runs(r, states, actions) && CanAct(states[|actions|], a)
    ensures Runs(r, states + [Act(r, states[|actions|], a)], actions + [a])
  {
    hide CanAct, Act;
  }

  /** After writing and marking one more line, and nothing else. */
  lemma {:induction false} OneMoreMark(r: Reader, s: System, path: Path) returns (marked: System)
    requires 0 !in s.writers && path in s.fs
    ensures CanAct(s, Begin(0, path))
    ensures var begun := Act(r, s, Begin(0, path));
      && CanAct(begun, Write(0, [NEWLINE]))
      && CanAct(Act(r, begun, Write(0, [NEWLINE])), Mark(0))
      && marked == Act(r, Act(r, begun, Write(0, [NEWLINE])), Mark(0))
    ensures Lookup(marked.dirty, path) ==
      Some(((if path in s.dirty then s.dirty[path] else 0) + 1) % Recording.GENERATIONS)
    ensures marked == s.(fs := marked.fs, dirty := marked.dirty, marks := marked.marks)
    ensures path in marked.fs && |CompleteLines(marked.fs[path])| == |CompleteLines(s.fs[path])| + 1
    ensures MarksOf(marked, path) == MarksOf(s, path) + 1
  {
    hide CompleteLines;
    PushByte(s.fs[path], NEWLINE);
    var begun := Act(r, s, Begin(0, path));
    var written := Act(r, begun, Write(0, [NEWLINE]));
    marked := Act(r, written, Mark(0));
    assert marked.writers == s.writers;
  }

  lemma {:induction false} ManyMarks(r: Reader, s: System, path: Path, k: nat)
    returns (states: seq<System>, actions: seq<Action>, end: System)
    requires 0 !in s.writers && path in s.fs && path in s.dirty && s.dirty[path] < Recording.GENERATIONS
    ensures Runs(r, states, actions) && states[0] == s && states[|actions|] == end
    ensures forall i :: 0 <= i < |actions| ==> !actions[i].Clear?
    ensures end == s.(fs := end.fs, dirty := end.dirty, marks := end.marks)
    ensures Lookup(end.dirty, path) == Some((s.dirty[path] + k) % Recording.GENERATIONS)
    ensures path in end.fs && |CompleteLines(end.fs[path])| == |CompleteLines(s.fs[path])| + k
    ensures MarksOf(end, path) == MarksOf(s, path) + k
  {
    hide CompleteLines, CanAct, Act, MarksOf;
    if k == 0 {
      states, actions, end := [s], [], s;
    } else {
      var mid: System;
      states, actions, mid := ManyMarks(r, s, path, k - 1);
      end := OneMoreMark(r, mid, path);
      var begun := Act(r, mid, Begin(0, path));
      var written := Act(r, begun, Write(0, [NEWLINE]));
      RunsOneMore(r, states, actions, Begin(0, path));
      states, actions := states + [begun], actions + [Begin(0, path)];
      RunsOneMore(r, states, actions, Write(0, [NEWLINE]));
      states, actions := states + [written], actions + [Write(0, [NEWLINE])];
      RunsOneMore(r, states, actions, Mark(0));
      states, actions := states + [end], actions + [Mark(0)];
      CountUp(s.dirty[path], k);
    }
  }

  lemma {:induction false} CountUp(generation: nat, k: nat)
    requires k > 0
    ensures ((generation + (k - 1)) % Recording.GENERATIONS + 1) % Recording.GENERATIONS
      == (generation + k) % Recording.GENERATIONS
  {
  }

  /** Any positive multiple of 2^64 marks while a path waits to be cleared brings its generation back, and clearing
    * it then loses the lines those marks announced. */
  lemma {:induction false} WrapAroundLosesUpdate(r: Reader, s: System, path: Path, marks: nat)
    returns (states: seq<System>, actions: seq<Action>, end: System)
    requires SysInv(r, s) && s.phase.Committed? && s.phase.path == path && s.writers == map[]
    requires marks > 0 && marks % Recording.GENERATIONS == 0
    requires MarksOf(s, path) == 0 && path !in s.unscanned && r.locate(path).Some?
    requires path in s.tables.files && s.tables.files[path].status == Indexed
    ensures Runs(r, states, actions) && states[0] == s && states[|actions|] == end
    ensures forall i :: 0 <= i < |actions| && actions[i].Clear? ==> MarksOf(states[i], path) == marks
    ensures !NotLost(r, end, path)
  {
    hide CompleteLines, Consistent, Act, RowMatchesFile, MarksOf;
    assert Counted(s, path) && RowMatchesFile(r, Archive(s), path);
    var full: System;
    states, actions, full := ManyMarks(r, s, path, marks);
    RunsOneMore(r, states, actions, Clear);
    end := Act(r, full, Clear);
    states, actions := states + [end], actions + [Clear];
    RowBehind(r, s, full, path);
    ClearedAfterWrap(r, s, full, path, marks);
  }

  lemma {:induction false} RowBehind(r: Reader, s: System, full: System, path: Path)
    requires Inv(r, Archive(s)) && path in s.fs && path in s.tables.files && s.tables.files[path].status == Indexed
    requires r.locate(path).Some?
    requires path in full.fs && full.tables == s.tables
    requires |CompleteLines(full.fs[path])| > |CompleteLines(s.fs[path])|
    ensures !Settled(r, Archive(full), path)
  {
    hide Consistent, CompleteLines, Mirrors;
    assert RowMatchesFile(r, Archive(s), path);
  }

  lemma {:induction false} ClearedAfterWrap(r: Reader, s: System, full: System, path: Path, marks: nat)
    requires s.phase.Committed? && s.phase.path == path && path in s.phase.todo && s.writers == map[]
    requires path in s.dirty && s.dirty[path] == s.phase.todo[path] < Recording.GENERATIONS
    requires full == s.(fs := full.fs, dirty := full.dirty, marks := full.marks)
    requires Lookup(full.dirty, path) == Some((s.dirty[path] + marks) % Recording.GENERATIONS)
    requires marks % Recording.GENERATIONS == 0
    requires path !in s.unscanned && !Settled(r, Archive(full), path)
    ensures !NotLost(r, Act(r, full, Clear), path)
  {
    hide Settled;
    SameGenerationIff(s.dirty[path], marks);
  }
}
