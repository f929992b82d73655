/** One ingest transaction as a whole: what it keeps, how far it reads, who owns the key afterwards. */
module IngestPass {
  import opened IndexInvariant
  import opened Lines
  import opened TextOrder
  import opened SearchTables
  import S = SearchIndex
  import opened Wrappers

  /** The row of `path` accounts for its first `indexedLines` lines: the offset is where they end, and the
    * program and captions are exactly what they amount to. */
  ghost predicate ReadUpTo(r: Reader, t: Tables, path: Path, content: Bytes) {
    path in t.files && t.files[path].status == Indexed && r.locate(path).Some? ==>
      var row := t.files[path];
      && row.indexedLines <= |CompleteLines(content)|
      && var lines := CompleteLines(content)[..row.indexedLines];
      && row.indexedOffset == |Unlines(lines)|
      && Mirrors(r, t, r.locate(path).value, path, row.programId, lines)
  }

  /** A pass that goes on to read the file, rather than returning early. */
  ghost predicate Reads(r: Reader, t: Tables, path: Path, size: nat) {
    && r.locate(path).Some?
    && (path in t.files ==> t.files[path].status == Indexed && size > t.files[path].indexedOffset)
    && (path !in t.files ==> !LosesCollision(t, r.locate(path).value, path))
  }

  function LinesBefore(t: Tables, path: Path): nat {
    if path in t.files then t.files[path].indexedLines else 0
  }

  function OffsetBefore(t: Tables, path: Path): nat {
    if path in t.files then t.files[path].indexedOffset else 0
  }

  ghost predicate StartsAtBoundary(t: Tables, path: Path, content: Bytes) {
    && LinesBefore(t, path) <= |CompleteLines(content)|
    && OffsetBefore(t, path) == |Unlines(CompleteLines(content)[..LinesBefore(t, path)])|
  }

  lemma {:induction false} TailIsRemainingLines(content: Bytes, k: nat)
    requires k <= |CompleteLines(content)|
    ensures |Unlines(CompleteLines(content)[..k])| <= |content|
    ensures CompleteLines(TailFrom(content, |Unlines(CompleteLines(content)[..k])|)) == CompleteLines(content)[k..]
    ensures |Unlines(CompleteLines(content)[..k])| + |Unlines(CompleteLines(content)[k..])| == CompleteLength(content)
  {
    var lines := CompleteLines(content);
    SplitJoins(content);
    UnlinesPrefix(lines, k);
    var offset := |Unlines(lines[..k])|;
    assert content == Unlines(lines[..k]) + content[offset..];
    ResumeSplit(lines[..k], content[offset..]);
    assert lines[..k] + CompleteLines(content[offset..]) == lines;
    UnlinesAppend(lines[..k], lines[k..]);
    assert lines[..k] + lines[k..] == lines;
  }

  /** The tables before the file row is written. */
  ghost function AppliedTail(r: Reader, t: Tables, path: Path, content: Bytes): Progress
    requires r.locate(path).Some?
  {
    ApplyLines(r, Progress(t, ProgramIdOf(t.files, path)), r.locate(path).value, path,
      LinesBefore(t, path), OffsetBefore(t, path), CompleteLines(TailFrom(content, OffsetBefore(t, path))))
  }

  function WriteRow(t: Tables, path: Path, row: IndexedFile): Tables {
    t.(files := t.files[path := row])
  }

  lemma {:induction false} IngestWhenReading(r: Reader, t: Tables, path: Path, size: nat, content: Bytes)
    requires Reads(r, t, path, size) && StartsAtBoundary(t, path, content)
    ensures IngestFile(r, t, path, size, content) ==
      var p := AppliedTail(r, t, path, content);
      WriteRow(p.tables, path,
        IndexedFile(p.programId, size, CompleteLength(content), |CompleteLines(content)|, Indexed))
  {
    hide ApplyLines, CompleteLines, Unlines, TailFrom, CompleteLength;
    TailIsRemainingLines(content, LinesBefore(t, path));
  }

  // ---------------------------------------------------------------- consistency of the tables

  lemma {:induction false} StartsWorking(r: Reader, t: Tables, path: Path)
    requires Consistent(r, t) && r.locate(path).Some?
    ensures Working(r, Progress(t, ProgramIdOf(t.files, path)), r.locate(path).value, path)
  {
    hide IndexesMatch, RowsLocated, DuplicatesPointNowhere;
  }

  lemma {:induction false} WriteRowFrame(r: Reader, t: Tables, path: Path, row: IndexedFile)
    requires ConsistentBut(r, t, Some(path))
    ensures Frame(t, WriteRow(t, path, row), path)
  {
    forall q | q != path ensures FrameAt(t, WriteRow(t, path, row), q) {
      assert ProgramIdOf(t.files, q) == Lookup(t.byPath, q);
    }
  }

  lemma {:induction false} WriteRowKeeps(r: Reader, t: Tables, path: Path, row: IndexedFile)
    requires ConsistentBut(r, t, Some(path))
    requires Lookup(t.byPath, path) == row.programId
    requires row.status == Duplicate ==> row.programId.None?
    ensures Consistent(r, WriteRow(t, path, row))
    ensures Frame(t, WriteRow(t, path, row), path)
  {
    hide IndexesMatch, RowsLocated, Frame;
    WriteRowFrame(r, t, path, row);
    var t' := WriteRow(t, path, row);
    forall q ensures ProgramIdOf(t'.files, q) == Lookup(t'.byPath, q) {
      assert q != path ==> ProgramIdOf(t'.files, q) == ProgramIdOf(t.files, q);
    }
  }

  lemma {:induction false} IngestTailKeeps(r: Reader, t: Tables, path: Path, size: nat, content: Bytes)
    requires Consistent(r, t) && Reads(r, t, path, size)
    ensures Consistent(r, IngestFile(r, t, path, size, content))
    ensures Frame(t, IngestFile(r, t, path, size, content), path)
  {
    hide ConsistentBut, Frame, ApplyLines;
    StartsWorking(r, t, path);
    var location, lines := r.locate(path).value, CompleteLines(TailFrom(content, OffsetBefore(t, path)));
    var (before, offset) := (LinesBefore(t, path), OffsetBefore(t, path));
    ApplyLinesKeeps(r, Progress(t, ProgramIdOf(t.files, path)), location, path, before, offset, lines);
    var p := AppliedTail(r, t, path, content);
    var row := IndexedFile(p.programId, size, offset + |Unlines(lines)|, before + |lines|, Indexed);
    assert IngestFile(r, t, path, size, content) == WriteRow(p.tables, path, row);
    WriteRowKeeps(r, p.tables, path, row);
    FrameTransitive(t, p.tables, WriteRow(p.tables, path, row), path);
  }

  lemma {:induction false} ConsistentWeakens(r: Reader, t: Tables, path: Path)
    requires Consistent(r, t)
    ensures ConsistentBut(r, t, Some(path))
    ensures Lookup(t.byPath, path) == ProgramIdOf(t.files, path)
  {
    hide IndexesMatch, RowsLocated, DuplicatesPointNowhere;
  }

  /** Every committed pass keeps the tables consistent, whatever the file held, and touches the rows of
    * another path only to turn a beaten one into a duplicate. */
  lemma {:induction false} IngestFileKeeps(r: Reader, t: Tables, path: Path, size: nat, content: Bytes)
    requires Consistent(r, t)
    ensures Consistent(r, IngestFile(r, t, path, size, content))
    ensures Frame(t, IngestFile(r, t, path, size, content), path)
  {
    hide ConsistentBut, Frame, ApplyLines, IngestTail;
    ConsistentWeakens(r, t, path);
    if Reads(r, t, path, size) {
      IngestTailKeeps(r, t, path, size, content);
    } else {
      FrameSelf(r, t, path);
      var t' := IngestFile(r, t, path, size, content);
      if t' != t {
        assert t' == WriteRow(t, path, t'.files[path]);
        WriteRowKeeps(r, t, path, t'.files[path]);
      }
    }
  }

  // ---------------------------------------------------------------- how far a pass reads

  lemma {:induction false} MirrorsIgnoresFiles(
      r: Reader, t: Tables, location: Location, path: Path, pid: Option<nat>, lines: seq<Bytes>, q: Path,
      row: IndexedFile)
    requires Mirrors(r, t, location, path, pid, lines)
    ensures Mirrors(r, WriteRow(t, q, row), location, path, pid, lines)
  {
    hide LastEit, CaptionRows;
  }

  /** Before a first pass nothing has been read and the path owns no program. */
  lemma {:induction false} StartsMirroring(r: Reader, t: Tables, path: Path, size: nat, content: Bytes)
    requires Consistent(r, t) && Reads(r, t, path, size) && ReadUpTo(r, t, path, content)
    ensures StartsAtBoundary(t, path, content)
    ensures Mirrors(r, t, r.locate(path).value, path, ProgramIdOf(t.files, path),
      CompleteLines(content)[..LinesBefore(t, path)])
  {
    hide Consistent;
    if path !in t.files {
      assert CompleteLines(content)[..0] == [];
    }
  }

  /** A pass that reads accounts for every complete line of the file, with its true offset. */
  lemma {:induction false} PassReadsEverything(r: Reader, t: Tables, path: Path, size: nat, content: Bytes)
    requires Consistent(r, t) && Reads(r, t, path, size) && ReadUpTo(r, t, path, content)
    ensures var t' := IngestFile(r, t, path, size, content);
      && ReadUpTo(r, t', path, content)
      && path in t'.files && t'.files[path].status == Indexed
      && t'.files[path].indexedLines == |CompleteLines(content)|
      && t'.files[path].indexedOffset == CompleteLength(content)
      && t'.files[path].sizeBytes == size
  {
    hide Consistent, Working, Mirrors, ApplyLines, CompleteLines, Unlines;
    var location, lines, k := r.locate(path).value, CompleteLines(content), LinesBefore(t, path);
    var p := AppliedTail(r, t, path, content);
    StartsWorking(r, t, path);
    StartsMirroring(r, t, path, size, content);
    TailIsRemainingLines(content, k);
    assert |lines[..k]| == k && lines[..k] + lines[k..] == lines[..|lines|] == lines;
    ApplyLinesMirrors(r, Progress(t, ProgramIdOf(t.files, path)), location, path, lines[..k], lines[k..]);
    IngestWhenReading(r, t, path, size, content);
    var row := IndexedFile(p.programId, size, CompleteLength(content), |lines|, Indexed);
    MirrorsIgnoresFiles(r, p.tables, location, path, p.programId, lines, path, row);
  }

  /** The tables a pass leaves alone when it does not read: only the row of `path` can change, to a fresh
    * duplicate or to a failure. */
  lemma {:induction false} PassReturnsEarly(r: Reader, t: Tables, path: Path, size: nat, content: Bytes)
    requires !Reads(r, t, path, size)
    ensures var t' := IngestFile(r, t, path, size, content);
      || t' == t
      || (path !in t.files && t' == WriteRow(t, path, IndexedFile(None, size, 0, 0, Duplicate)))
      || (path in t.files && t.files[path].status == Indexed && size < t.files[path].indexedOffset
          && t' == WriteRow(t, path, t.files[path].(sizeBytes := size, status := Failed)))
    ensures r.locate(path).Some? && path !in t.files ==>
      IngestFile(r, t, path, size, content) == WriteRow(t, path, IndexedFile(None, size, 0, 0, Duplicate))
    ensures r.locate(path).Some? && path in t.files && t.files[path].status == Indexed && size < t.files[path].indexedOffset ==>
      IngestFile(r, t, path, size, content) == WriteRow(t, path, t.files[path].(sizeBytes := size, status := Failed))
  {
    hide IngestTail;
  }

  // ---------------------------------------------------------------- many paths, some of which fail

  /** An attempt of a located path leaves it a row, if it is committed. */
  lemma {:induction false} PassLeavesRow(r: Reader, t: Tables, path: Path, size: nat, content: Bytes)
    requires Consistent(r, t) && r.locate(path).Some?
    ensures path in IngestFile(r, t, path, size, content).files
  {
    hide ApplyLines, LosesCollision, Consistent, CompleteLines, Unlines;
  }

  /** Failed attempts stop nothing and leave nothing behind: every path whose attempt is committed gets its row, even
    * when others fail, and a path of which no attempt is committed keeps its row and program, or is superseded. */
  lemma {:induction false} AttemptsStandAlone(r: Reader, t: Tables, attempts: seq<S.Attempt>, path: Path)
    requires Consistent(r, t)
    ensures var t' := S.IngestAll(r, t, attempts);
      && Consistent(r, t')
      && (path in t.files ==> path in t'.files)
      && (forall k :: 0 <= k < |attempts| && attempts[k].path == path && attempts[k].committed && r.locate(path).Some? ==>
            path in t'.files)
      && ((forall k :: 0 <= k < |attempts| && attempts[k].path == path ==> !attempts[k].committed) ==> FrameAt(t, t', path))
  {
    hide Consistent, IngestFile, FrameAt;
    if attempts != [] {
      var (init, last) := (attempts[..|attempts| - 1], attempts[|attempts| - 1]);
      AttemptsStandAlone(r, t, init, path);
      var before := S.IngestAll(r, t, init);
      assert forall k :: 0 <= k < |init| ==> init[k] == attempts[k];
      if last.committed {
        IngestFileKeeps(r, before, last.path, last.size, last.content);
        if last.path == path {
          RowStays(r, before, path, last.size, last.content);
        } else {
          assert FrameAt(before, IngestFile(r, before, last.path, last.size, last.content), path);
          FramesCompose(t, before, IngestFile(r, before, last.path, last.size, last.content), path);
        }
      }
    } else {
      FrameItself(r, t, path);
    }
  }

  lemma {:induction false} RowStays(r: Reader, t: Tables, path: Path, size: nat, content: Bytes)
    requires Consistent(r, t)
    ensures path in t.files || r.locate(path).Some? ==> path in IngestFile(r, t, path, size, content).files
  {
    hide IngestTail, Consistent;
    if r.locate(path).Some? {
      PassLeavesRow(r, t, path, size, content);
    }
  }

  lemma {:induction false} FrameItself(r: Reader, t: Tables, path: Path)
    requires Consistent(r, t)
    ensures FrameAt(t, t, path)
  {
    assert ProgramIdOf(t.files, path) == Lookup(t.byPath, path);
  }

  lemma {:induction false} FramesCompose(t0: Tables, t1: Tables, t2: Tables, path: Path)
    requires FrameAt(t1, t2, path)
    ensures path in t1.files ==> path in t2.files
    ensures FrameAt(t0, t1, path) ==> FrameAt(t0, t2, path)
  {
  }

  /** What was read of another file stays read. */
  lemma {:induction false} FrameKeepsReads(r: Reader, t: Tables, t': Tables, path: Path, q: Path, content: Bytes)
    requires Frame(t, t', path) && q != path
    requires ReadUpTo(r, t, q, content)
    ensures ReadUpTo(r, t', q, content)
  {
    hide LastEit, CaptionRows, CompleteLines, Unlines;
    assert FrameAt(t, t', q);
  }

  /** Appending to a file keeps what was read of it. */
  lemma {:induction false} AppendKeepsReads(r: Reader, t: Tables, path: Path, content: Bytes, longer: Bytes)
    requires ReadUpTo(r, t, path, content) && content <= longer
    ensures ReadUpTo(r, t, path, longer)
  {
    hide Mirrors, CompleteLines, Unlines;
    CompleteLinesGrow(content, longer);
    if path in t.files && t.files[path].indexedLines <= |CompleteLines(content)| {
      var k := t.files[path].indexedLines;
      assert CompleteLines(longer)[..k] == CompleteLines(content)[..k];
    }
  }

  // ---------------------------------------------------------------- who owns the key

  /** The lines a pass adds to what was read before. */
  function NewLines(t: Tables, path: Path, content: Bytes): seq<Bytes> {
    CompleteLines(TailFrom(content, OffsetBefore(t, path)))
  }

  /** A pass makes its path the owner of its key exactly when it reads an EIT present record. */
  lemma {:induction false} PassOwner(r: Reader, t: Tables, path: Path, size: nat, content: Bytes, key: Key)
    requires Consistent(r, t)
    ensures OwnerPath(IngestFile(r, t, path, size, content), key) ==
      if Reads(r, t, path, size) && LastEit(r, NewLines(t, path, content)).Some? && key == KeyOf(r.locate(path).value)
      then Some(path) else OwnerPath(t, key)
  {
    hide Consistent, Working, ApplyLines, CompleteLines, Unlines;
    if Reads(r, t, path, size) {
      StartsWorking(r, t, path);
      ApplyLinesOwner(r, Progress(t, ProgramIdOf(t.files, path)), r.locate(path).value, path,
        LinesBefore(t, path), OffsetBefore(t, path), NewLines(t, path, content), key);
    } else {
      PassReturnsEarly(r, t, path, size, content);
    }
  }
}
