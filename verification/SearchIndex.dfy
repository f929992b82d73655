/** The indexer's connection to the search database: the ingest code as it runs, statement by statement
  * (src/search_db/ingest.rs). Every method is proved against the table functions of SearchTables. */
module SearchIndex {
  import opened Lines
  import opened SearchContent
  import opened TextOrder
  import opened SearchTables
  import opened Wrappers
  import T = SearchTables

  /** One path of a pass. An attempt that is not committed stands for any error between the start of its
    * transaction and the commit. */
  datatype Attempt = Attempt(path: Path, size: nat, content: Bytes, committed: bool)

  ghost function IngestAll(r: Reader, t: Tables, attempts: seq<Attempt>): Tables {
    if attempts == [] then t
    else
      var before := IngestAll(r, t, attempts[..|attempts| - 1]);
      var last := attempts[|attempts| - 1];
      if last.committed then T.IngestFile(r, before, last.path, last.size, last.content) else before
  }

  /** The path of the first attempt that was not committed, if there is one. */
  ghost predicate IsFirstFailure(attempts: seq<Attempt>, failure: Option<Path>) {
    if failure.None? then forall k :: 0 <= k < |attempts| ==> attempts[k].committed
    else exists k :: FailsFirstAt(attempts, k) && attempts[k].path == failure.value
  }

  ghost predicate FailsFirstAt(attempts: seq<Attempt>, k: int) {
    0 <= k < |attempts| && !attempts[k].committed && forall j :: 0 <= j < k ==> attempts[j].committed
  }

  lemma {:induction false} NoFailure()
    ensures forall attempts: seq<Attempt> :: IsFirstFailure(attempts[..0], None)
  {
  }

  lemma {:induction false} NextFailure(attempts: seq<Attempt>, failure: Option<Path>)
    requires attempts != [] && IsFirstFailure(attempts[..|attempts| - 1], failure)
    ensures var last := attempts[|attempts| - 1];
      IsFirstFailure(attempts, if failure.None? && !last.committed then Some(last.path) else failure)
  {
    var (n, last) := (|attempts| - 1, attempts[|attempts| - 1]);
    if failure.Some? {
      var k :| FailsFirstAt(attempts[..n], k) && attempts[..n][k].path == failure.value;
      assert forall j :: 0 <= j < k ==> attempts[..n][j] == attempts[j];
      assert FailsFirstAt(attempts, k);
    } else {
      assert forall j :: 0 <= j < n ==> attempts[..n][j] == attempts[j];
      assert !last.committed ==> FailsFirstAt(attempts, n);
    }
  }

  ghost function KnownPaths(t: Tables): set<Path> {
    t.byPath.Keys + t.files.Keys
  }

  class SearchIndex {
    const reader: Reader
    const content: ContentTables
    var byPath: map<Path, nat>
    var byKey: map<Key, nat>
    var genres: map<nat, set<Genre>>
    var files: map<Path, IndexedFile>

    ghost function Db(): Tables
      reads this, content
    {
      Tables(content.programs, byPath, byKey, genres, content.captions, files)
    }

    /** The full-text indexes are in step with the tables. */
    ghost predicate Valid()
      reads this, content, content.captionFts, content.programFts
    {
      content.Valid()
    }

    constructor (reader: Reader)
      ensures this.reader == reader && Db() == EMPTY && Valid()
      ensures fresh(content) && fresh(content.captionFts) && fresh(content.programFts)
    {
      this.reader := reader;
      content := new ContentTables();
      byPath, byKey, genres, files := map[], map[], map[], map[];
    }

    method ReplaceGenres(id: nat, list: seq<Genre>)
      modifies this`genres
      ensures genres == old(genres)[id := GenreSet(list)]
    {
      genres := genres[id := {}];
      assert GenreSet(list[..0]) == {};
      for i := 0 to |list|
        invariant genres == old(genres)[id := GenreSet(list[..i])]
      {
        assert GenreSet(list[..i + 1]) == GenreSet(list[..i]) + {list[i]};
        genres := genres[id := genres[id] + {list[i]}];
      }
      assert list[..|list|] == list;
    }

    /** Deletes the captions of a key's previous holder and marks its path as a duplicate. */
    method SupersedeOtherPath(key: Key, path: Path)
      requires Valid()
      modifies this`files, content, content.captionFts
      ensures Valid() && Db() == T.SupersedeOtherPath(old(Db()), key, path)
    {
      hide DemoteToDuplicate, IsInStep;
      if key in byKey && byKey[key] in content.programs && content.programs[byKey[key]].path != path {
        content.DeleteCaptionsOf({byKey[key]});
        files := DemoteToDuplicate(files, content.programs[byKey[key]].path);
      }
    }

    method WriteProgram(location: Location, path: Path, metadata: Metadata) returns (id: nat)
      requires Valid()
      modifies this`byPath, this`byKey, content, content.programFts
      ensures Valid() && (Db(), id) == T.WriteProgram(reader, old(Db()), location, path, metadata)
    {
      hide ProgramRow, IsInStep;
      var key := KeyOf(location);
      if path in byPath && byPath[path] in content.programs {
        id := byPath[path];
        content.PutProgram(id, ProgramRow(reader, content.programs[id].location, path, metadata));
      } else if key in byKey && byKey[key] in content.programs {
        id := byKey[key];
        byPath := (byPath - {content.programs[id].path})[path := id];
        content.PutProgram(id, ProgramRow(reader, location, path, metadata));
      } else {
        id := AllocateRowid(content.programs.Keys);
        content.PutProgram(id, ProgramRow(reader, location, path, metadata));
        byPath, byKey := byPath[path := id], byKey[key := id];
      }
    }

    method UpsertProgram(location: Location, path: Path, eit: Eit) returns (id: nat)
      requires Valid()
      modifies this, content, content.captionFts, content.programFts
      ensures Valid() && Progress(Db(), Some(id)) == T.UpsertProgram(reader, old(Db()), location, path, eit)
    {
      hide T.SupersedeOtherPath, T.WriteProgram, GenreSet, IsInStep;
      SupersedeOtherPath(KeyOf(location), path);
      id := WriteProgram(location, path, eit.metadata);
      ReplaceGenres(id, eit.genres);
    }

    method InsertCaption(id: nat, lineNo: nat, byteOffset: nat, caption: Caption)
      requires Valid()
      modifies content, content.captionFts
      ensures Valid() && Db() == InsertCaptionLine(reader, old(Db()), id, lineNo, byteOffset, caption)
    {
      hide IsInStep;
      content.UpsertCaption(id, lineNo, CaptionLine(byteOffset, caption, reader.indexText(caption.text)));
    }

    /** Applies one complete line; `programId` is the program known so far. */
    method IngestLine(location: Location, path: Path, programId: Option<nat>, lineNo: nat, start: nat, line: Bytes)
      returns (known: Option<nat>)
      requires Valid()
      modifies this, content, content.captionFts, content.programFts
      ensures Valid()
      ensures Progress(Db(), known) == ApplyLine(reader, Progress(old(Db()), programId), location, path, lineNo, start, line)
    {
      hide IsInStep;
      known := programId;
      match RecordOf(reader, line)
      case EitPresent(eit) =>
        var id := UpsertProgram(location, path, eit);
        known := Some(id);
      case CaptionRecord(caption) =>
        if known.Some? {
          InsertCaption(known.value, lineNo, start, caption);
        }
      case Other =>
    }

    /** Reads on from byte `offset` and line `lineNo`, stopping before an unterminated last line. */
    method IngestLines(location: Location, path: Path, programId: Option<nat>, lineNo: nat, offset: nat, buf: Bytes)
      returns (known: Option<nat>, pos: nat, lines: nat)
      requires Valid()
      modifies this, content, content.captionFts, content.programFts
      ensures Valid()
      ensures Progress(Db(), known) ==
        ApplyLines(reader, Progress(old(Db()), programId), location, path, lineNo, offset, CompleteLines(buf))
      ensures pos == offset + CompleteLength(buf) && lines == lineNo + |CompleteLines(buf)|
    {
      hide ApplyLine, ApplyLines, Unlines, CompleteLines, CompleteLength, IsInStep;
      known, pos, lines := programId, offset, lineNo;
      var rest := buf;
      ghost var done: seq<Bytes> := [];
      ghost var start := Progress(Db(), programId);
      NothingApplied(reader, start, location, path, lineNo, offset, buf);
      var end := FindNewline(rest);
      while end < |rest|
        invariant end == FindNewline(rest)
        invariant CompleteLines(buf) == done + CompleteLines(rest)
        invariant pos == offset + |Unlines(done)| && lines == lineNo + |done|
        invariant Valid()
        invariant Progress(Db(), known) == ApplyLines(reader, start, location, path, lineNo, offset, done)
        decreases |rest|
      {
        var line := rest[..end];
        FirstLineSplits(rest);
        AppliedNext(reader, start, location, path, lineNo, offset, done, line);
        lines := lines + 1;
        known := IngestLine(location, path, known, lines, pos, line);
        pos := pos + end + 1;
        done := done + [line];
        rest := rest[end + 1..];
        end := FindNewline(rest);
      }
      FirstLineSplits(rest);
      AllApplied(buf, done);
    }

    predicate Loses(location: Location, path: Path)
      reads this, content
      ensures Loses(location, path) == LosesCollision(Db(), location, path)
    {
      var key := KeyOf(location);
      key in byKey && byKey[key] in content.programs && TextLess(path, content.programs[byKey[key]].path)
    }

    method IngestFile(path: Path, size: nat, content: Bytes)
      requires Valid()
      modifies this, this.content, this.content.captionFts, this.content.programFts
      ensures Valid() && Db() == T.IngestFile(reader, old(Db()), path, size, content)
    {
      hide ApplyLines, CompleteLines, Unlines, TailFrom, TextLess, IsInStep;
      var located := reader.locate(path);
      if located.None? {
        return;
      }
      if path in files && files[path].status != Indexed {
        return;
      }
      if path !in files && Loses(located.value, path) {
        files := files[path := IndexedFile(None, size, 0, 0, Duplicate)];
        return;
      }
      if path in files && size < files[path].indexedOffset {
        files := files[path := files[path].(sizeBytes := size, status := Failed)];
        return;
      }
      if path in files && size == files[path].indexedOffset {
        return;
      }
      var row := if path in files then files[path] else IndexedFile(None, 0, 0, 0, Indexed);
      var programId, pos, lineNo := IngestLines(
        located.value, path, row.programId, row.indexedLines, row.indexedOffset, TailFrom(content, row.indexedOffset));
      files := files[path := IndexedFile(programId, size, pos, lineNo, Indexed)];
    }

    /** Attempts every path in its own transaction and reports the first that failed. */
    method IngestPaths(attempts: seq<Attempt>) returns (firstError: Option<Path>)
      requires Valid()
      modifies this, content, content.captionFts, content.programFts
      ensures Valid() && Db() == IngestAll(reader, old(Db()), attempts)
      ensures IsFirstFailure(attempts, firstError)
    {
      hide IsInStep, IsFirstFailure;
      NoFailure();
      firstError := None;
      for k := 0 to |attempts|
        invariant Valid() && Db() == IngestAll(reader, old(Db()), attempts[..k])
        invariant IsFirstFailure(attempts[..k], firstError)
      {
        assert attempts[..k + 1][..k] == attempts[..k];
        NextFailure(attempts[..k + 1], firstError);
        var attempt := attempts[k];
        var saved, byPath0, byKey0, genres0, files0 := content.Value(), byPath, byKey, genres, files;
        IngestFile(attempt.path, attempt.size, attempt.content);
        if !attempt.committed {
          content.Restore(saved);
          byPath, byKey, genres, files := byPath0, byKey0, genres0, files0;
          if firstError.None? {
            firstError := Some(attempt.path);
          }
        }
      }
      assert attempts[..|attempts|] == attempts;
    }

    method DeleteIndexedPath(path: Path)
      requires Valid()
      modifies this, content, content.captionFts, content.programFts
      ensures Valid() && Db() == DeletePath(old(Db()), path)
    {
      hide IsInStep;
      if path in byPath && byPath[path] in content.programs {
        var id := byPath[path];
        byKey := byKey - {KeyOf(content.programs[id].location)};
        byPath := byPath - {path};
        content.DeletePrograms({id});
        genres := genres - {id};
        files := map q | q in files && q != path :: Unreferenced(files[q], {id});
      } else {
        files := files - {path};
      }
    }

    /** Removes the rows of every known path that is no longer present. */
    method CleanupDeleted(present: set<Path>) returns (removed: nat)
      requires Valid() && IndexesMatch(content.programs, byPath, byKey)
      modifies this, content, content.captionFts, content.programFts
      ensures Valid() && Db() == Cleanup(old(Db()), present)
      ensures removed == |KnownPaths(old(Db())) - present|
    {
      hide Cleanup, IndexesMatch, DeletePath, Sorted, IsInStep;
      ghost var before := Db();
      var paths := byPath.Keys + files.Keys;
      ghost var kept, gone := paths, {};
      removed := 0;
      CleanupNothing(before);
      SortingStarts(paths, present);
      while paths != {}
        invariant Sorted(KnownPaths(before), present, paths, kept, gone)
        invariant Valid() && Db() == Cleanup(before, kept)
        invariant removed == |gone|
        decreases paths
      {
        var path :| path in paths;
        SortedNext(KnownPaths(before), present, paths, kept, gone, path);
        if path !in present {
          CleanupOneMore(before, kept, path);
          DeleteIndexedPath(path);
          kept, gone := kept - {path}, gone + {path};
          removed := removed + 1;
        }
        paths := paths - {path};
      }
      SortedAll(KnownPaths(before), present, kept, gone);
      CleanupOnlyKnown(before, present);
    }
  }

  /** While `paths` are still to be looked at, `kept` and `gone` are the known paths kept and removed. */
  ghost predicate Sorted(known: set<Path>, present: set<Path>, paths: set<Path>, kept: set<Path>, gone: set<Path>) {
    paths <= kept && kept - paths <= present && gone !! present && gone !! kept && gone + kept == known
  }

  lemma {:induction false} SortingStarts(known: set<Path>, present: set<Path>)
    ensures Sorted(known, present, known, known, {})
  {
  }

  lemma {:induction false} SortedNext(
      known: set<Path>, present: set<Path>, paths: set<Path>, kept: set<Path>, gone: set<Path>, path: Path)
    requires Sorted(known, present, paths, kept, gone) && path in paths
    ensures path in kept && path !in gone
    ensures if path in present then Sorted(known, present, paths - {path}, kept, gone)
            else Sorted(known, present, paths - {path}, kept - {path}, gone + {path})
  {
  }

  lemma {:induction false} SortedAll(known: set<Path>, present: set<Path>, kept: set<Path>, gone: set<Path>)
    requires Sorted(known, present, {}, kept, gone)
    ensures gone == known - present && kept == present * known
  {
  }

  lemma {:induction false} CleanupNothing(t: Tables)
    requires IndexesMatch(t.programs, t.byPath, t.byKey)
    ensures Cleanup(t, KnownPaths(t)) == t
  {
    hide IndexesMatch;
    assert Gone(t.programs, KnownPaths(t)) == {} by {
      ProgramsKnown(t);
    }
    assert Without(t.byPath, {}) == t.byPath && Without(t.byKey, {}) == t.byKey;
    assert KeptFiles(t.files, KnownPaths(t), {}) == t.files;
    assert t.programs - {} == t.programs && t.genres - {} == t.genres && t.captions - {} == t.captions;
  }

  lemma {:induction false} ProgramsKnown(t: Tables)
    requires IndexesMatch(t.programs, t.byPath, t.byKey)
    ensures forall id :: id in t.programs ==> t.programs[id].path in KnownPaths(t)
  {
  }

  lemma {:induction false} CleanupOnlyKnown(t: Tables, present: set<Path>)
    requires IndexesMatch(t.programs, t.byPath, t.byKey)
    ensures Cleanup(t, present * KnownPaths(t)) == Cleanup(t, present)
  {
    hide IndexesMatch;
    ProgramsKnown(t);
    var gone := Gone(t.programs, present);
    assert Gone(t.programs, present * KnownPaths(t)) == gone;
    assert KeptFiles(t.files, present * KnownPaths(t), gone) == KeptFiles(t.files, present, gone);
  }

  lemma {:induction false} DeleteOnePath(
      files: map<Path, IndexedFile>, keep: set<Path>, gone: set<nat>, path: Path, id: nat)
    ensures KeptFiles(files, keep - {path}, gone + {id}) ==
      (map q | q in KeptFiles(files, keep, gone) && q != path :: Unreferenced(KeptFiles(files, keep, gone)[q], {id}))
    ensures KeptFiles(files, keep - {path}, gone) == KeptFiles(files, keep, gone) - {path}
  {
  }

  lemma {:induction false} DeleteFromIndex<K>(index: map<K, nat>, gone: set<nat>, key: K, id: nat)
    requires key in index && forall k :: k in index && index[k] == id <==> k == key
    ensures Without(index, gone + {id}) == Without(index, gone) - {key}
  {
    forall k | k in index ensures k in Without(index, gone + {id}) <==> k in Without(index, gone) && k != key {
      assert index[k] == id <==> k == key;
    }
  }

  lemma {:induction false} DeleteFromIndexes(t: Tables, gone: set<nat>, path: Path)
    requires IndexesMatch(t.programs, t.byPath, t.byKey) && path in t.byPath && t.byPath[path] !in gone
    ensures var id := t.byPath[path];
      && Without(t.byPath, gone + {id}) == Without(t.byPath, gone) - {path}
      && Without(t.byKey, gone + {id}) == Without(t.byKey, gone) - {KeyOf(t.programs[id].location)}
  {
    hide Without;
    var id := t.byPath[path];
    assert Lookup(t.byKey, KeyOf(t.programs[id].location)) == Some(id);
    DeleteFromIndex(t.byPath, gone, path, id);
    DeleteFromIndex(t.byKey, gone, KeyOf(t.programs[id].location), id);
  }

  lemma {:induction false} GoneOneMore(t: Tables, keep: set<Path>, path: Path)
    requires IndexesMatch(t.programs, t.byPath, t.byKey) && path in keep
    ensures Gone(t.programs, keep - {path}) ==
      Gone(t.programs, keep) + if path in t.byPath then {t.byPath[path]} else {}
    ensures path in t.byPath ==> t.byPath[path] in t.programs && t.byPath[path] !in Gone(t.programs, keep)
  {
    forall id | id in t.programs ensures t.programs[id].path == path <==> path in t.byPath && id == t.byPath[path] {
      assert Lookup(t.byPath, t.programs[id].path) == Some(id);
    }
  }

  lemma {:induction false} CleanupOneMore(t: Tables, keep: set<Path>, path: Path)
    requires IndexesMatch(t.programs, t.byPath, t.byKey) && path in keep
    ensures DeletePath(Cleanup(t, keep), path) == Cleanup(t, keep - {path})
  {
    hide IndexesMatch, KeptFiles, Gone;
    var gone := Gone(t.programs, keep);
    GoneOneMore(t, keep, path);
    if path in t.byPath {
      var id := t.byPath[path];
      DeleteOnePath(t.files, keep, gone, path, id);
      DeleteFromIndexes(t, gone, path);
      assert t.programs - gone - {id} == t.programs - (gone + {id});
      assert t.genres - gone - {id} == t.genres - (gone + {id});
      assert t.captions - gone - {id} == t.captions - (gone + {id});
    } else {
      DeleteOnePath(t.files, keep, gone, path, 0);
      assert gone + {} == gone;
    }
  }

  lemma {:induction false} FirstLineSplits(rest: Bytes)
    ensures var end := FindNewline(rest);
      CompleteLines(rest) == if end < |rest| then [rest[..end]] + CompleteLines(rest[end + 1..]) else []
  {
  }

  lemma {:induction false} NothingApplied(
      r: Reader, p: Progress, location: Location, path: Path, lineNo: nat, offset: nat, buf: Bytes)
    ensures ApplyLines(r, p, location, path, lineNo, offset, []) == p
    ensures [] + CompleteLines(buf) == CompleteLines(buf) && Unlines([]) == []
  {
  }

  lemma {:induction false} AllApplied(buf: Bytes, done: seq<Bytes>)
    requires CompleteLines(buf) == done + []
    ensures CompleteLines(buf) == done && CompleteLength(buf) == |Unlines(done)|
  {
    assert done + [] == done;
  }

  lemma {:induction false} AppliedNext(
      r: Reader, p: Progress, location: Location, path: Path, lineNo: nat, offset: nat, done: seq<Bytes>, line: Bytes)
    ensures ApplyLines(r, p, location, path, lineNo, offset, done + [line]) ==
      ApplyLine(r, ApplyLines(r, p, location, path, lineNo, offset, done), location, path,
        lineNo + |done| + 1, offset + |Unlines(done)|, line)
    ensures |Unlines(done + [line])| == |Unlines(done)| + |line| + 1
  {
    hide ApplyLine;
    assert (done + [line])[..|done|] == done;
  }
}
