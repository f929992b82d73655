/** From upstream lines to what the index shows: the program of a recorded file is shown with exactly the caption
  * lines that were recorded into it (src/archive.rs, src/search_db/ingest.rs). */
module RecordedArchive {
  import opened Collisions
  import opened IndexInvariant
  import opened Lines
  import opened Rebuild
  import opened RebuildCases
  import opened Recording
  import opened RecordingRuns
  import opened ResumeExactness
  import opened SearchTables
  import opened SystemCases
  import opened TextOrder
  import opened Wrappers
  import M = Maintenance
  import W = WholeSystem

  /** A program is shown as a run's lines say: by their last EIT present record, and with every caption line under
    * its line number and start byte. */
  ghost predicate ShowsRun(r: Reader, view: ProgramView, path: Path, lines: seq<Bytes>) {
    && view.program.path == path
    && (exists i: nat ::
          && EitAt(r, lines, i) && (forall j: nat :: i < j ==> !EitAt(r, lines, j))
          && view.program.metadata == RecordOf(r, lines[i]).eit.metadata
          && forall g :: g in view.genres <==> g in RecordOf(r, lines[i]).eit.genres)
    && forall lineNo: nat :: ShowsLine(r, view.captions, lines, lineNo)
  }

  /** A line has a row exactly when it is a caption, and then that of its text, at its start byte. */
  ghost predicate ShowsLine(r: Reader, rows: map<nat, CaptionLine>, lines: seq<Bytes>, lineNo: nat) {
    && (lineNo in rows <==> lineNo >= 1 && CaptionAt(r, lines, lineNo - 1))
    && (lineNo in rows ==>
          var caption := RecordOf(r, lines[lineNo - 1]).caption;
          rows[lineNo] == CaptionLine(|Unlines(lines[..lineNo - 1])|, caption, r.indexText(caption.text)))
  }

  lemma {:induction false} EveryCaptionShown(r: Reader, lines: seq<Bytes>, lineNo: nat)
    requires EitAt(r, lines, 0)
    ensures ShowsLine(r, CaptionRows(r, lines), lines, lineNo)
  {
    hide CaptionRows;
    CaptionRowsExact(r, lines, lineNo);
    if lineNo >= 1 && CaptionAt(r, lines, lineNo - 1) {
      assert AfterEit(r, lines, lineNo - 1);
    }
  }

  lemma {:induction false} EitFirstViewShowsRun(r: Reader, path: Path, content: Bytes)
    requires r.locate(path).Some? && EitAt(r, CompleteLines(content), 0)
    ensures FileView(r, path, content).Some?
    ensures ShowsRun(r, FileView(r, path, content).value, path, CompleteLines(content))
  {
    hide CompleteLines, RecordOf, CaptionRows, LastEit, ShowsLine, EitAt;
    var lines := CompleteLines(content);
    LastEitExact(r, lines);
    forall lineNo: nat ensures ShowsLine(r, CaptionRows(r, lines), lines, lineNo) {
      EveryCaptionShown(r, lines, lineNo);
    }
  }

  /** Of the files that a key has, this one's path is the greatest. */
  ghost predicate IsGreatest(r: Reader, fs: map<Path, Bytes>, key: Key, path: Path) {
    && path in fs && Belongs(r, path, key)
    && forall q :: q in fs && Belongs(r, q, key) ==> q == path || TextLess(q, path)
  }

  /** For every interleaving of lines, failed writes and reconnections: where the index shows the archive, it shows
    * of a recorded file exactly the lines recorded into it, that is, those of the stream's run. */
  lemma {:induction false} IndexShowsTheRun(
      recorder: Recorder, r: Reader, start: Store, inputs: seq<Input>, stream: string, k: nat,
      t: Tables, fs: map<Path, Bytes>, key: Key)
    requires start.active == map[] && SameEits(recorder, r) && Orderly(recorder, inputs)
    requires k < |Started(recorder, start, inputs, stream)|
    requires var path := Started(recorder, start, inputs, stream)[k];
      IsGreatest(r, fs, key, path) && Lookup(After(recorder, start, inputs).files, path) == Some(fs[path])
    requires Shows(t, key) == ArchiveShows(r, fs, key)
    ensures k < |TrackOf(recorder, inputs, stream).runs| && Shows(t, key).Some?
    ensures var path := Started(recorder, start, inputs, stream)[k];
      ShowsRun(r, Shows(t, key).value, path, TrackOf(recorder, inputs, stream).runs[k].lines)
  {
    hide Shows, After, Started, TrackOf, CompleteLines, LastEit, FileView, RecordOf, Orderly, ShowsRun;
    var path := Started(recorder, start, inputs, stream)[k];
    RecordedFileReadsBack(recorder, r, start, inputs, stream, k, []);
    EitFirstViewShowsRun(r, path, fs[path]);
    LastEitExact(r, CompleteLines(fs[path]));
    assert Best(r, fs, key, path);
    forall q | Best(r, fs, key, q) ensures q == path {
      BestIsUnique(r, fs, key, path, q);
    }
  }

  /** The reader finds in a recorded path what the recorder has put there: the stream, as directories name it, and the
    * time of the line that started the file, as filenames name it. */
  ghost predicate ReadsNamesBack(
      recorder: Recorder, r: Reader, streamName: string -> string, startName: int -> string)
  {
    forall stream, now, title, n: nat ::
      var located := r.locate(ArchivePath(recorder.directory(stream, now), recorder.stem(now, title), n));
      located.Some? && located.value.stream == streamName(stream) && located.value.startedAt == startName(now)
  }

  function StartName(input: Input, startName: int -> string): string {
    if input.Line? then startName(input.now) else ""
  }

  /** A recorded file is indexed under its own stream and the time its first line arrived. */
  lemma {:induction false} RecordedUnder(
      recorder: Recorder, r: Reader, start: Store, inputs: seq<Input>, stream: string, k: nat,
      streamName: string -> string, startName: int -> string)
    requires start.active == map[] && Orderly(recorder, inputs) && ReadsNamesBack(recorder, r, streamName, startName)
    requires k < |Started(recorder, start, inputs, stream)|
    ensures |Starters(recorder, start, inputs, stream)| == |Started(recorder, start, inputs, stream)|
    ensures k < |TrackOf(recorder, inputs, stream).runs| && TrackOf(recorder, inputs, stream).runs[k].lines != []
    ensures var starter := Starters(recorder, start, inputs, stream)[k];
      && starter in inputs && starter.Line? && starter.stream == stream
      && starter.line == TrackOf(recorder, inputs, stream).runs[k].lines[0]
      && Belongs(r, Started(recorder, start, inputs, stream)[k], Key(streamName(stream), startName(starter.now)))
  {
    hide Started, Starters, TrackOf, Orderly, ReadsNamesBack, ArchivePath;
    FilesLieWhereStarted(recorder, start, inputs, stream);
    var starter := Starters(recorder, start, inputs, stream)[k];
    var title := recorder.parse(starter.line).title;
    var n: nat :| Started(recorder, start, inputs, stream)[k]
      == ArchivePath(recorder.directory(stream, starter.now), recorder.stem(starter.now, title), n);
    NameReadBack(recorder, r, streamName, startName, stream, starter.now, title, n);
  }

  lemma {:induction false} NameReadBack(
      recorder: Recorder, r: Reader, streamName: string -> string, startName: int -> string,
      stream: string, now: int, title: string, n: nat)
    requires ReadsNamesBack(recorder, r, streamName, startName)
    ensures Belongs(r, ArchivePath(recorder.directory(stream, now), recorder.stem(now, title), n),
      Key(streamName(stream), startName(now)))
  {
  }

  lemma {:induction false} WholeStaysWithin(
      c: W.Setting, states: seq<W.Whole>, actions: seq<W.Action>, n: nat, paths: set<Path>)
    requires W.Suits(c) && W.Runs(c, states, actions) && W.Begins(c, states[0]) && n < |states|
    requires Within(M.Archive(states[0].index), paths)
    requires W.IndexerOnly(c, states, actions, n, (x: M.System, a: M.Action) => a.Open? ==> a.path in paths)
    ensures Within(M.Archive(states[n].index), paths)
  {
    hide W.Suits, W.Runs, W.Begins, W.IndexerOnly, Within, SystemRun;
    var within := (x: M.System, a: M.Action) => a.Open? ==> a.path in paths;
    var systems, steps := W.IndexerRun(c, states, actions, n, within);
    RunShape(c.reader, systems, steps);
    assert OpensWithin(steps, paths) by {
      assert forall i :: 0 <= i < |steps| ==> within(systems[i], steps[i]);
    }
    SystemStaysWithin(c.reader, systems, steps, |steps|, paths);
  }

  /** The whole system, garbage collection included: at rest, its index shows of every recorded file still present
    * whose key no other file has exactly the lines recorded into it. */
  lemma {:induction false} WholeSystemShowsTheRun(
      c: W.Setting, states: seq<W.Whole>, actions: seq<W.Action>, n: nat, paths: set<Path>, order: seq<Path>,
      key: Key, recorder: Recorder, start: Store, inputs: seq<Input>, stream: string, k: nat,
      streamName: string -> string, startName: int -> string)
    requires W.Suits(c) && W.Runs(c, states, actions) && W.Begins(c, states[0]) && n < |states|
    requires Within(M.Archive(states[0].index), paths) && Uncontested(c.reader, paths, key)
    requires W.IndexerOnly(c, states, actions, n, (x: M.System, a: M.Action) => a.Open? ==> a.path in paths)
    requires Faithful(c.reader, M.Archive(states[0].index), key) && M.Quiescent(states[n].index)
    requires forall path :: path in order <==> path in states[n].index.fs
    requires start.active == map[] && SameEits(recorder, c.reader) && Orderly(recorder, inputs)
    requires k < |Started(recorder, start, inputs, stream)|
    requires ReadsNamesBack(recorder, c.reader, streamName, startName)
    requires k < |Starters(recorder, start, inputs, stream)|
    requires key == Key(streamName(stream), StartName(Starters(recorder, start, inputs, stream)[k], startName))
    requires var (path, fs) := (Started(recorder, start, inputs, stream)[k], states[n].index.fs);
      path in fs && Lookup(After(recorder, start, inputs).files, path) == Some(fs[path])
    ensures var (path, t) := (Started(recorder, start, inputs, stream)[k], states[n].index.tables);
      && k < |TrackOf(recorder, inputs, stream).runs| && Shows(t, key).Some?
      && ShowsRun(c.reader, Shows(t, key).value, path, TrackOf(recorder, inputs, stream).runs[k].lines)
  {
    hide W.Suits, W.Runs, W.Begins, W.IndexerOnly, Faithful, M.Quiescent, Shows, Rebuilt, After, Started, TrackOf,
      Orderly, ShowsRun, SameEits, ArchiveShows;
    var fs := states[n].index.fs;
    W.CollisionFreeWholeEqualsRebuild(c, states, actions, n, paths, order, key);
    RebuildShowsArchive(c.reader, fs, order, key);
    WholeStaysWithin(c, states, actions, n, paths);
    RecordedUnder(recorder, c.reader, start, inputs, stream, k, streamName, startName);
    IndexShowsTheRun(recorder, c.reader, start, inputs, stream, k, states[n].index.tables, fs, key);
  }
}
