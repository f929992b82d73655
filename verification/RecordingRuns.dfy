/** What the archive files hold after any interleaving of upstream lines, failed writes and reconnections: each
  * stream's files, in start order, are its recorded lines cut where the program changes. */
module RecordingRuns {
  import opened IndexInvariant
  import opened Lines
  import opened TextOrder
  import opened Recording
  import opened SearchTables
  import opened Wrappers

  datatype Input = Line(stream: string, line: Bytes, now: int, io: Io) | Deactivate(stream: string)

  ghost function Input1(r: Recorder, s: Store, input: Input): (Store, Reply) {
    match input
    case Line(stream, line, now, io) => Handled(r, s, stream, line, now, io)
    case Deactivate(stream) => (s.(active := s.active - {stream}), Ok(None))
  }

  ghost function After(r: Recorder, start: Store, inputs: seq<Input>): Store {
    if inputs == [] then start
    else Input1(r, After(r, start, inputs[..|inputs| - 1]), inputs[|inputs| - 1]).0
  }

  /** What is reported for the last input. */
  ghost function Reported(r: Recorder, start: Store, inputs: seq<Input>): Reply
    requires inputs != []
  {
    Input1(r, After(r, start, inputs[..|inputs| - 1]), inputs[|inputs| - 1]).1
  }

  predicate StartsFile(reply: Reply) {
    reply.Ok? && reply.value.Some? && reply.value.value.ProgramStarted?
  }

  /** The files a stream has started, in order. */
  ghost function Started(r: Recorder, start: Store, inputs: seq<Input>, stream: string): seq<Path> {
    if inputs == [] then []
    else
      var before := Started(r, start, inputs[..|inputs| - 1], stream);
      var reply := Reported(r, start, inputs);
      if inputs[|inputs| - 1].stream == stream && StartsFile(reply) then before + [reply.value.value.path] else before
  }

  // ---------------------------------------------------------------- the specification, from the inputs alone

  /** Recorded lines of one program, and what arrived of a line that could not be written. */
  datatype Run = Run(lines: seq<Bytes>, tail: Bytes)

  /** A stream's runs, the program being recorded, and whether the stream waits for its reconnection after a line
    * that could not be written. */
  datatype Track = Track(runs: seq<Run>, current: Option<ProgramKey>, failed: bool)

  function Extended(run: Run, line: Bytes, io: Io): Run {
    if io.Works? then run.(lines := run.lines + [line]) else run.(tail := run.tail + Arrives(line, io))
  }

  function ExtendLast(t: Track, line: Bytes, io: Io): Track {
    if t.runs == [] then t
    else
      var n := |t.runs| - 1;
      t.(runs := t.runs[n := Extended(t.runs[n], line, io)], failed := !io.Works?)
  }

  function TrackLine(r: Recorder, t: Track, line: Bytes, io: Io): Track {
    match r.parse(line)
    case InvalidJson => t
    case OtherJson => if t.current.Some? then ExtendLast(t, line, io) else t
    case PresentEit(program, _) =>
      if t.current == Some(program) then ExtendLast(t, line, io)
      else if io.Works? then Track(t.runs + [Run([line], [])], Some(program), false)
      else t.(failed := true)
  }

  function TrackInput(r: Recorder, t: Track, input: Input, stream: string): Track {
    if input.stream != stream then t
    else if input.Deactivate? then Track(t.runs, None, false)
    else TrackLine(r, t, input.line, input.io)
  }

  function TrackOf(r: Recorder, inputs: seq<Input>, stream: string): Track {
    if inputs == [] then Track([], None, false)
    else TrackInput(r, TrackOf(r, inputs[..|inputs| - 1], stream), inputs[|inputs| - 1], stream)
  }

  /** Lines hold no newline, and a stream whose line could not be written reconnects before its next line. */
  predicate Orderly(r: Recorder, inputs: seq<Input>) {
    inputs == [] ||
      var (init, last) := (inputs[..|inputs| - 1], inputs[|inputs| - 1]);
      Orderly(r, init) && (last.Line? ==> NEWLINE !in last.line && !TrackOf(r, init, last.stream).failed)
  }

  // ---------------------------------------------------------------- files follow the specification

  function RunBytes(run: Run): Bytes {
    Unlines(run.lines) + run.tail
  }

  /** A run's lines are whole, and only the last run can be continued, which has nothing after its lines. */
  ghost predicate WellFormed(track: Track) {
    && (forall i :: 0 <= i < |track.runs| ==> NewlineFree(track.runs[i].lines) && NEWLINE !in track.runs[i].tail)
    && (track.current.Some? ==> track.runs != [] && (track.failed || track.runs[|track.runs| - 1].tail == []))
  }

  ghost predicate FilesMatch(files: map<Path, Bytes>, paths: seq<Path>, runs: seq<Run>) {
    && |paths| == |runs|
    && forall i :: 0 <= i < |paths| ==> paths[i] in files && files[paths[i]] == RunBytes(runs[i])
  }

  ghost predicate ActiveMatches(s: Store, paths: seq<Path>, track: Track, stream: string) {
    if stream in s.active then
      paths != [] && track.current == Some(s.active[stream].program) && s.active[stream].path == paths[|paths| - 1]
    else track.current.None?
  }

  ghost predicate Distinct(paths: seq<Path>) {
    forall i, j :: 0 <= i < j < |paths| ==> paths[i] != paths[j]
  }

  ghost predicate Apart(a: seq<Path>, b: seq<Path>) {
    forall i, j :: 0 <= i < |a| && 0 <= j < |b| ==> a[i] != b[j]
  }

  ghost predicate StreamHolds(r: Recorder, start: Store, inputs: seq<Input>, stream: string) {
    var s, paths := After(r, start, inputs), Started(r, start, inputs, stream);
    && FilesMatch(s.files, paths, TrackOf(r, inputs, stream).runs)
    && ActiveMatches(s, paths, TrackOf(r, inputs, stream), stream)
    && Distinct(paths)
  }

  lemma {:induction false} LineKeepsStream(
      r: Recorder, s: Store, paths: seq<Path>, track: Track, stream: string, line: Bytes, now: int, io: Io)
    returns (paths': seq<Path>)
    requires FilesMatch(s.files, paths, track.runs) && ActiveMatches(s, paths, track, stream) && Distinct(paths)
    requires track.current.Some? ==> track.runs[|track.runs| - 1].tail == []
    ensures var (s', reply) := Handled(r, s, stream, line, now, io);
      var track' := TrackLine(r, track, line, io);
      && paths' == (if StartsFile(reply) then paths + [reply.value.value.path] else paths)
      && FilesMatch(s'.files, paths', track'.runs) && ActiveMatches(s', paths', track', stream) && Distinct(paths')
      && (StartsFile(reply) ==> reply.value.value.path !in s.files)
  {
    hide FreshPath, RunBytes, FilesMatch, Distinct, Arrives;
    var (s', reply) := Handled(r, s, stream, line, now, io);
    paths' := if StartsFile(reply) then paths + [reply.value.value.path] else paths;
    if stream in s.active {
      ExtendedRun(s, s.active[stream].path, paths, track, line, io);
    }
    if r.parse(line).PresentEit? {
      var path := FreshPath(s.files, r.directory(stream, now), r.stem(now, r.parse(line).title));
      StartedRun(s.files, path, paths, track.runs, line, io);
    }
  }

  /** A new file is a new run, or, if its line could not be written, none of the runs. */
  lemma {:induction false} StartedRun(
      files: map<Path, Bytes>, path: Path, paths: seq<Path>, runs: seq<Run>, line: Bytes, io: Io)
    requires FilesMatch(files, paths, runs) && Distinct(paths) && path !in files
    ensures var files' := Write(files, path, Arrives(line, io));
      && FilesMatch(files', paths, runs)
      && (io.Works? ==> Distinct(paths + [path]) && FilesMatch(files', paths + [path], runs + [Run([line], [])]))
  {
    hide Unlines;
    UnlinesOne(line);
    assert [] + Arrives(line, io) == Arrives(line, io) + [];
  }

  lemma {:induction false} ExtendedBytes(run: Run, line: Bytes, io: Io)
    requires run.tail == []
    ensures RunBytes(Extended(run, line, io)) == RunBytes(run) + Arrives(line, io)
  {
    if io.Works? {
      assert (run.lines + [line])[..|run.lines|] == run.lines;
    }
  }

  /** What arrives of a line extends the last run of its stream and leaves the stream's other files as they are. */
  lemma {:induction false} ExtendedRun(s: Store, path: Path, paths: seq<Path>, track: Track, line: Bytes, io: Io)
    requires FilesMatch(s.files, paths, track.runs) && Distinct(paths) && paths != [] && path == paths[|paths| - 1]
    requires track.runs[|track.runs| - 1].tail == []
    ensures FilesMatch(Appended(s, path, line, io).0.files, paths, ExtendLast(track, line, io).runs)
  {
    hide RunBytes, Arrives, Extended;
    ExtendedBytes(track.runs[|paths| - 1], line, io);
    var runs' := ExtendLast(track, line, io).runs;
    forall i | 0 <= i < |paths| - 1 ensures paths[i] != path && runs'[i] == track.runs[i] {
    }
  }

  ghost predicate AllHold(r: Recorder, start: Store, inputs: seq<Input>) {
    && (forall stream :: StreamHolds(r, start, inputs, stream))
    && (forall a, b :: a != b ==> Apart(Started(r, start, inputs, a), Started(r, start, inputs, b)))
  }

  ghost predicate Wrote(s: Store, s': Store, written: Option<Path>) {
    forall q :: q in s.files && written != Some(q) ==> q in s'.files && s'.files[q] == s.files[q]
  }

  /** One input writes at most one file: the stream's current one, or a new one. */
  lemma {:induction false} InputWrites(r: Recorder, s: Store, input: Input) returns (written: Option<Path>)
    ensures var (s', reply) := Input1(r, s, input);
      && Wrote(s, s', written)
      && (written.Some? ==>
            || written.value !in s.files
            || (input.stream in s.active && written.value == s.active[input.stream].path))
      && (StartsFile(reply) ==> written == Some(reply.value.value.path) && written.value !in s.files)
      && (forall stream :: stream != input.stream ==>
            (stream in s'.active <==> stream in s.active) && (stream in s.active ==> s'.active[stream] == s.active[stream]))
  {
    hide FreshPath;
    written := None;
    if input.Line? {
      var parsed := r.parse(input.line);
      if input.stream in s.active
        && (parsed.OtherJson? || (parsed.PresentEit? && s.active[input.stream].program == parsed.program))
      {
        written := Some(s.active[input.stream].path);
      } else if parsed.PresentEit? && !input.io.NoFile? {
        written := Some(FreshPath(s.files, r.directory(input.stream, input.now), r.stem(input.now, parsed.title)));
      }
    }
  }

  lemma {:induction false} OtherStreamKept(
      s: Store, s': Store, written: Option<Path>, paths: seq<Path>, track: Track, stream: string)
    requires FilesMatch(s.files, paths, track.runs) && ActiveMatches(s, paths, track, stream)
    requires Wrote(s, s', written) && (written.Some? ==> written.value !in paths)
    requires (stream in s'.active <==> stream in s.active) && (stream in s.active ==> s'.active[stream] == s.active[stream])
    ensures FilesMatch(s'.files, paths, track.runs) && ActiveMatches(s', paths, track, stream)
  {
    hide Unlines;
  }

  lemma {:induction false} TracksWellFormed(r: Recorder, inputs: seq<Input>, stream: string)
    requires Orderly(r, inputs)
    ensures WellFormed(TrackOf(r, inputs, stream))
  {
    if inputs != [] {
      TracksWellFormed(r, inputs[..|inputs| - 1], stream);
    }
  }

  lemma {:induction false} InputKeepsOwn(r: Recorder, start: Store, inputs: seq<Input>)
    requires inputs != [] && Orderly(r, inputs)
    requires StreamHolds(r, start, inputs[..|inputs| - 1], inputs[|inputs| - 1].stream)
    ensures StreamHolds(r, start, inputs, inputs[|inputs| - 1].stream)
    ensures var reply := Reported(r, start, inputs);
      StartsFile(reply) ==> reply.value.value.path !in After(r, start, inputs[..|inputs| - 1]).files
  {
    hide FilesMatch, Distinct, Handled, TrackLine;
    var init, input := inputs[..|inputs| - 1], inputs[|inputs| - 1];
    var stream := input.stream;
    var s, paths, track := After(r, start, init), Started(r, start, init, stream), TrackOf(r, init, stream);
    if input.Line? {
      TracksWellFormed(r, init, stream);
      var paths' := LineKeepsStream(r, s, paths, track, stream, input.line, input.now, input.io);
    } else {
      DeactivateKeeps(s, paths, track, stream);
    }
  }

  lemma {:induction false} DeactivateKeeps(s: Store, paths: seq<Path>, track: Track, stream: string)
    ensures ActiveMatches(s.(active := s.active - {stream}), paths, Track(track.runs, None, false), stream)
  {
  }

  lemma {:induction false} InputKeepsOther(r: Recorder, start: Store, inputs: seq<Input>, stream: string)
    requires inputs != [] && AllHold(r, start, inputs[..|inputs| - 1]) && stream != inputs[|inputs| - 1].stream
    ensures StreamHolds(r, start, inputs, stream)
  {
    hide FilesMatch, Distinct, TrackLine, Input1;
    var init, input := inputs[..|inputs| - 1], inputs[|inputs| - 1];
    var s, s' := After(r, start, init), After(r, start, inputs);
    var paths, own := Started(r, start, init, stream), Started(r, start, init, input.stream);
    var written := InputWrites(r, s, input);
    assert StreamHolds(r, start, init, stream) && StreamHolds(r, start, init, input.stream);
    PathsExist(r, start, init, stream);
    assert Apart(own, paths);
    if written.Some? && written.value in s.files {
      assert written.value == own[|own| - 1];
    }
    OtherStreamKept(s, s', written, paths, TrackOf(r, init, stream), stream);
  }

  lemma {:induction false} PathsExist(r: Recorder, start: Store, inputs: seq<Input>, stream: string)
    requires StreamHolds(r, start, inputs, stream)
    ensures forall path :: path in Started(r, start, inputs, stream) ==> path in After(r, start, inputs).files
  {
    hide Unlines;
  }

  lemma {:induction false} StartedOne(r: Recorder, start: Store, inputs: seq<Input>, stream: string)
    requires inputs != []
    ensures var before := Started(r, start, inputs[..|inputs| - 1], stream);
      || Started(r, start, inputs, stream) == before
      || (stream == inputs[|inputs| - 1].stream
          && StartsFile(Reported(r, start, inputs))
          && Started(r, start, inputs, stream) == before + [Reported(r, start, inputs).value.value.path])
  {
  }

  lemma {:induction false} StaysApart(r: Recorder, start: Store, inputs: seq<Input>, a: string, b: string)
    requires inputs != [] && Orderly(r, inputs) && AllHold(r, start, inputs[..|inputs| - 1]) && a != b
    ensures Apart(Started(r, start, inputs, a), Started(r, start, inputs, b))
  {
    hide FilesMatch, ActiveMatches, Distinct, TrackOf, Input1, Started, After, Reported;
    var init := inputs[..|inputs| - 1];
    StartedOne(r, start, inputs, a);
    StartedOne(r, start, inputs, b);
    assert StreamHolds(r, start, init, a) && StreamHolds(r, start, init, b);
    assert Apart(Started(r, start, init, a), Started(r, start, init, b));
    PathsExist(r, start, init, a);
    PathsExist(r, start, init, b);
    assert StreamHolds(r, start, init, inputs[|init|].stream);
    InputKeepsOwn(r, start, inputs);
  }

  /** For every interleaving of lines, failed writes and reconnections, each stream's files are exactly its runs, no
    * file belongs to two streams, and the active file is the last one started. */
  lemma {:induction false} FilesAreRuns(r: Recorder, start: Store, inputs: seq<Input>)
    requires start.active == map[] && Orderly(r, inputs)
    ensures AllHold(r, start, inputs)
  {
    hide Input1, TrackInput;
    if inputs == [] {
      forall stream ensures StreamHolds(r, start, inputs, stream) {
      }
    } else {
      hide StreamHolds, Apart, Started;
      FilesAreRuns(r, start, inputs[..|inputs| - 1]);
      forall stream ensures StreamHolds(r, start, inputs, stream) {
        if stream == inputs[|inputs| - 1].stream {
          InputKeepsOwn(r, start, inputs);
        } else {
          InputKeepsOther(r, start, inputs, stream);
        }
      }
      forall a, b | a != b ensures Apart(Started(r, start, inputs, a), Started(r, start, inputs, b)) {
        StaysApart(r, start, inputs, a, b);
      }
    }
  }

  /** Two streams are never recording into the same file. */
  lemma {:induction false} ActiveFilesDiffer(r: Recorder, start: Store, inputs: seq<Input>, a: string, b: string)
    requires start.active == map[] && Orderly(r, inputs) && a != b
    requires a in After(r, start, inputs).active && b in After(r, start, inputs).active
    ensures After(r, start, inputs).active[a].path != After(r, start, inputs).active[b].path
  {
    hide Input1, TrackOf, FilesMatch, Distinct, Started;
    FilesAreRuns(r, start, inputs);
    assert StreamHolds(r, start, inputs, a) && StreamHolds(r, start, inputs, b);
    assert Apart(Started(r, start, inputs, a), Started(r, start, inputs, b));
  }

  // ---------------------------------------------------------------- where the files lie

  /** A file lies in the directory of the stream and time of the line that started it, under that time and the title
    * of the line's program, and begins with that line. */
  ghost predicate StartedBy(r: Recorder, input: Input, stream: string, path: Path, run: Run) {
    && input.Line? && input.stream == stream && r.parse(input.line).PresentEit?
    && run.lines != [] && run.lines[0] == input.line
    && exists n: nat ::
      path == ArchivePath(r.directory(stream, input.now), r.stem(input.now, r.parse(input.line).title), n)
  }

  /** The lines that started a stream's files, in order. */
  ghost function Starters(r: Recorder, start: Store, inputs: seq<Input>, stream: string): seq<Input> {
    if inputs == [] then []
    else
      var (before, last) := (Starters(r, start, inputs[..|inputs| - 1], stream), inputs[|inputs| - 1]);
      if last.stream == stream && StartsFile(Reported(r, start, inputs)) then before + [last] else before
  }

  lemma {:induction false} StartsWhere(r: Recorder, s: Store, input: Input)
    requires StartsFile(Input1(r, s, input).1)
    ensures StartedBy(r, input, input.stream, Input1(r, s, input).1.value.value.path, Run([input.line], []))
    ensures input.io.Works?
  {
    var title := r.parse(input.line).title;
    var n := FreshPathFree(s.files, r.directory(input.stream, input.now), r.stem(input.now, title));
  }

  lemma {:induction false} FirstLineKept(r: Recorder, t: Track, line: Bytes, io: Io, k: nat)
    requires k < |t.runs| && t.runs[k].lines != []
    ensures var t' := TrackLine(r, t, line, io);
      k < |t'.runs| && t'.runs[k].lines != [] && t'.runs[k].lines[0] == t.runs[k].lines[0]
  {
  }

  /** A line starts a file exactly when its stream's track gets a new run, which begins with it. */
  lemma {:induction false} NewRunStarts(r: Recorder, s: Store, paths: seq<Path>, t: Track, input: Input)
    requires input.Line? && ActiveMatches(s, paths, t, input.stream)
    ensures var (reply, t') := (Input1(r, s, input).1, TrackLine(r, t, input.line, input.io));
      if StartsFile(reply) then t'.runs == t.runs + [Run([input.line], [])] else |t'.runs| == |t.runs|
  {
    hide FreshPath;
  }

  ghost predicate AllStartedBy(r: Recorder, starters: seq<Input>, stream: string, paths: seq<Path>, runs: seq<Run>) {
    && |starters| == |paths| == |runs|
    && forall k :: 0 <= k < |paths| ==> StartedBy(r, starters[k], stream, paths[k], runs[k])
  }

  /** Every file of a stream lies where the line that started it says. */
  lemma {:induction false} FilesLieWhereStarted(r: Recorder, start: Store, inputs: seq<Input>, stream: string)
    requires start.active == map[] && Orderly(r, inputs)
    ensures AllStartedBy(r, Starters(r, start, inputs, stream), stream, Started(r, start, inputs, stream),
      TrackOf(r, inputs, stream).runs)
    ensures forall input :: input in Starters(r, start, inputs, stream) ==> input in inputs
  {
    if inputs != [] {
      hide Input1, FilesMatch, ActiveMatches, Distinct, TrackLine, StartedBy;
      var (init, last) := (inputs[..|inputs| - 1], inputs[|inputs| - 1]);
      FilesLieWhereStarted(r, start, init, stream);
      if last.stream == stream && last.Line? {
        FilesAreRuns(r, start, init);
        assert StreamHolds(r, start, init, stream);
        var (s, paths, t) := (After(r, start, init), Started(r, start, init, stream), TrackOf(r, init, stream));
        NewRunStarts(r, s, paths, t, last);
        if StartsFile(Input1(r, s, last).1) {
          StartsWhere(r, s, last);
        } else {
          forall k | 0 <= k < |paths|
            ensures StartedBy(r, Starters(r, start, init, stream)[k], stream, paths[k], TrackOf(r, inputs, stream).runs[k])
          {
            RunsStartAlike(r, Starters(r, start, init, stream)[k], stream, paths[k], t, last.line, last.io, k);
          }
        }
      }
    }
  }

  lemma {:induction false} RunsStartAlike(
      r: Recorder, input: Input, stream: string, path: Path, t: Track, line: Bytes, io: Io, k: nat)
    requires k < |t.runs| && StartedBy(r, input, stream, path, t.runs[k])
    ensures var t' := TrackLine(r, t, line, io);
      k < |t'.runs| && StartedBy(r, input, stream, path, t'.runs[k])
  {
    FirstLineKept(r, t, line, io, k);
  }

  // ---------------------------------------------------------------- what is marked for the indexer

  /** The generation of a file counts its complete lines. */
  ghost predicate MarksCount(dirty: map<Path, nat>, paths: seq<Path>, runs: seq<Run>) {
    && |paths| == |runs|
    && forall k :: 0 <= k < |paths| ==> Lookup(dirty, paths[k]) == Some(|runs[k].lines| % 0x1_0000_0000_0000_0000)
  }

  /** The file that an input marks: the one a line was written to. */
  function MarkedBy(s: Store, input: Input, reply: Reply): Option<Path> {
    if StartsFile(reply) then Some(reply.value.value.path)
    else if input.Line? && reply == Ok(None) && input.stream in s.active then Some(s.active[input.stream].path)
    else None
  }

  lemma {:induction false} InputMarks(r: Recorder, s: Store, input: Input)
    ensures var ((s', reply), marked) := (Input1(r, s, input), MarkedBy(s, input, Input1(r, s, input).1));
      s'.dirty == if marked.Some? then MarkDirty(s.dirty, marked.value) else s.dirty
  {
    hide FreshPath, Arrives, Write, MarkDirty;
  }

  /** A run gets one more line exactly when an input that starts no file marks one. */
  lemma {:induction false} InputCounts(r: Recorder, s: Store, paths: seq<Path>, t: Track, input: Input, k: nat)
    requires ActiveMatches(s, paths, t, input.stream) && |paths| == |t.runs| && k < |t.runs|
    ensures var (reply, t') := (Input1(r, s, input).1, TrackInput(r, t, input, input.stream));
      var more := !StartsFile(reply) && MarkedBy(s, input, reply).Some? && k == |t.runs| - 1;
      && k < |t'.runs| && |t'.runs[k].lines| == |t.runs[k].lines| + (if more then 1 else 0)
      && (StartsFile(reply) ==> t'.runs == t.runs + [Run([input.line], [])])
      && (!StartsFile(reply) ==> |t'.runs| == |t.runs|)
  {
    hide FreshPath, Arrives, Write, MarkDirty;
  }

  lemma {:induction false} FirstRun(r: Recorder, s: Store, paths: seq<Path>, t: Track, input: Input)
    requires ActiveMatches(s, paths, t, input.stream) && |paths| == |t.runs|
    ensures var (reply, t') := (Input1(r, s, input).1, TrackInput(r, t, input, input.stream));
      && (StartsFile(reply) ==> t'.runs == t.runs + [Run([input.line], [])])
      && (!StartsFile(reply) ==>
            && |t'.runs| == |t.runs|
            && (MarkedBy(s, input, reply).Some? ==> paths != [] && MarkedBy(s, input, reply).value == paths[|paths| - 1]))
  {
    hide FreshPath, Arrives, Write, MarkDirty;
  }

  lemma {:induction false} MarkedOwn(dirty: map<Path, nat>, paths: seq<Path>, runs: seq<Run>, runs': seq<Run>)
    requires MarksCount(dirty, paths, runs) && Distinct(paths) && paths != [] && |runs'| == |runs|
    requires forall k :: 0 <= k < |runs| ==> |runs'[k].lines| == |runs[k].lines| + if k == |runs| - 1 then 1 else 0
    ensures MarksCount(MarkDirty(dirty, paths[|paths| - 1]), paths, runs')
  {
    var dirty' := MarkDirty(dirty, paths[|paths| - 1]);
    forall k | 0 <= k < |paths|
      ensures Lookup(dirty', paths[k]) == Some(|runs'[k].lines| % 0x1_0000_0000_0000_0000)
    {
      if k == |paths| - 1 {
        CountsOn(|runs[k].lines|);
      }
    }
  }

  lemma {:induction false} CountsOn(n: nat)
    ensures (n % 0x1_0000_0000_0000_0000 + 1) % GENERATIONS == (n + 1) % 0x1_0000_0000_0000_0000
  {
  }

  lemma {:induction false} MarkedNew(
      dirty: map<Path, nat>, paths: seq<Path>, runs: seq<Run>, runs': seq<Run>, path: Path, line: Bytes)
    requires MarksCount(dirty, paths, runs) && path !in dirty && runs' == runs + [Run([line], [])]
    ensures MarksCount(MarkDirty(dirty, path), paths + [path], runs')
  {
    var dirty' := MarkDirty(dirty, path);
    forall k | 0 <= k < |paths + [path]|
      ensures Lookup(dirty', (paths + [path])[k]) == Some(|runs'[k].lines| % 0x1_0000_0000_0000_0000)
    {
      assert k < |paths| ==> Lookup(dirty, paths[k]).Some?;
    }
  }

  lemma {:induction false} MarkedElsewhere(
      dirty: map<Path, nat>, paths: seq<Path>, runs: seq<Run>, runs': seq<Run>, marked: Option<Path>)
    requires MarksCount(dirty, paths, runs) && |runs'| == |runs|
    requires forall k :: 0 <= k < |runs| ==> |runs'[k].lines| == |runs[k].lines|
    requires marked.Some? ==> marked.value !in paths
    ensures MarksCount(if marked.Some? then MarkDirty(dirty, marked.value) else dirty, paths, runs')
  {
  }

  /** Whatever the interleaving, exactly the files that lines were recorded into are marked, and the generation of each
    * is the number of its complete lines: no line is written without a mark. */
  lemma {:induction false} MarksCountLines(r: Recorder, start: Store, inputs: seq<Input>)
    requires start.active == map[] && start.dirty == map[] && Orderly(r, inputs)
    ensures forall stream :: MarksCount(
      After(r, start, inputs).dirty, Started(r, start, inputs, stream), TrackOf(r, inputs, stream).runs)
    ensures forall path :: path in After(r, start, inputs).dirty ==> IsStarted(r, start, inputs, path)
  {
    if inputs != [] {
      hide Input1, MarksCount, StreamHolds, Started, TrackOf, TrackInput, Orderly, IsStarted;
      var init := inputs[..|inputs| - 1];
      assert Orderly(r, init) by {
        OrderlyInit(r, inputs);
      }
      MarksCountLines(r, start, init);
      FilesAreRuns(r, start, init);
      forall stream ensures MarksCount(
        After(r, start, inputs).dirty, Started(r, start, inputs, stream), TrackOf(r, inputs, stream).runs)
      {
        MarksCountNext(r, start, inputs, stream);
      }
      forall path | path in After(r, start, inputs).dirty ensures IsStarted(r, start, inputs, path) {
        MarkedIsStarted(r, start, inputs, path);
      }
    }
  }

  lemma {:induction false} OrderlyInit(r: Recorder, inputs: seq<Input>)
    requires inputs != [] && Orderly(r, inputs)
    ensures Orderly(r, inputs[..|inputs| - 1])
  {
  }

  /** What the last input does to its own stream's runs and to the marks. */
  ghost predicate MarksLast(
      last: Input, reply: Reply, dirty: map<Path, nat>, dirty': map<Path, nat>, paths: seq<Path>, runs: seq<Run>,
      runs': seq<Run>, marked: Option<Path>)
  {
    && |paths| == |runs| && Distinct(paths)
    && dirty' == (if marked.Some? then MarkDirty(dirty, marked.value) else dirty)
    && (if StartsFile(reply) then
          marked == Some(reply.value.value.path) && last.Line? && runs' == runs + [Run([last.line], [])]
        else
          && |runs'| == |runs| && (marked.Some? ==> paths != [] && marked.value == paths[|paths| - 1])
          && forall k :: 0 <= k < |runs| ==>
            |runs'[k].lines| == |runs[k].lines| + if marked.Some? && k == |runs| - 1 then 1 else 0)
  }

  lemma {:induction false} LastInputMarks(r: Recorder, start: Store, inputs: seq<Input>) returns (marked: Option<Path>)
    requires inputs != [] && StreamHolds(r, start, inputs[..|inputs| - 1], inputs[|inputs| - 1].stream)
    ensures var (init, last) := (inputs[..|inputs| - 1], inputs[|inputs| - 1]);
      MarksLast(last, Reported(r, start, inputs), After(r, start, init).dirty, After(r, start, inputs).dirty,
        Started(r, start, init, last.stream), TrackOf(r, init, last.stream).runs, TrackOf(r, inputs, last.stream).runs, marked)
  {
    hide Input1, TrackInput, Distinct, MarkDirty;
    var (init, last) := (inputs[..|inputs| - 1], inputs[|inputs| - 1]);
    var (s, paths, t) := (After(r, start, init), Started(r, start, init, last.stream), TrackOf(r, init, last.stream));
    marked := MarkedBy(s, last, Reported(r, start, inputs));
    InputMarks(r, s, last);
    FirstRun(r, s, paths, t, last);
    DeactivateStartsNothing(r, s, last);
    forall k | 0 <= k < |t.runs| && !StartsFile(Reported(r, start, inputs))
      ensures |TrackOf(r, inputs, last.stream).runs[k].lines|
        == |t.runs[k].lines| + if marked.Some? && k == |t.runs| - 1 then 1 else 0
    {
      InputCounts(r, s, paths, t, last, k);
    }
  }

  lemma {:induction false} DeactivateStartsNothing(r: Recorder, s: Store, input: Input)
    ensures StartsFile(Input1(r, s, input).1) ==> input.Line?
  {
  }

  lemma {:induction false} MarkedIsStarted(r: Recorder, start: Store, inputs: seq<Input>, path: Path)
    requires inputs != [] && StreamHolds(r, start, inputs[..|inputs| - 1], inputs[|inputs| - 1].stream)
    requires path in After(r, start, inputs).dirty
    requires path in After(r, start, inputs[..|inputs| - 1]).dirty ==> IsStarted(r, start, inputs[..|inputs| - 1], path)
    ensures IsStarted(r, start, inputs, path)
  {
    hide Input1, TrackOf, StreamHolds, Started;
    var (init, own) := (inputs[..|inputs| - 1], inputs[|inputs| - 1].stream);
    var marked := LastInputMarks(r, start, inputs);
    StartedOne(r, start, inputs, own);
    if StartsFile(Reported(r, start, inputs)) {
      StartedMore(r, start, inputs);
    }
    if stream :| path in Started(r, start, init, stream) {
      StartedOne(r, start, inputs, stream);
      assert path in Started(r, start, inputs, stream);
    } else {
      assert path in Started(r, start, inputs, own);
    }
  }

  lemma {:induction false} MarksCountNext(r: Recorder, start: Store, inputs: seq<Input>, stream: string)
    requires inputs != [] && Orderly(r, inputs) && AllHold(r, start, inputs[..|inputs| - 1])
    requires var init := inputs[..|inputs| - 1];
      && MarksCount(After(r, start, init).dirty, Started(r, start, init, stream), TrackOf(r, init, stream).runs)
      && forall path :: path in After(r, start, init).dirty ==> IsStarted(r, start, init, path)
    ensures MarksCount(
      After(r, start, inputs).dirty, Started(r, start, inputs, stream), TrackOf(r, inputs, stream).runs)
  {
    hide Input1, MarksCount, Distinct, Apart, StreamHolds, FilesMatch, ActiveMatches, TrackInput, Orderly, MarkDirty;
    var (init, own) := (inputs[..|inputs| - 1], inputs[|inputs| - 1].stream);
    assert StreamHolds(r, start, init, own) && StreamHolds(r, start, init, stream);
    var marked := LastInputMarks(r, start, inputs);
    var (dirty, paths, runs) :=
      (After(r, start, init).dirty, Started(r, start, init, stream), TrackOf(r, init, stream).runs);
    var runs' := TrackOf(r, inputs, stream).runs;
    NewPathUnmarked(r, start, inputs);
    if stream != own {
      OtherTrackKept(r, inputs, stream);
      MarkIsElsewhere(r, start, inputs, stream, marked);
      MarkedElsewhere(dirty, paths, runs, runs', marked);
    } else if StartsFile(Reported(r, start, inputs)) {
      MarkedNew(dirty, paths, runs, runs', marked.value, inputs[|inputs| - 1].line);
    } else if marked.Some? {
      MarkedOwn(dirty, paths, runs, runs');
    } else {
      MarkedElsewhere(dirty, paths, runs, runs', marked);
    }
  }

  lemma {:induction false} OtherTrackKept(r: Recorder, inputs: seq<Input>, stream: string)
    requires inputs != [] && inputs[|inputs| - 1].stream != stream
    ensures TrackOf(r, inputs, stream) == TrackOf(r, inputs[..|inputs| - 1], stream)
  {
  }

  lemma {:induction false} NewPathUnmarked(r: Recorder, start: Store, inputs: seq<Input>)
    requires inputs != [] && Orderly(r, inputs) && AllHold(r, start, inputs[..|inputs| - 1])
    requires var init := inputs[..|inputs| - 1];
      forall path :: path in After(r, start, init).dirty ==> IsStarted(r, start, init, path)
    ensures var reply := Reported(r, start, inputs);
      StartsFile(reply) ==> reply.value.value.path !in After(r, start, inputs[..|inputs| - 1]).dirty
    ensures var reply := Reported(r, start, inputs);
      StartsFile(reply) ==> !IsStarted(r, start, inputs[..|inputs| - 1], reply.value.value.path)
  {
    hide StreamHolds, Apart, Input1, TrackOf, Orderly;
    var (init, own) := (inputs[..|inputs| - 1], inputs[|inputs| - 1].stream);
    assert StreamHolds(r, start, init, own);
    InputKeepsOwn(r, start, inputs);
    forall stream ensures forall path :: path in Started(r, start, init, stream) ==> path in After(r, start, init).files {
      assert StreamHolds(r, start, init, stream);
      PathsExist(r, start, init, stream);
    }
  }

  /** What a stream's input marks is no other stream's file. */
  lemma {:induction false} MarkIsElsewhere(
      r: Recorder, start: Store, inputs: seq<Input>, stream: string, marked: Option<Path>)
    requires inputs != [] && Orderly(r, inputs) && AllHold(r, start, inputs[..|inputs| - 1])
    requires stream != inputs[|inputs| - 1].stream
    requires var (init, own) := (inputs[..|inputs| - 1], inputs[|inputs| - 1].stream);
      var (paths, reply) := (Started(r, start, init, own), Reported(r, start, inputs));
      if StartsFile(reply) then
        marked == Some(reply.value.value.path) && !IsStarted(r, start, init, reply.value.value.path)
      else marked.Some? ==> paths != [] && marked.value == paths[|paths| - 1]
    ensures marked.Some? ==> marked.value !in Started(r, start, inputs[..|inputs| - 1], stream)
  {
    hide StreamHolds, Input1, TrackOf, Orderly, After;
    var (init, own) := (inputs[..|inputs| - 1], inputs[|inputs| - 1].stream);
    assert Apart(Started(r, start, init, own), Started(r, start, init, stream));
  }

  // ---------------------------------------------------------------- what the runs are

  /** A run begins with a present EIT and all its present EITs name one program. */
  ghost predicate OneProgram(r: Recorder, run: seq<Bytes>, program: ProgramKey) {
    && run != [] && r.parse(run[0]).PresentEit?
    && forall i :: 0 <= i < |run| && r.parse(run[i]).PresentEit? ==> r.parse(run[i]).program == program
  }

  ghost predicate HasOneProgram(r: Recorder, run: seq<Bytes>) {
    exists program :: OneProgram(r, run, program)
  }

  lemma {:induction false} RunsAreSinglePrograms(r: Recorder, inputs: seq<Input>, stream: string)
    ensures var t := TrackOf(r, inputs, stream);
      && (forall i :: 0 <= i < |t.runs| ==> HasOneProgram(r, t.runs[i].lines))
      && (t.current.Some? ==> t.runs != [] && OneProgram(r, t.runs[|t.runs| - 1].lines, t.current.value))
  {
    if inputs != [] {
      var n := |inputs| - 1;
      RunsAreSinglePrograms(r, inputs[..n], stream);
      var t, t' := TrackOf(r, inputs[..n], stream), TrackOf(r, inputs, stream);
      if t'.runs != t.runs {
        var parsed := r.parse(inputs[n].line);
        var program := if parsed.PresentEit? then parsed.program else t.current.value;
        assert OneProgram(r, t'.runs[|t'.runs| - 1].lines, program);
        assert forall i :: 0 <= i < |t'.runs| - 1 ==> t'.runs[i] == t.runs[i];
      }
    }
  }

  /** A stream records from a present EIT until it is reconnected. */
  ghost predicate Records(r: Recorder, inputs: seq<Input>, stream: string) {
    inputs != [] &&
      var last := inputs[|inputs| - 1];
      if last.stream == stream && last.Deactivate? then false
      else if last.stream == stream && last.io.Works? && r.parse(last.line).PresentEit? then true
      else Records(r, inputs[..|inputs| - 1], stream)
  }

  /** Whether the last input is a line to be kept: valid JSON, and a present EIT or seen while recording. */
  ghost predicate KeepsLast(r: Recorder, inputs: seq<Input>) {
    inputs != [] && inputs[|inputs| - 1].Line? &&
      var parsed := r.parse(inputs[|inputs| - 1].line);
      parsed.PresentEit? || (parsed.OtherJson? && Records(r, inputs[..|inputs| - 1], inputs[|inputs| - 1].stream))
  }

  ghost function Kept(r: Recorder, inputs: seq<Input>, stream: string): seq<Bytes> {
    if inputs == [] then []
    else
      var before := Kept(r, inputs[..|inputs| - 1], stream);
      var last := inputs[|inputs| - 1];
      if last.stream == stream && KeepsLast(r, inputs) && last.io.Works? then before + [last.line] else before
  }

  function Flatten(runs: seq<Run>): seq<Bytes> {
    if runs == [] then [] else Flatten(runs[..|runs| - 1]) + runs[|runs| - 1].lines
  }

  lemma {:induction false} FlattenExtend(t: Track, line: Bytes, io: Io)
    requires t.runs != []
    ensures Flatten(ExtendLast(t, line, io).runs) == Flatten(t.runs) + (if io.Works? then [line] else [])
  {
    assert ExtendLast(t, line, io).runs[..|t.runs| - 1] == t.runs[..|t.runs| - 1];
  }

  lemma {:induction false} FlattenMore(runs: seq<Run>, run: Run)
    ensures Flatten(runs + [run]) == Flatten(runs) + run.lines
  {
    assert (runs + [run])[..|runs|] == runs;
  }

  /** Concatenated, a stream's runs are exactly its kept lines that could be written, in order. */
  lemma {:induction false} RunsAreKeptLines(r: Recorder, inputs: seq<Input>, stream: string)
    requires Orderly(r, inputs)
    ensures Flatten(TrackOf(r, inputs, stream).runs) == Kept(r, inputs, stream)
    ensures TrackOf(r, inputs, stream).current.Some? <==> Records(r, inputs, stream)
  {
    hide ExtendLast, WellFormed;
    if inputs != [] {
      var n := |inputs| - 1;
      RunsAreKeptLines(r, inputs[..n], stream);
      TracksWellFormed(r, inputs[..n], stream);
      if inputs[n].stream == stream && inputs[n].Line? {
        LineIsKept(r, TrackOf(r, inputs[..n], stream), inputs[n].line, inputs[n].io);
      }
    }
  }

  lemma {:induction false} LineIsKept(r: Recorder, t: Track, line: Bytes, io: Io)
    requires WellFormed(t)
    ensures var t' := TrackLine(r, t, line, io);
      var kept := r.parse(line).PresentEit? || (r.parse(line).OtherJson? && t.current.Some?);
      && Flatten(t'.runs) == Flatten(t.runs) + (if kept && io.Works? then [line] else [])
      && (t'.current.Some? <==> t.current.Some? || (r.parse(line).PresentEit? && io.Works?))
  {
    hide Flatten;
    if t.current.Some? {
      FlattenExtend(t, line, io);
    }
    FlattenMore(t.runs, Run([line], []));
  }

  /** A line is reported as skipped exactly when it is not to be kept, and with the right reason, and as failed
    * exactly when it was to be kept but could not be written. */
  lemma {:induction false} SkippedIsReported(r: Recorder, start: Store, inputs: seq<Input>)
    requires start.active == map[] && Orderly(r, inputs) && inputs != [] && inputs[|inputs| - 1].Line?
    ensures var parsed := r.parse(inputs[|inputs| - 1].line);
      var reply := Reported(r, start, inputs);
      && (reply == Ok(Some(SkippedInvalidJson)) <==> parsed.InvalidJson?)
      && (reply == Ok(Some(SkippedNoProgram)) <==> parsed.OtherJson? && !KeepsLast(r, inputs))
      && (reply.Err? <==> KeepsLast(r, inputs) && !inputs[|inputs| - 1].io.Works?)
      && (reply == Ok(None) || StartsFile(reply) <==> KeepsLast(r, inputs) && inputs[|inputs| - 1].io.Works?)
  {
    hide FreshPath, FilesMatch, Distinct, Apart;
    var init, stream := inputs[..|inputs| - 1], inputs[|inputs| - 1].stream;
    FilesAreRuns(r, start, init);
    assert StreamHolds(r, start, init, stream);
    RunsAreKeptLines(r, init, stream);
  }

  /** A file that a line creates but does not start holds nothing complete. */
  lemma {:induction false} NewFile(r: Recorder, s: Store, input: Input, path: Path)
    requires input.Line? ==> NEWLINE !in input.line
    requires path !in s.files && path in Input1(r, s, input).0.files
    requires input.stream in s.active ==> s.active[input.stream].path in s.files
    ensures var (s', reply) := Input1(r, s, input);
      if StartsFile(reply) then path == reply.value.value.path else NEWLINE !in s'.files[path]
  {
    hide FreshPath;
    if input.Line? && !input.io.Works? {
      assert NEWLINE !in [] + Arrives(input.line, input.io);
    }
  }

  ghost predicate IsStarted(r: Recorder, start: Store, inputs: seq<Input>, path: Path) {
    exists stream :: path in Started(r, start, inputs, stream)
  }

  lemma {:induction false} StartedMore(r: Recorder, start: Store, inputs: seq<Input>)
    requires inputs != [] && StartsFile(Reported(r, start, inputs))
    ensures Reported(r, start, inputs).value.value.path in Started(r, start, inputs, inputs[|inputs| - 1].stream)
  {
  }

  /** Files from before stay as they are, and what is no stream's run holds no complete line. */
  lemma {:induction false} NothingElseIsWritten(r: Recorder, start: Store, inputs: seq<Input>, path: Path)
    requires start.active == map[] && Orderly(r, inputs)
    ensures var files := After(r, start, inputs).files;
      && (path in start.files ==> path in files && files[path] == start.files[path])
      && (path in start.files ==> forall stream :: path !in Started(r, start, inputs, stream))
      && (path in files && path !in start.files ==> NEWLINE !in files[path] || IsStarted(r, start, inputs, path))
  {
    hide TrackOf, FreshPath;
    if inputs != [] {
      hide Started, Input1;
      var (init, input) := (inputs[..|inputs| - 1], inputs[|inputs| - 1]);
      NothingElseIsWritten(r, start, init, path);
      FilesAreRuns(r, start, init);
      assert StreamHolds(r, start, init, input.stream);
      forall stream ensures path in Started(r, start, init, stream) ==> path in Started(r, start, inputs, stream) {
        StartedOne(r, start, inputs, stream);
      }
      StartedOne(r, start, inputs, input.stream);
      var s := After(r, start, init);
      var written := InputWrites(r, s, input);
      forall stream ensures path in start.files ==> path !in Started(r, start, inputs, stream) {
        StartedOne(r, start, inputs, stream);
      }
      if path !in s.files && path in After(r, start, inputs).files {
        NewFile(r, s, input, path);
        if StartsFile(Reported(r, start, inputs)) {
          StartedMore(r, start, inputs);
        }
      }
    }
  }

  // ---------------------------------------------------------------- reading the files back

  /** The indexer and the recorder recognize the same lines as present EITs. */
  ghost predicate SameEits(r: Recorder, reader: Reader) {
    forall line :: r.parse(line).PresentEit? <==> RecordOf(reader, line).EitPresent?
  }

  lemma {:induction false} EitFirstLine(reader: Reader, lines: seq<Bytes>)
    requires lines != [] && RecordOf(reader, lines[0]).EitPresent?
    ensures LastEit(reader, lines).Some?
  {
    if |lines| > 1 {
      EitFirstLine(reader, lines[..|lines| - 1]);
    }
  }

  /** What the indexer reads back from a recorded file: one record per recorded line, and, as soon as one line
    * is complete, an EIT present record first. */
  lemma {:induction false} RecordedFileReadsBack(
      r: Recorder, reader: Reader, start: Store, inputs: seq<Input>, stream: string, k: nat, content: Bytes)
    requires start.active == map[] && SameEits(r, reader) && Orderly(r, inputs)
    requires k < |Started(r, start, inputs, stream)|
    ensures var path := Started(r, start, inputs, stream)[k];
      && path in After(r, start, inputs).files
      && k < |TrackOf(r, inputs, stream).runs|
      && var (file, run) := (After(r, start, inputs).files[path], TrackOf(r, inputs, stream).runs[k]);
      && CompleteLines(file) == run.lines
      && Rest(file) == run.tail
      && run.lines != [] && RecordOf(reader, run.lines[0]).EitPresent?
      && (content <= file && CompleteLines(content) != [] ==> LastEit(reader, CompleteLines(content)).Some?)
  {
    hide TrackOf, After, Started, CompleteLines, Unlines, Rest, Distinct, LastEit, Orderly;
    FilesAreRuns(r, start, inputs);
    assert StreamHolds(r, start, inputs, stream);
    TracksWellFormed(r, inputs, stream);
    RunsAreSinglePrograms(r, inputs, stream);
    var (run, path) := (TrackOf(r, inputs, stream).runs[k], Started(r, start, inputs, stream)[k]);
    var file := After(r, start, inputs).files[path];
    SplitUnique(run.lines, run.tail);
    assert file == RunBytes(run);
    assert HasOneProgram(r, run.lines);
    if content <= file && CompleteLines(content) != [] {
      CompleteLinesGrow(content, file);
      assert CompleteLines(content)[0] == run.lines[0];
      EitFirstLine(reader, CompleteLines(content));
    }
  }
}
