/** A line takes the archive store's lock twice when it starts a file (src/archive.rs): between the two, the lines
  * of other streams go on. What all streams' critical sections do, in any order, is what whole lines do. */
module RecordingSections {
  import opened Lines
  import opened RecordingRuns
  import opened SearchTables
  import opened TextOrder
  import opened Recording
  import opened Wrappers

  /** The store between two critical sections, and the files that streams have written but not yet activated. */
  datatype Moment = Moment(store: Store, pending: map<string, Active>)

  /** A line up to its second section or a reconnection; the second section of a line that started a file. */
  datatype Section = First(input: Input) | Second(stream: string)

  /** Each stream is served by one task, which handles one line after another. */
  predicate Able(m: Moment, section: Section) {
    match section
    case First(input) => input.stream !in m.pending
    case Second(stream) => stream in m.pending
  }

  ghost function Enter(r: Recorder, m: Moment, section: Section): Moment
    requires Able(m, section)
  {
    match section
    case First(Line(stream, line, now, io)) =>
      (match Prepared(r, m.store, stream, line, now, io)
       case (store, Answered(_)) => m.(store := store)
       case (store, Created(file)) => Moment(store, m.pending[stream := file]))
    case First(Deactivate(stream)) => m.(store := m.store.(active := m.store.active - {stream}))
    case Second(stream) => Moment(Replaced(m.store, stream, m.pending[stream]), m.pending - {stream})
  }

  ghost predicate IsRun(r: Recorder, moments: seq<Moment>, sections: seq<Section>) {
    && |moments| == |sections| + 1
    && forall i :: 0 <= i < |sections| ==> Able(moments[i], sections[i]) && moments[i + 1] == Enter(r, moments[i], sections[i])
  }

  /** The lines and reconnections of a run, each where its first section is. */
  function Inputs(sections: seq<Section>): seq<Input> {
    if sections == [] then []
    else
      var (init, last) := (Inputs(sections[..|sections| - 1]), sections[|sections| - 1]);
      if last.First? then init + [last.input] else init
  }

  ghost predicate IsPending(pending: map<string, Active>, path: Path) {
    exists stream :: stream in pending && pending[stream].path == path
  }

  ghost predicate OwnFiles(m: Moment) {
    && (forall a, b :: a in m.pending && b in m.pending && m.pending[a].path == m.pending[b].path ==> a == b)
    && forall stream :: stream in m.pending ==> m.pending[stream].path in m.store.files
  }

  /** Marks still to be made by second sections. */
  ghost predicate MarksMissing(m: Moment, dirty: map<Path, nat>) {
    forall path :: Lookup(dirty, path) ==
      Lookup(if IsPending(m.pending, path) then MarkDirty(m.store.dirty, path) else m.store.dirty, path)
  }

  ghost predicate ActiveMissing(m: Moment, active: map<string, Active>) {
    forall stream :: Lookup(active, stream) == Lookup(if stream in m.pending then m.pending else m.store.active, stream)
  }

  /** Whole lines are ahead of their sections by the files not yet activated, and by nothing else. */
  ghost predicate Ahead(m: Moment, s: Store) {
    && OwnFiles(m) && s.files == m.store.files && MarksMissing(m, s.dirty) && ActiveMissing(m, s.active)
  }

  function MarkedIf(dirty: map<Path, nat>, path: Option<Path>): map<Path, nat> {
    if path.Some? then MarkDirty(dirty, path.value) else dirty
  }

  /** A first section sees of the active files only its own stream's, and marks at most that. */
  lemma {:induction false} PreparedAlike(
      r: Recorder, s: Store, active: map<string, Active>, dirty: map<Path, nat>, stream: string, line: Bytes, now: int, io: Io)
    returns (marked: Option<Path>)
    requires Lookup(s.active, stream) == Lookup(active, stream)
    ensures var (s', progress) := Prepared(r, s, stream, line, now, io);
      && Prepared(r, s.(active := active, dirty := dirty), stream, line, now, io)
           == (s'.(active := active, dirty := MarkedIf(dirty, marked)), progress)
      && s' == s.(files := s'.files, dirty := MarkedIf(s.dirty, marked)) && s.files.Keys <= s'.files.Keys
      && (progress.Created? ==> marked.None? && progress.file.path !in s.files && progress.file.path in s'.files)
  {
    hide FreshPath, Arrives, MarkDirty;
    assert stream in s.active <==> stream in active;
    var parsed := r.parse(line);
    if stream in s.active && (parsed.OtherJson? || (parsed.PresentEit? && s.active[stream].program == parsed.program)) {
      marked := if io.Works? then Some(s.active[stream].path) else None;
    } else {
      marked := None;
    }
  }

  lemma {:induction false} MarkingStaysMissing(m: Moment, dirty: map<Path, nat>, store: Store, marked: Option<Path>)
    requires MarksMissing(m, dirty) && store.dirty == MarkedIf(m.store.dirty, marked)
    ensures MarksMissing(m.(store := store), MarkedIf(dirty, marked))
  {
    var m' := m.(store := store);
    forall path ensures Lookup(MarkedIf(dirty, marked), path) ==
      Lookup(if IsPending(m'.pending, path) then MarkDirty(store.dirty, path) else store.dirty, path)
    {
      assert Lookup(dirty, path) ==
        Lookup(if IsPending(m.pending, path) then MarkDirty(m.store.dirty, path) else m.store.dirty, path);
    }
  }

  lemma {:induction false} PendingMore(pending: map<string, Active>, stream: string, file: Active, path: Path)
    requires stream !in pending
    ensures IsPending(pending[stream := file], path) <==> IsPending(pending, path) || path == file.path
  {
    var pending' := pending[stream := file];
    if other :| other in pending && pending[other].path == path {
      assert other in pending' && pending'[other].path == path;
    }
    assert pending'[stream].path == file.path;
  }

  lemma {:induction false} OwnMore(m: Moment, files: map<Path, Bytes>, stream: string, file: Active)
    requires OwnFiles(m) && stream !in m.pending && file.path !in m.store.files
    requires m.store.files.Keys <= files.Keys && file.path in files
    ensures OwnFiles(Moment(m.store.(files := files), m.pending[stream := file])) && !IsPending(m.pending, file.path)
  {
  }

  lemma {:induction false} CreatedStaysAhead(m: Moment, s: Store, files: map<Path, Bytes>, stream: string, file: Active)
    requires Ahead(m, s) && stream !in m.pending && file.path !in m.store.files
    requires m.store.files.Keys <= files.Keys && file.path in files
    ensures Ahead(Moment(m.store.(files := files), m.pending[stream := file]), Replaced(s.(files := files), stream, file))
  {
    hide IsPending, OwnFiles;
    var (m', s') := (Moment(m.store.(files := files), m.pending[stream := file]), Replaced(s.(files := files), stream, file));
    OwnMore(m, files, stream, file);
    forall path ensures Lookup(s'.dirty, path) ==
      Lookup(if IsPending(m'.pending, path) then MarkDirty(m'.store.dirty, path) else m'.store.dirty, path)
    {
      PendingMore(m.pending, stream, file, path);
      assert Lookup(s.dirty, path) ==
        Lookup(if IsPending(m.pending, path) then MarkDirty(m.store.dirty, path) else m.store.dirty, path);
    }
  }

  lemma {:induction false} FirstStaysAhead(r: Recorder, m: Moment, s: Store, input: Input)
    requires Able(m, First(input)) && Ahead(m, s)
    ensures Ahead(Enter(r, m, First(input)), Input1(r, s, input).0)
  {
    hide Prepared, MarksMissing, MarkDirty;
    if input.Line? {
      assert Lookup(s.active, input.stream) == Lookup(m.store.active, input.stream);
      var marked := PreparedAlike(r, m.store, s.active, s.dirty, input.stream, input.line, input.now, input.io);
      assert m.store.(active := s.active, dirty := s.dirty) == s;
      var (store, progress) := Prepared(r, m.store, input.stream, input.line, input.now, input.io);
      if progress.Created? {
        CreatedStaysAhead(m, s, store.files, input.stream, progress.file);
      } else {
        MarkingStaysMissing(m, s.dirty, store, marked);
      }
    } else {
      MarkingStaysMissing(m, s.dirty, m.store.(active := m.store.active - {input.stream}), None);
    }
  }

  lemma {:induction false} SecondStaysAhead(r: Recorder, m: Moment, s: Store, stream: string)
    requires stream in m.pending && Ahead(m, s)
    ensures Ahead(Enter(r, m, Second(stream)), s)
  {
    var (m', own) := (Enter(r, m, Second(stream)), m.pending[stream].path);
    forall path ensures Lookup(s.dirty, path) ==
      Lookup(if IsPending(m'.pending, path) then MarkDirty(m'.store.dirty, path) else m'.store.dirty, path)
    {
      if path == own {
        assert IsPending(m.pending, path);
      } else if other :| other in m.pending && m.pending[other].path == path {
        assert other in m'.pending && m'.pending[other].path == path;
      }
    }
  }

  /** However the streams' critical sections interleave, what the files hold is what whole lines have written, each
    * at its first section, and once no line is between its sections, so are the active files and the marks. */
  lemma {:induction false} SectionsRefineLines(r: Recorder, start: Store, moments: seq<Moment>, sections: seq<Section>)
    requires IsRun(r, moments, sections) && moments[0] == Moment(start, map[])
    ensures var (m, s) := (moments[|sections|], After(r, start, Inputs(sections)));
      && Ahead(m, s)
      && m.store.files == s.files
      && (m.pending == map[] ==> m.store == s)
  {
    hide Enter, Input1;
    if sections != [] {
      var n := |sections| - 1;
      SectionsRefineLines(r, start, moments[..n + 1], sections[..n]);
      var (m, s) := (moments[n], After(r, start, Inputs(sections[..n])));
      match sections[n]
      case First(input) =>
        assert Inputs(sections)[..|Inputs(sections)| - 1] == Inputs(sections[..n]);
        FirstStaysAhead(r, m, s, input);
      case Second(stream) => SecondStaysAhead(r, m, s, stream);
    }
    NothingMissing(moments[|sections|], After(r, start, Inputs(sections)));
  }

  lemma {:induction false} NothingMissing(m: Moment, s: Store)
    requires Ahead(m, s)
    ensures m.pending == map[] ==> m.store == s
  {
    if m.pending == map[] {
      assert forall path :: Lookup(s.dirty, path) == Lookup(m.store.dirty, path);
      assert forall stream :: Lookup(s.active, stream) == Lookup(m.store.active, stream);
      SameLookups(s.dirty, m.store.dirty);
      SameLookups(s.active, m.store.active);
    }
  }

  lemma {:induction false} SameLookups<K, V>(a: map<K, V>, b: map<K, V>)
    requires forall k :: Lookup(a, k) == Lookup(b, k)
    ensures a == b
  {
    forall k ensures (k in a <==> k in b) && (k in a ==> a[k] == b[k]) {
      assert Lookup(a, k) == Lookup(b, k);
    }
  }
}
