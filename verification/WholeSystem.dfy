/** Recording, indexing and garbage collection as one system (src/archive.rs, src/search_db/indexer.rs). Here a
  * removal asks only what collection itself looks at, and a new file only that its name is free; that no file being
  * written is removed, and no file created again while it still has rows, is proved from the retention. */
module WholeSystem {
  import opened Collisions
  import opened IndexRuns
  import opened Lines
  import opened Rebuild
  import opened SearchTables
  import opened RebuildCases
  import opened SystemCases
  import opened TextOrder
  import opened Wrappers
  import G = Retention
  import M = Maintenance
  import Recording

  /** What a writer is doing: appending to a stream's active file under the lock, or starting a new file. */
  datatype Role = Appending(stream: nat) | Starting(opening: nat)

  /** `gc` knows files by name and time, `index` by path and contents. */
  datatype Whole = Whole(index: M.System, gc: G.State, roles: map<nat, Role>)

  /** `pathOf` is where a named file lies. */
  datatype Setting = Setting(reader: Reader, pathOf: G.Name -> Path, retention: nat, delay: nat)

  datatype Action =
    | Index(action: M.Action)
    | Tick(elapsed: nat)
    | NameFile(opening: nat)
    | CreateFile(opening: nat, tag: nat, writer: nat)
    | GiveUp(opening: nat)
    | BeginAppend(writer: nat, stream: nat)
    | Write(writer: nat, data: Bytes)
    | FinishAppend(writer: nat)
    | FinishStart(writer: nat, stream: nat)
    | Abort(writer: nat)
    | Deactivate(stream: nat)
    | StartCollection
    | SnapshotActive
    | Remove(file: G.Name)
    | EndCollection

  predicate IndexerAction(a: M.Action) {
    || a.ScanStat? || a.EndScan? || a.Snapshot? || a.Stat? || a.Read? || a.Commit? || a.Skip? || a.Fail? || a.Clear?
    || a.Finish? || a.CleanUp?
  }

  ghost predicate AppendsTo(s: Whole, stream: nat) {
    exists w :: w in s.roles && s.roles[w] == Appending(stream)
  }

  ghost predicate BeingStarted(s: Whole, opening: nat) {
    exists w :: w in s.roles && s.roles[w] == Starting(opening)
  }

  /** When an action can happen. Time does not pass beyond `delay` after a writer has read the clock; appending and
    * activating exclude each other through the store's lock; the indexer and collection share one task. */
  ghost predicate Can(c: Setting, s: Whole, a: Action) {
    match a
    case Index(action) =>
      IndexerAction(action) && M.CanAct(s.index, action) && M.NotWrapped(s.index, action) && s.gc.collection.Idle?
    case Tick(elapsed) => forall o :: o in s.gc.openings ==> s.gc.now + elapsed <= s.gc.openings[o].at + c.delay
    case NameFile(o) => o !in s.gc.openings
    case CreateFile(o, tag, w) =>
      && o in s.gc.openings && s.gc.openings[o].Naming? && w !in s.roles
      && G.Name(G.StartedAt(s.gc.openings[o].at), tag) !in s.gc.files
    case GiveUp(o) => o in s.gc.openings && !BeingStarted(s, o)
    case BeginAppend(w, stream) => w !in s.roles && stream in s.gc.active && !AppendsTo(s, stream)
    case Write(w, _) => w in s.roles
    case FinishAppend(w) => w in s.roles && s.roles[w].Appending?
    case FinishStart(w, stream) => w in s.roles && s.roles[w].Starting? && !AppendsTo(s, stream)
    case Abort(w) => w in s.roles && w in s.index.writers && !s.index.writers[w].wroteNewline
    case Deactivate(stream) => !AppendsTo(s, stream)
    case StartCollection => s.gc.collection.Idle? && s.index.phase.Resting?
    case SnapshotActive => s.gc.collection.Cut?
    case Remove(file) => G.Able(s.gc, G.Remove(file))
    case EndCollection => !s.gc.collection.Idle?
  }

  /** What an action means to the indexer and its files. */
  function IndexSide(c: Setting, s: Whole, a: Action): Option<M.Action> {
    match a
    case Index(action) => Some(action)
    case CreateFile(o, tag, w) =>
      if o in s.gc.openings then Some(M.Open(w, c.pathOf(G.Name(G.StartedAt(s.gc.openings[o].at), tag)))) else None
    case BeginAppend(w, stream) => if stream in s.gc.active then Some(M.Begin(w, c.pathOf(s.gc.active[stream]))) else None
    case Write(w, data) => Some(M.Write(w, data))
    case FinishAppend(w) => Some(M.Mark(w))
    case FinishStart(w, _) => Some(M.Mark(w))
    case Abort(w) => Some(M.Action.Abort(w))
    case Remove(file) => Some(M.Action.Unlink(c.pathOf(file)))
    case _ => None
  }

  /** What it means to collection. */
  function CollectionSide(s: Whole, a: Action): Option<G.Action> {
    match a
    case Tick(elapsed) => Some(G.Tick(elapsed))
    case NameFile(o) => Some(G.ReadClock(o))
    case CreateFile(o, tag, _) => Some(G.Create(o, tag))
    case GiveUp(o) => Some(G.GiveUp(o))
    case FinishStart(w, stream) =>
      if w in s.roles && s.roles[w].Starting? then Some(G.Activate(s.roles[w].opening, stream)) else None
    case Abort(w) => if w in s.roles && s.roles[w].Starting? then Some(G.GiveUp(s.roles[w].opening)) else None
    case Deactivate(stream) => Some(G.Deactivate(stream))
    case StartCollection => Some(G.StartCollection)
    case SnapshotActive => Some(G.SnapshotActive)
    case Remove(file) => Some(G.Remove(file))
    case EndCollection => Some(G.EndCollection)
    case _ => None
  }

  /** The state of files and index after an action. A write to a file that is gone would be lost. */
  ghost function IndexAfter(c: Setting, s: Whole, a: Action): M.System
    requires Can(c, s, a)
  {
    var x := s.index;
    match a
    case Index(action) => M.Act(c.reader, x, action)
    case CreateFile(o, tag, w) =>
      var path := c.pathOf(G.Name(G.StartedAt(s.gc.openings[o].at), tag));
      x.(fs := x.fs[path := []], writers := x.writers[w := M.Writing(path, false)])
    case BeginAppend(w, stream) => x.(writers := x.writers[w := M.Writing(c.pathOf(s.gc.active[stream]), false)])
    case Write(w, data) =>
      if w !in x.writers || x.writers[w].path !in x.fs then x
      else
        var was := x.writers[w];
        x.(fs := x.fs[was.path := x.fs[was.path] + data],
           writers := x.writers[w := M.Writing(was.path, was.wroteNewline || NEWLINE in data)])
    case FinishAppend(w) => Marked(x, w)
    case FinishStart(w, _) => Marked(x, w)
    case Abort(w) => x.(writers := x.writers - {w})
    case Remove(file) => x.(fs := x.fs - {c.pathOf(file)})
    case _ => x
  }

  function Marked(x: M.System, w: nat): M.System {
    if w !in x.writers then x
    else
      var path := x.writers[w].path;
      x.(dirty := Recording.MarkDirty(x.dirty, path),
         writers := x.writers - {w},
         marks := x.marks[path := M.MarksOf(x, path) + 1])
  }

  function CollectionAfter(c: Setting, s: Whole, a: Action): G.State {
    var side := CollectionSide(s, a);
    if side.Some? && G.Able(s.gc, side.value) then G.Act(s.gc, side.value, c.retention) else s.gc
  }

  ghost function RolesAfter(s: Whole, a: Action): map<nat, Role> {
    match a
    case CreateFile(o, _, w) => s.roles[w := Starting(o)]
    case BeginAppend(w, stream) => s.roles[w := Appending(stream)]
    case FinishAppend(w) => s.roles - {w}
    case FinishStart(w, _) => s.roles - {w}
    case Abort(w) => s.roles - {w}
    case _ => s.roles
  }

  ghost function After(c: Setting, s: Whole, a: Action): Whole
    requires Can(c, s, a)
  {
    Whole(IndexAfter(c, s, a), CollectionAfter(c, s, a), RolesAfter(s, a))
  }

  // ---------------------------------------------------------------- the invariant

  ghost predicate Injective(pathOf: G.Name -> Path) {
    forall a, b :: pathOf(a) == pathOf(b) ==> a == b
  }

  ghost predicate FileKnown(c: Setting, s: Whole, file: G.Name) {
    && (file in s.gc.files <==> c.pathOf(file) in s.index.fs)
    && (file !in s.gc.files && c.pathOf(file) in s.index.tables.files ==>
          file.startedAt * G.SECOND + c.retention < s.gc.now)
  }

  ghost predicate WriterKnown(c: Setting, s: Whole, w: nat) {
    && (w in s.roles <==> w in s.index.writers)
    && (w in s.roles ==>
          match s.roles[w]
          case Appending(stream) =>
            stream in s.gc.active && c.pathOf(s.gc.active[stream]) == s.index.writers[w].path
          case Starting(o) =>
            o in s.gc.openings && s.gc.openings[o].Created? && c.pathOf(s.gc.openings[o].file) == s.index.writers[w].path)
  }

  ghost predicate OwnOpenings(roles: map<nat, Role>) {
    forall v, w :: v in roles && w in roles && roles[v].Starting? && roles[v] == roles[w] ==> v == w
  }

  ghost predicate InTime(c: Setting, gc: G.State) {
    forall o :: o in gc.openings ==> gc.now <= gc.openings[o].at + c.delay
  }

  ghost predicate Holds(c: Setting, s: Whole) {
    && M.SysInv(c.reader, s.index)
    && G.Inv(s.gc, c.retention, c.delay)
    && InTime(c, s.gc)
    && OwnOpenings(s.roles)
    && (forall file :: FileKnown(c, s, file))
    && (forall w :: WriterKnown(c, s, w))
    && (!s.gc.collection.Idle? ==> s.index.phase.Resting?)
  }

  ghost predicate Suits(c: Setting) {
    Injective(c.pathOf) && c.retention >= c.delay + G.SECOND - 1
  }

  // ---------------------------------------------------------------- removal meets no writer

  /** A file that collection may remove is not being written. */
  lemma {:induction false} RemovedIsNotWritten(c: Setting, s: Whole, file: G.Name, w: nat)
    requires Suits(c) && Holds(c, s) && Can(c, s, Remove(file)) && w in s.index.writers
    ensures s.index.writers[w].path != c.pathOf(file)
  {
    hide M.SysInv, G.IsExpired, G.StartedAt;
    assert WriterKnown(c, s, w);
    if s.roles[w].Starting? {
      var o := s.roles[w].opening;
      assert G.OpeningHolds(s.gc, o, c.delay);
      G.LiveIsNotExpired(s.gc, o, s.gc.collection.cutoff, c.retention, c.delay);
    }
  }

  /** A new file's name is younger than every file that was removed but may still have rows. */
  lemma {:induction false} CreatedHasNoRows(c: Setting, s: Whole, o: nat, tag: nat, w: nat)
    requires Suits(c) && Holds(c, s) && Can(c, s, CreateFile(o, tag, w))
    ensures var path := c.pathOf(G.Name(G.StartedAt(s.gc.openings[o].at), tag));
      path !in s.index.fs && path !in s.index.tables.files
  {
    hide M.SysInv;
    var at := s.gc.openings[o].at;
    var file := G.Name(G.StartedAt(at), tag);
    assert FileKnown(c, s, file);
    assert G.StartedAt(at) * G.SECOND + at % G.SECOND == at;
  }

  // ---------------------------------------------------------------- each side follows its own machine

  lemma {:induction false} WriterPresent(c: Setting, s: Whole, w: nat)
    requires Holds(c, s) && w in s.roles
    ensures w in s.index.writers && s.index.writers[w].path in s.index.fs
  {
    hide M.SysInv, G.CollectionHolds;
    assert WriterKnown(c, s, w);
    match s.roles[w]
    case Appending(stream) => assert FileKnown(c, s, s.gc.active[stream]);
    case Starting(o) =>
      assert G.OpeningHolds(s.gc, o, c.delay);
      assert FileKnown(c, s, s.gc.openings[o].file);
  }

  /** What an action means to the indexer is something the indexer's own machine can do, with the same effect. */
  lemma {:induction false} IndexSideActs(c: Setting, s: Whole, a: Action)
    requires Suits(c) && Holds(c, s) && Can(c, s, a)
    ensures var side := IndexSide(c, s, a);
      if side.Some? then
        && M.CanAct(s.index, side.value) && M.NotWrapped(s.index, side.value)
        && IndexAfter(c, s, a) == M.Act(c.reader, s.index, side.value)
      else IndexAfter(c, s, a) == s.index
  {
    hide M.SysInv, G.Inv, InTime, OwnOpenings, AppendsTo, BeingStarted, IngestFile, Cleanup, Suits, Holds;
    match a
    case CreateFile(o, tag, w) =>
      HoldsFor(c, s, w, G.Name(0, 0));
      CreatedHasNoRows(c, s, o, tag, w);
    case BeginAppend(w, stream) =>
      HoldsFor(c, s, w, s.gc.active[stream]);
      ActivePresent(c, s, stream);
    case Write(w, _) => WriterPresent(c, s, w);
    case FinishAppend(w) => WriterPresent(c, s, w);
    case FinishStart(w, _) => WriterPresent(c, s, w);
    case Remove(file) =>
      RemovalResting(c, s, file);
      forall w | w in s.index.writers ensures s.index.writers[w].path != c.pathOf(file) {
        RemovedIsNotWritten(c, s, file, w);
      }
    case _ =>
  }

  lemma {:induction false} HoldsFor(c: Setting, s: Whole, w: nat, file: G.Name)
    requires Holds(c, s)
    ensures WriterKnown(c, s, w) && FileKnown(c, s, file)
  {
    hide M.SysInv, G.Inv, InTime, OwnOpenings, WriterKnown, FileKnown;
  }

  lemma {:induction false} ActivePresent(c: Setting, s: Whole, stream: nat)
    requires Holds(c, s) && stream in s.gc.active
    ensures c.pathOf(s.gc.active[stream]) in s.index.fs
  {
    hide M.SysInv, G.OpeningHolds, G.CollectionHolds;
    assert FileKnown(c, s, s.gc.active[stream]);
  }

  lemma {:induction false} RemovalResting(c: Setting, s: Whole, file: G.Name)
    requires Holds(c, s) && Can(c, s, Remove(file))
    ensures s.index.phase.Resting? && c.pathOf(file) in s.index.fs
  {
    hide M.SysInv, G.Inv;
    assert FileKnown(c, s, file);
  }

  /** What an action means to collection is something collection's own machine can do. */
  lemma {:induction false} CollectionSideActs(c: Setting, s: Whole, a: Action)
    requires Holds(c, s) && Can(c, s, a)
    ensures var side := CollectionSide(s, a);
      && (side.Some? ==>
            && G.CanAct(s.gc, side.value, c.delay)
            && CollectionAfter(c, s, a) == G.Act(s.gc, side.value, c.retention))
      && (side.None? ==> CollectionAfter(c, s, a) == s.gc)
  {
    hide M.SysInv, G.Inv, FileKnown, AppendsTo, BeingStarted, G.Act;
    if a.FinishStart? || a.Abort? {
      assert WriterKnown(c, s, a.writer);
    }
  }

  // ---------------------------------------------------------------- what every action keeps

  lemma {:induction false} KeepsInTime(c: Setting, s: Whole, a: Action)
    requires Holds(c, s) && Can(c, s, a)
    ensures InTime(c, CollectionAfter(c, s, a)) && OwnOpenings(RolesAfter(s, a))
  {
    hide M.SysInv, G.Inv, FileKnown, AppendsTo, BeingStarted;
    if a.CreateFile? {
      forall w | w in s.roles ensures s.roles[w] != Starting(a.opening) {
        assert WriterKnown(c, s, w);
      }
    }
  }

  lemma {:induction false} KeepsResting(c: Setting, s: Whole, a: Action)
    requires Holds(c, s) && Can(c, s, a)
    ensures !CollectionAfter(c, s, a).collection.Idle? ==> IndexAfter(c, s, a).phase.Resting?
  {
    hide M.SysInv, G.Inv, FileKnown, WriterKnown, AppendsTo, BeingStarted, M.Act;
  }

  /** Actions by which a writer takes up or puts down a file. */
  predicate WriterComesOrGoes(a: Action) {
    a.CreateFile? || a.BeginAppend? || a.FinishAppend? || a.FinishStart? || a.Abort?
  }

  lemma {:induction false} ComingKeepsWriter(c: Setting, s: Whole, a: Action, w: nat)
    requires Holds(c, s) && Can(c, s, a) && (a.CreateFile? || a.BeginAppend?)
    ensures WriterKnown(c, After(c, s, a), w)
  {
    hide M.SysInv, G.Inv, FileKnown, InTime, OwnOpenings, AppendsTo, BeingStarted, M.Act, M.CanAct, G.StartedAt;
    assert WriterKnown(c, s, w);
  }

  lemma {:induction false} GoingKeepsWriter(c: Setting, s: Whole, a: Action, w: nat)
    requires Holds(c, s) && Can(c, s, a) && (a.FinishAppend? || a.FinishStart? || a.Abort?)
    ensures WriterKnown(c, After(c, s, a), w)
  {
    hide M.SysInv, G.Inv, FileKnown, InTime, BeingStarted, M.Act, M.CanAct;
    assert WriterKnown(c, s, w) && WriterKnown(c, s, a.writer);
    if a.FinishStart? {
      assert w in s.roles && s.roles[w].Appending? ==> s.roles[w].stream != a.stream;
    }
  }

  lemma {:induction false} KeepsWriter(c: Setting, s: Whole, a: Action, w: nat)
    requires Holds(c, s) && Can(c, s, a)
    ensures WriterKnown(c, After(c, s, a), w)
  {
    hide M.SysInv, G.Inv, FileKnown, InTime, OwnOpenings, M.Act, M.CanAct;
    if a.CreateFile? || a.BeginAppend? {
      ComingKeepsWriter(c, s, a, w);
    } else if WriterComesOrGoes(a) {
      GoingKeepsWriter(c, s, a, w);
    } else {
      assert WriterKnown(c, s, w);
      if a.Index? {
        IndexerKeepsFiles(c.reader, s.index, a.action);
      } else if a.Deactivate? {
        assert w in s.roles && s.roles[w].Appending? ==> s.roles[w].stream != a.stream;
      } else if a.GiveUp? {
        assert w in s.roles && s.roles[w].Starting? ==> s.roles[w].opening != a.opening;
      }
    }
  }

  /** The indexer's own actions leave files and writers alone and give rows to present files only. */
  lemma {:induction false} IndexerKeepsFiles(r: Reader, x: M.System, a: M.Action)
    requires IndexerAction(a) && M.CanAct(x, a)
    ensures M.Act(r, x, a).fs == x.fs && M.Act(r, x, a).writers == x.writers
  {
    hide IngestFile, Cleanup;
  }

  lemma {:induction false} IndexerKeepsRows(r: Reader, x: M.System, a: M.Action, path: Path)
    requires M.SysInv(r, x) && IndexerAction(a) && M.CanAct(x, a)
    requires path in M.Act(r, x, a).tables.files
    ensures path in x.tables.files || path in x.fs
  {
    hide M.NotLost, M.Counted, Inv, IngestFile, Cleanup;
    if a.Commit? {
      if path != x.phase.path {
        NewRowsOnlyForPass(r, M.Archive(x), Pass(x.phase.path, x.phase.size, x.phase.content), path);
      }
    } else if a.CleanUp? {
      CleanupFiles(x.tables, x.fs.Keys, path);
    }
  }

  lemma {:induction false} RemovalKeepsFile(c: Setting, s: Whole, removed: G.Name, file: G.Name)
    requires Suits(c) && Holds(c, s) && Can(c, s, Remove(removed))
    ensures FileKnown(c, After(c, s, Remove(removed)), file)
  {
    hide M.SysInv, G.OpeningHolds, InTime, OwnOpenings, WriterKnown, G.StartedAt;
    assert FileKnown(c, s, file);
  }

  lemma {:induction false} KeepsFile(c: Setting, s: Whole, a: Action, file: G.Name)
    requires Suits(c) && Holds(c, s) && Can(c, s, a)
    ensures FileKnown(c, After(c, s, a), file)
  {
    hide M.SysInv, G.Inv, InTime, OwnOpenings, AppendsTo, BeingStarted, M.Act, M.CanAct, G.StartedAt, WriterKnown;
    if a.Remove? {
      RemovalKeepsFile(c, s, a.file, file);
    } else {
      assert FileKnown(c, s, file);
      if a.Index? {
        IndexerKeepsFiles(c.reader, s.index, a.action);
        if c.pathOf(file) in After(c, s, a).index.tables.files {
          IndexerKeepsRows(c.reader, s.index, a.action, c.pathOf(file));
        }
      }
    }
  }

  /** Every action of the whole system keeps its invariant. */
  lemma {:induction false} ActionKeeps(c: Setting, s: Whole, a: Action)
    requires Suits(c) && Holds(c, s) && Can(c, s, a)
    ensures Holds(c, After(c, s, a))
  {
    hide M.SysInv, G.Inv, InTime, OwnOpenings, FileKnown, WriterKnown, Suits, Can, IndexAfter, CollectionAfter, RolesAfter;
    IndexSideActs(c, s, a);
    CollectionSideActs(c, s, a);
    if IndexSide(c, s, a).Some? {
      M.ActKeeps(c.reader, s.index, IndexSide(c, s, a).value);
    }
    if CollectionSide(s, a).Some? {
      EnoughRetention(c);
      G.ActKeeps(s.gc, CollectionSide(s, a).value, c.retention, c.delay);
    }
    KeepsInTime(c, s, a);
    KeepsResting(c, s, a);
    forall file ensures FileKnown(c, After(c, s, a), file) {
      KeepsFile(c, s, a, file);
    }
    forall w ensures WriterKnown(c, After(c, s, a), w) {
      KeepsWriter(c, s, a, w);
    }
  }

  lemma {:induction false} EnoughRetention(c: Setting)
    requires Suits(c)
    ensures c.retention >= c.delay + G.SECOND - 1
  {
  }

  // ---------------------------------------------------------------- runs of the whole system

  ghost predicate Runs(c: Setting, states: seq<Whole>, actions: seq<Action>) {
    && |states| == |actions| + 1
    && forall i :: 0 <= i < |actions| ==> Can(c, states[i], actions[i]) && states[i + 1] == After(c, states[i], actions[i])
  }

  /** Nothing is being named, written, indexed or collected. Rows may be left of files that an earlier process
    * removed for their age. */
  ghost predicate Begins(c: Setting, s: Whole) {
    M.Starts(c.reader, s.index) && G.Starts(s.gc) && s.roles == map[] && forall file :: FileKnown(c, s, file)
  }

  lemma {:induction false} BeginsHolds(c: Setting, s: Whole)
    requires Begins(c, s)
    ensures Holds(c, s)
  {
    hide M.Starts, M.SysInv, FileKnown;
    M.StartHolds(c.reader, s.index);
    G.StartHolds(s.gc, c.retention, c.delay);
    StartIsEmpty(c.reader, s.index);
  }

  lemma {:induction false} StartIsEmpty(r: Reader, x: M.System)
    requires M.Starts(r, x)
    ensures x.writers == map[] && x.phase.Resting?
  {
  }

  lemma {:induction false} RunKeeps(c: Setting, states: seq<Whole>, actions: seq<Action>, n: nat)
    requires Suits(c) && Runs(c, states, actions) && Begins(c, states[0]) && n < |states|
    ensures Holds(c, states[n])
  {
    hide Suits, Holds, Begins, Can, After;
    if n == 0 {
      BeginsHolds(c, states[0]);
    } else {
      RunKeeps(c, states, actions, n - 1);
      ActionKeeps(c, states[n - 1], actions[n - 1]);
    }
  }

  /** With enough retention, in every reachable state of the whole system every active file exists, no complete line
    * is forgotten, a file that collection may remove is not being written, and a file about to be created neither
    * exists nor has rows. */
  lemma {:induction false} WholeSystemIsSafe(
      c: Setting, states: seq<Whole>, actions: seq<Action>, n: nat, stream: nat, path: Path, file: G.Name, w: nat, o: nat,
      tag: nat)
    requires Suits(c) && Runs(c, states, actions) && Begins(c, states[0]) && n < |states|
    ensures var s := states[n];
      && (stream in s.gc.active ==> c.pathOf(s.gc.active[stream]) in s.index.fs)
      && M.NotLost(c.reader, s.index, path)
      && (Can(c, s, Remove(file)) && w in s.index.writers ==> s.index.writers[w].path != c.pathOf(file))
      && (Can(c, s, CreateFile(o, tag, w)) ==>
            var created := c.pathOf(G.Name(G.StartedAt(s.gc.openings[o].at), tag));
            created !in s.index.fs && created !in s.index.tables.files)
  {
    hide Suits, Holds, Begins, After, M.NotLost, Runs, G.StartedAt, G.Able;
    RunKeeps(c, states, actions, n);
    var s := states[n];
    NothingForgotten(c, s, path);
    if stream in s.gc.active {
      ActivePresent(c, s, stream);
    }
    if Can(c, s, Remove(file)) && w in s.index.writers {
      RemovedIsNotWritten(c, s, file, w);
    }
    if Can(c, s, CreateFile(o, tag, w)) {
      CreatedHasNoRows(c, s, o, tag, w);
    }
  }

  lemma {:induction false} NothingForgotten(c: Setting, s: Whole, path: Path)
    requires Holds(c, s)
    ensures M.NotLost(c.reader, s.index, path)
  {
    hide G.Inv, FileKnown, WriterKnown, M.NotLost;
  }

  /** What an action means to the indexer, wherever it means anything, is as `ok` says. */
  ghost predicate IndexerOnly(
      c: Setting, states: seq<Whole>, actions: seq<Action>, n: nat, ok: (M.System, M.Action) -> bool) {
    && n <= |actions| < |states|
    && forall i :: 0 <= i < n ==>
      var side := IndexSide(c, states[i], actions[i]); side.Some? ==> ok(states[i].index, side.value)
  }

  /** Leaving out what concerns collection alone, a run of the whole system is a run of writers and indexer, made of
    * the same actions. */
  lemma {:induction false} IndexerRun(
      c: Setting, states: seq<Whole>, actions: seq<Action>, n: nat, ok: (M.System, M.Action) -> bool)
    returns (systems: seq<M.System>, steps: seq<M.Action>)
    requires Suits(c) && Runs(c, states, actions) && Begins(c, states[0]) && n < |states|
    requires IndexerOnly(c, states, actions, n, ok)
    ensures SystemRun(c.reader, systems, steps) && forall i :: 0 <= i < |steps| ==> ok(systems[i], steps[i])
    ensures systems[0] == states[0].index && systems[|steps|] == states[n].index
  {
    hide Suits, Holds, Can, IndexAfter, CollectionAfter, RolesAfter, M.CanAct, M.Act, M.NotWrapped, M.Starts;
    if n == 0 {
      systems, steps := [states[0].index], [];
    } else {
      systems, steps := IndexerRun(c, states, actions, n - 1, ok);
      RunKeeps(c, states, actions, n - 1);
      IndexSideActs(c, states[n - 1], actions[n - 1]);
      var side := IndexSide(c, states[n - 1], actions[n - 1]);
      if side.Some? {
        M.RunsOneMore(c.reader, systems, steps, side.value);
        systems, steps := systems + [states[n].index], steps + [side.value];
      }
    }
  }

  /** The whole system, garbage collection included, over a key that only one file can have: whenever it comes to
    * rest, its index shows under the key what a rebuild would show. */
  lemma {:induction false} CollisionFreeWholeEqualsRebuild(
      c: Setting, states: seq<Whole>, actions: seq<Action>, n: nat, paths: set<Path>, order: seq<Path>, key: Key)
    requires Suits(c) && Runs(c, states, actions) && Begins(c, states[0]) && n < |states|
    requires Within(M.Archive(states[0].index), paths) && Uncontested(c.reader, paths, key)
    requires IndexerOnly(c, states, actions, n, (x: M.System, a: M.Action) => a.Open? ==> a.path in paths)
    requires Faithful(c.reader, M.Archive(states[0].index), key)
    requires M.Quiescent(states[n].index) && forall path :: path in order <==> path in states[n].index.fs
    ensures var x := states[n].index;
      Shows(x.tables, key) == Shows(Rebuilt(c.reader, x.fs, order).tables, key)
  {
    hide Suits, Begins, Runs, IndexerOnly, Within, Uncontested, Faithful, M.Quiescent, Shows, Rebuilt, SystemRun;
    var within := (x: M.System, a: M.Action) => a.Open? ==> a.path in paths;
    var systems, steps := IndexerRun(c, states, actions, n, within);
    RunShape(c.reader, systems, steps);
    assert OpensWithin(steps, paths) by {
      assert forall i :: 0 <= i < |steps| ==> within(systems[i], steps[i]);
    }
    CollisionFreeSystemEqualsRebuild(c.reader, systems, steps, |steps|, paths, order, key);
  }

  /** The whole system over files that are first indexed with an EIT present record, colliding or not, with garbage
    * collection: at rest the index equals a rebuild under every key of which collection has removed no file or has
    * left none. */
  lemma {:induction false} EitFirstWholeEqualsRebuild(
      c: Setting, states: seq<Whole>, actions: seq<Action>, n: nat, order: seq<Path>, key: Key)
    requires Suits(c) && Runs(c, states, actions) && Begins(c, states[0]) && n < |states|
    requires
      || (IndexerOnly(c, states, actions, n, (x: M.System, a: M.Action) => EitFirstAction(c.reader, x, a, key))
          && EveryRowOwns(c.reader, M.Archive(states[0].index), key) && Faithful(c.reader, M.Archive(states[0].index), key))
      || NoneLeft(c.reader, M.Archive(states[n].index), key)
    requires M.Quiescent(states[n].index) && forall path :: path in order <==> path in states[n].index.fs
    ensures var x := states[n].index;
      Shows(x.tables, key) == Shows(Rebuilt(c.reader, x.fs, order).tables, key)
  {
    hide Suits, Begins, Runs, IndexerOnly, EitFirstAction, EveryRowOwns, Faithful, M.Quiescent, Shows, Rebuilt, SystemRun;
    var first := (x: M.System, a: M.Action) => EitFirstAction(c.reader, x, a, key);
    var any := (x: M.System, a: M.Action) => true;
    var systems: seq<M.System>, steps: seq<M.Action>;
    if NoneLeft(c.reader, M.Archive(states[n].index), key) {
      AnythingGoes(c, states, actions, n);
      systems, steps := IndexerRun(c, states, actions, n, any);
    } else {
      systems, steps := IndexerRun(c, states, actions, n, first);
      RunShape(c.reader, systems, steps);
      assert forall i :: 0 <= i < |steps| ==> first(systems[i], steps[i]);
    }
    RunShape(c.reader, systems, steps);
    EitFirstSystemEqualsRebuild(c.reader, systems, steps, |steps|, order, key);
  }

  lemma {:induction false} AnythingGoes(c: Setting, states: seq<Whole>, actions: seq<Action>, n: nat)
    requires Runs(c, states, actions) && n < |states|
    ensures IndexerOnly(c, states, actions, n, (x: M.System, a: M.Action) => true)
  {
  }
}
