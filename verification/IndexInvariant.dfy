/** What an ingest pass keeps: how the tables hang together, what a row says about the bytes read so far,
  * and which other rows a pass may touch. */
module IndexInvariant {
  import opened Lines
  import opened TextOrder
  import opened SearchTables
  import opened Wrappers

  /** The last EIT present record of `lines`: it describes the program. */
  function LastEit(r: Reader, lines: seq<Bytes>): Option<Eit> {
    if lines == [] then None
    else
      var record := RecordOf(r, lines[|lines| - 1]);
      if record.EitPresent? then Some(record.eit) else LastEit(r, lines[..|lines| - 1])
  }

  /** The caption rows `lines` amount to: every caption after the first EIT present record. */
  function CaptionRows(r: Reader, lines: seq<Bytes>): map<nat, CaptionLine> {
    if lines == [] then map[]
    else
      var init := lines[..|lines| - 1];
      var record := RecordOf(r, lines[|lines| - 1]);
      if record.CaptionRecord? && LastEit(r, init).Some? then
        CaptionRows(r, init)[|lines| := CaptionLine(|Unlines(init)|, record.caption, r.indexText(record.caption.text))]
      else CaptionRows(r, init)
  }

  /** `pid` and the rows it refers to are exactly what `lines` of `path` amount to. */
  ghost predicate Mirrors(r: Reader, t: Tables, location: Location, path: Path, pid: Option<nat>, lines: seq<Bytes>) {
    var eit := LastEit(r, lines);
    && (pid.Some? <==> eit.Some?)
    && (pid.Some? && eit.Some? ==>
          && pid.value in t.programs
          && t.programs[pid.value] == ProgramRow(r, location, path, eit.value.metadata)
          && pid.value in t.genres
          && t.genres[pid.value] == GenreSet(eit.value.genres)
          && CaptionsOf(t.captions, pid.value) == CaptionRows(r, lines))
  }

  ghost predicate RowsLocated(r: Reader, programs: map<nat, Program>) {
    forall id :: id in programs ==> r.locate(programs[id].path) == Some(programs[id].location)
  }

  function ProgramIdOf(files: map<Path, IndexedFile>, path: Path): Option<nat> {
    if path in files then files[path].programId else None
  }

  /** A file row points to the program with that same path, and to none when there is none. */
  ghost predicate ProgramIdsMatch(files: map<Path, IndexedFile>, byPath: map<Path, nat>, lagging: Option<Path>) {
    forall q :: lagging != Some(q) ==> ProgramIdOf(files, q) == Lookup(byPath, q)
  }

  ghost predicate DuplicatesPointNowhere(files: map<Path, IndexedFile>) {
    forall q :: q in files && files[q].status == Duplicate ==> files[q].programId.None?
  }

  ghost predicate ProgramsConsistent(r: Reader, t: Tables) {
    && IndexesMatch(t.programs, t.byPath, t.byKey)
    && RowsLocated(r, t.programs)
    && t.genres.Keys == t.programs.Keys
    && t.captions.Keys <= t.programs.Keys
  }

  /** How the tables hang together, except that the file row of one path may lag behind. */
  ghost predicate ConsistentBut(r: Reader, t: Tables, lagging: Option<Path>) {
    && ProgramsConsistent(r, t)
    && ProgramIdsMatch(t.files, t.byPath, lagging)
    && DuplicatesPointNowhere(t.files)
  }

  ghost predicate Consistent(r: Reader, t: Tables) {
    ConsistentBut(r, t, None)
  }

  ghost predicate SameProgram(t: Tables, t': Tables, id: nat) {
    && id in t.programs && id in t'.programs && t'.programs[id] == t.programs[id]
    && id in t.genres && id in t'.genres && t'.genres[id] == t.genres[id]
    && CaptionsOf(t'.captions, id) == CaptionsOf(t.captions, id)
  }

  ghost predicate FrameAt(t: Tables, t': Tables, q: Path) {
    && (q in t.files <==> q in t'.files)
    && (q in t.files ==>
          || (t'.files[q] == t.files[q]
              && (t.files[q].programId.Some? ==> SameProgram(t, t', t.files[q].programId.value)))
          || (t.files[q].programId.Some? && t'.files[q].status == Duplicate && t'.files[q].programId.None?))
  }

  /** A pass over `path` leaves another path's row and program alone, or takes the program from it and turns
    * the row into a duplicate. */
  ghost predicate Frame(t: Tables, t': Tables, path: Path) {
    forall q :: q != path ==> FrameAt(t, t', q)
  }

  lemma {:induction false} FrameTransitive(t0: Tables, t1: Tables, t2: Tables, path: Path)
    requires Frame(t0, t1, path) && Frame(t1, t2, path)
    ensures Frame(t0, t2, path)
  {
    forall q | q != path ensures FrameAt(t0, t2, q) {
      assert FrameAt(t0, t1, q) && FrameAt(t1, t2, q);
    }
  }

  // ---------------------------------------------------------------- one EIT present record

  /** The row an upsert lands on, whichever conflict clause applies. */
  ghost predicate IsTarget(t: Tables, path: Path, key: Key, id: nat) {
    if id in t.programs then
      && Lookup(t.byKey, key) == Some(id)
      && (path in t.byPath ==> t.byPath[path] == id)
    else key !in t.byKey && path !in t.byPath
  }

  function PathsAfter(programs: map<nat, Program>, byPath: map<Path, nat>, id: nat, path: Path): map<Path, nat> {
    (if id in programs then byPath - {programs[id].path} else byPath)[path := id]
  }

  ghost predicate TakesOver(t: Tables, path: Path, id: nat) {
    id in t.programs && t.programs[id].path != path
  }

  ghost function Put(t: Tables, path: Path, key: Key, id: nat, row: Program, genres: set<Genre>): Tables {
    Tables(
      t.programs[id := row],
      PathsAfter(t.programs, t.byPath, id, path),
      t.byKey[key := id],
      t.genres[id := genres],
      if TakesOver(t, path, id) then t.captions - {id} else t.captions,
      if TakesOver(t, path, id) then DemoteToDuplicate(t.files, t.programs[id].path) else t.files)
  }

  ghost function UpsertOf(r: Reader, t: Tables, location: Location, path: Path, id: nat, eit: Eit): Progress {
    Progress(Put(t, path, KeyOf(location), id, ProgramRow(r, location, path, eit.metadata), GenreSet(eit.genres)), Some(id))
  }

  /** The path has a program already: both conflict clauses name its row. */
  lemma {:induction false} UpsertOnPath(r: Reader, t: Tables, location: Location, path: Path, id: nat, eit: Eit)
    requires Lookup(t.byPath, path) == Some(id) && Lookup(t.byKey, KeyOf(location)) == Some(id)
    requires id in t.programs && t.programs[id].path == path && t.programs[id].location == location
    ensures UpsertProgram(r, t, location, path, eit) == UpsertOf(r, t, location, path, id, eit)
  {
    assert t.byKey[KeyOf(location) := id] == t.byKey;
    assert (t.byPath - {path})[path := id] == t.byPath;
  }

  /** Another path holds the key: its row moves over. */
  lemma {:induction false} UpsertOnKey(r: Reader, t: Tables, location: Location, path: Path, id: nat, eit: Eit)
    requires path !in t.byPath && Lookup(t.byKey, KeyOf(location)) == Some(id)
    requires id in t.programs && t.programs[id].path != path
    ensures UpsertProgram(r, t, location, path, eit) == UpsertOf(r, t, location, path, id, eit)
  {
    assert t.byKey[KeyOf(location) := id] == t.byKey;
  }

  lemma {:induction false} UpsertNew(r: Reader, t: Tables, location: Location, path: Path, eit: Eit)
    requires path !in t.byPath && KeyOf(location) !in t.byKey
    ensures NextRowid(t.programs.Keys) !in t.programs
    ensures UpsertProgram(r, t, location, path, eit) == UpsertOf(r, t, location, path, NextRowid(t.programs.Keys), eit)
  {
  }

  lemma {:induction false} UpsertIsPut(r: Reader, t: Tables, location: Location, path: Path, eit: Eit) returns (id: nat)
    requires ConsistentBut(r, t, Some(path)) && r.locate(path) == Some(location)
    ensures IsTarget(t, path, KeyOf(location), id)
    ensures UpsertProgram(r, t, location, path, eit) ==
      Progress(Put(t, path, KeyOf(location), id, ProgramRow(r, location, path, eit.metadata), GenreSet(eit.genres)), Some(id))
  {
    hide UpsertProgram, Put, ProgramRow;
    if path in t.byPath {
      id := t.byPath[path];
      assert t.programs[id].location == location;
      UpsertOnPath(r, t, location, path, id, eit);
    } else if KeyOf(location) in t.byKey {
      id := t.byKey[KeyOf(location)];
      UpsertOnKey(r, t, location, path, id, eit);
    } else {
      id := NextRowid(t.programs.Keys);
      UpsertNew(r, t, location, path, eit);
    }
  }

  /** One unique index: every row is found under its own name, and every entry leads to a row of that name. */
  ghost predicate IndexMatches<K>(names: map<nat, K>, index: map<K, nat>) {
    && (forall id :: id in names ==> Lookup(index, names[id]) == Some(id))
    && (forall k :: k in index ==> index[k] in names && names[index[k]] == k)
  }

  /** Writing a row under a name no other row has. */
  lemma {:induction false} PutKeepsIndex<K>(names: map<nat, K>, index: map<K, nat>, id: nat, name: K)
    requires IndexMatches(names, index) && (name in index ==> index[name] == id)
    ensures IndexMatches(names[id := name], (if id in names then index - {names[id]} else index)[name := id])
  {
    forall i | i in names && i != id ensures names[i] != name && (id in names ==> names[i] != names[id]) {
      assert Lookup(index, names[i]) == Some(i);
    }
  }

  function ProgramPaths(programs: map<nat, Program>): map<nat, Path> {
    map id | id in programs :: programs[id].path
  }

  function ProgramKeys(programs: map<nat, Program>): map<nat, Key> {
    map id | id in programs :: KeyOf(programs[id].location)
  }

  lemma {:induction false} IndexesSplit(programs: map<nat, Program>, byPath: map<Path, nat>, byKey: map<Key, nat>)
    ensures IndexesMatch(programs, byPath, byKey) <==>
      IndexMatches(ProgramPaths(programs), byPath) && IndexMatches(ProgramKeys(programs), byKey)
  {
  }

  lemma {:induction false} NamesAfter(programs: map<nat, Program>, id: nat, row: Program)
    ensures ProgramPaths(programs[id := row]) == ProgramPaths(programs)[id := row.path]
    ensures ProgramKeys(programs[id := row]) == ProgramKeys(programs)[id := KeyOf(row.location)]
    ensures id in programs ==> id in ProgramPaths(programs) && ProgramPaths(programs)[id] == programs[id].path
    ensures id in ProgramPaths(programs) <==> id in programs
    ensures id in ProgramKeys(programs) <==> id in programs
  {
  }

  lemma {:induction false} PutKeepsIndexes(
      programs: map<nat, Program>, byPath: map<Path, nat>, byKey: map<Key, nat>, path: Path, key: Key, id: nat, row: Program)
    requires IndexesMatch(programs, byPath, byKey)
    requires row.path == path && KeyOf(row.location) == key
    requires if id in programs then Lookup(byKey, key) == Some(id) && (path in byPath ==> byPath[path] == id)
             else key !in byKey && path !in byPath
    ensures IndexesMatch(programs[id := row], PathsAfter(programs, byPath, id, path), byKey[key := id])
  {
    hide IndexesMatch, IndexMatches, ProgramPaths, ProgramKeys;
    IndexesSplit(programs, byPath, byKey);
    PutKeepsIndex(ProgramPaths(programs), byPath, id, path);
    PutKeepsIndex(ProgramKeys(programs), byKey, id, key);
    NamesAfter(programs, id, row);
    if id in programs {
      KeyUnchanged(programs, byKey, id, key, ProgramKeys(programs));
    }
    IndexesSplit(programs[id := row], PathsAfter(programs, byPath, id, path), byKey[key := id]);
  }

  lemma {:induction false} KeyUnchanged(
      programs: map<nat, Program>, byKey: map<Key, nat>, id: nat, key: Key, keys: map<nat, Key>)
    requires id in keys && IndexMatches(keys, byKey) && Lookup(byKey, key) == Some(id)
    ensures (byKey - {keys[id]})[key := id] == byKey[key := id]
  {
  }

  lemma {:induction false} PutKeepsProgramIds(t: Tables, path: Path, key: Key, id: nat)
    requires IndexesMatch(t.programs, t.byPath, t.byKey) && ProgramIdsMatch(t.files, t.byPath, Some(path))
    requires IsTarget(t, path, key, id)
    ensures ProgramIdsMatch(
      if TakesOver(t, path, id) then DemoteToDuplicate(t.files, t.programs[id].path) else t.files,
      PathsAfter(t.programs, t.byPath, id, path), Some(path))
  {
  }

  /** Where another path's row points before an upsert: to its own program, which the upsert takes over or leaves. */
  lemma {:induction false} OtherProgramId(t: Tables, path: Path, key: Key, id: nat, q: Path)
    requires IndexesMatch(t.programs, t.byPath, t.byKey) && ProgramIdsMatch(t.files, t.byPath, Some(path))
    requires IsTarget(t, path, key, id) && q != path && q in t.files && t.files[q].programId.Some?
    ensures var i := t.files[q].programId.value;
      && i in t.programs && t.programs[i].path == q
      && (i == id <==> TakesOver(t, path, id) && t.programs[id].path == q)
  {
    assert ProgramIdOf(t.files, q) == Lookup(t.byPath, q);
  }

  lemma {:induction false} PutFrameAt(t: Tables, path: Path, key: Key, id: nat, row: Program, genres: set<Genre>, q: Path)
    requires IndexesMatch(t.programs, t.byPath, t.byKey) && ProgramIdsMatch(t.files, t.byPath, Some(path))
    requires t.genres.Keys == t.programs.Keys
    requires IsTarget(t, path, key, id) && q != path
    ensures FrameAt(t, Put(t, path, key, id, row, genres), q)
  {
    hide IndexesMatch, ProgramIdsMatch, PathsAfter;
    if q in t.files && t.files[q].programId.Some? {
      OtherProgramId(t, path, key, id, q);
    } else if q in t.files && TakesOver(t, path, id) {
      NotTakenOver(t, path, key, id, q);
    }
  }

  lemma {:induction false} NotTakenOver(t: Tables, path: Path, key: Key, id: nat, q: Path)
    requires IndexesMatch(t.programs, t.byPath, t.byKey) && ProgramIdsMatch(t.files, t.byPath, Some(path))
    requires TakesOver(t, path, id) && q != path && ProgramIdOf(t.files, q).None?
    ensures t.programs[id].path != q
  {
    assert ProgramIdOf(t.files, q) == Lookup(t.byPath, q);
  }

  /** An EIT present record of `path` at most turns another path's row into a duplicate. */
  lemma {:induction false} PutFrame(t: Tables, path: Path, key: Key, id: nat, row: Program, genres: set<Genre>)
    requires IndexesMatch(t.programs, t.byPath, t.byKey) && ProgramIdsMatch(t.files, t.byPath, Some(path))
    requires t.genres.Keys == t.programs.Keys
    requires IsTarget(t, path, key, id)
    ensures Frame(t, Put(t, path, key, id, row, genres), path)
  {
    forall q | q != path ensures FrameAt(t, Put(t, path, key, id, row, genres), q) {
      PutFrameAt(t, path, key, id, row, genres, q);
    }
  }

  lemma {:induction false} PutKeepsPrograms(
      r: Reader, t: Tables, path: Path, key: Key, id: nat, row: Program, genres: set<Genre>)
    requires ProgramsConsistent(r, t) && r.locate(path) == Some(row.location)
    requires IsTarget(t, path, key, id) && row.path == path && KeyOf(row.location) == key
    ensures ProgramsConsistent(r, Put(t, path, key, id, row, genres))
  {
    hide IndexesMatch, PathsAfter;
    PutKeepsIndexes(t.programs, t.byPath, t.byKey, path, key, id, row);
    assert RowsLocated(r, t.programs[id := row]);
  }

  lemma {:induction false} PutKeeps(r: Reader, t: Tables, path: Path, key: Key, id: nat, row: Program, genres: set<Genre>)
    requires ConsistentBut(r, t, Some(path)) && r.locate(path) == Some(row.location)
    requires IsTarget(t, path, key, id) && row.path == path && KeyOf(row.location) == key
    ensures ConsistentBut(r, Put(t, path, key, id, row, genres), Some(path))
    ensures Lookup(Put(t, path, key, id, row, genres).byPath, path) == Some(id)
  {
    hide IndexesMatch, RowsLocated, ProgramIdsMatch;
    PutKeepsPrograms(r, t, path, key, id, row, genres);
    PutKeepsProgramIds(t, path, key, id);
  }

  /** An EIT present record makes `path` the owner of its key and leaves all else consistent. */
  lemma {:induction false} UpsertKeeps(r: Reader, t: Tables, location: Location, path: Path, eit: Eit)
    requires ConsistentBut(r, t, Some(path)) && r.locate(path) == Some(location)
    ensures var p := UpsertProgram(r, t, location, path, eit);
      && ConsistentBut(r, p.tables, Some(path))
      && Lookup(p.tables.byPath, path) == p.programId
      && Frame(t, p.tables, path)
  {
    var id := UpsertIsPut(r, t, location, path, eit);
    var key, row, genres := KeyOf(location), ProgramRow(r, location, path, eit.metadata), GenreSet(eit.genres);
    PutKeeps(r, t, path, key, id, row, genres);
    PutFrame(t, path, key, id, row, genres);
  }

  lemma {:induction false} PutOwners(t: Tables, path: Path, key: Key, id: nat, row: Program, genres: set<Genre>, k: Key)
    requires IndexesMatch(t.programs, t.byPath, t.byKey) && IsTarget(t, path, key, id) && row.path == path
    ensures OwnerPath(Put(t, path, key, id, row, genres), k) == if k == key then Some(path) else OwnerPath(t, k)
  {
  }

  lemma {:induction false} UpsertOwners(r: Reader, t: Tables, location: Location, path: Path, eit: Eit, k: Key)
    requires ConsistentBut(r, t, Some(path)) && r.locate(path) == Some(location)
    ensures OwnerPath(UpsertProgram(r, t, location, path, eit).tables, k)
      == if k == KeyOf(location) then Some(path) else OwnerPath(t, k)
  {
    var id := UpsertIsPut(r, t, location, path, eit);
    PutOwners(t, path, KeyOf(location), id, ProgramRow(r, location, path, eit.metadata), GenreSet(eit.genres), k);
  }

  /** The row an upsert leaves for `path`: the captions stay if `path` already owned it and are gone otherwise. */
  lemma {:induction false} UpsertWrites(r: Reader, t: Tables, location: Location, path: Path, eit: Eit)
    requires ConsistentBut(r, t, Some(path)) && r.locate(path) == Some(location)
    ensures var p := UpsertProgram(r, t, location, path, eit);
      && p.programId.Some?
      && var id := p.programId.value;
      && (if path in t.byPath then id == t.byPath[path]
          else if KeyOf(location) in t.byKey then id == t.byKey[KeyOf(location)]
          else id !in t.programs)
      && id in p.tables.programs && id in p.tables.genres
      && var row := p.tables.programs[id];
      && row.location == location && row.path == path && row.metadata == eit.metadata
      && row.normalizedTitle == r.indexText(eit.metadata.title)
      && row.normalizedDescription == r.indexText(eit.metadata.description)
      && (forall g :: g in p.tables.genres[id] <==> g in eit.genres)
      && CaptionsOf(p.tables.captions, id) == if path in t.byPath then CaptionsOf(t.captions, id) else map[]
  {
    var id := UpsertIsPut(r, t, location, path, eit);
    if path in t.byPath {
      assert t.programs[id].path == path;
    }
  }

  // ---------------------------------------------------------------- one line

  /** The state between two lines of a pass over `path`. */
  ghost predicate Working(r: Reader, p: Progress, location: Location, path: Path) {
    && r.locate(path) == Some(location)
    && ConsistentBut(r, p.tables, Some(path))
    && Lookup(p.tables.byPath, path) == p.programId
  }

  lemma {:induction false} InsertFrameAt(
      r: Reader, t: Tables, path: Path, id: nat, lineNo: nat, start: nat, caption: Caption, q: Path)
    requires ConsistentBut(r, t, Some(path)) && Lookup(t.byPath, path) == Some(id) && q != path
    ensures FrameAt(t, InsertCaptionLine(r, t, id, lineNo, start, caption), q)
  {
    hide RowsLocated, DuplicatesPointNowhere;
    if q in t.files && t.files[q].programId.Some? {
      assert ProgramIdOf(t.files, q) == Lookup(t.byPath, q);
      assert t.files[q].programId.value != id;
    }
  }

  lemma {:induction false} InsertKeeps(
      r: Reader, p: Progress, location: Location, path: Path, lineNo: nat, start: nat, caption: Caption)
    requires Working(r, p, location, path) && p.programId.Some?
    ensures var t' := InsertCaptionLine(r, p.tables, p.programId.value, lineNo, start, caption);
      && Working(r, Progress(t', p.programId), location, path)
      && Frame(p.tables, t', path)
  {
    var t, id := p.tables, p.programId.value;
    assert id in t.programs && t.programs[id].path == path;
    hide RowsLocated, DuplicatesPointNowhere;
    forall q | q != path ensures FrameAt(t, InsertCaptionLine(r, t, id, lineNo, start, caption), q) {
      InsertFrameAt(r, t, path, id, lineNo, start, caption, q);
    }
    hide IndexesMatch, ProgramIdsMatch, FrameAt;
  }

  lemma {:induction false} FrameSelf(r: Reader, t: Tables, path: Path)
    requires ConsistentBut(r, t, Some(path))
    ensures Frame(t, t, path)
  {
    forall q | q != path ensures FrameAt(t, t, q) {
      assert ProgramIdOf(t.files, q) == Lookup(t.byPath, q);
    }
  }

  lemma {:induction false} FrameReflexive(r: Reader, p: Progress, location: Location, path: Path)
    requires Working(r, p, location, path)
    ensures Frame(p.tables, p.tables, path)
  {
    FrameSelf(r, p.tables, path);
  }

  lemma {:induction false} ApplyLineKeeps(
      r: Reader, p: Progress, location: Location, path: Path, lineNo: nat, start: nat, line: Bytes)
    requires Working(r, p, location, path)
    ensures var p' := ApplyLine(r, p, location, path, lineNo, start, line);
      && Working(r, p', location, path)
      && Frame(p.tables, p'.tables, path)
  {
    hide Frame, ProgramIdsMatch, IndexesMatch, RowsLocated, DuplicatesPointNowhere, UpsertProgram, InsertCaptionLine;
    FrameReflexive(r, p, location, path);
    match RecordOf(r, line)
    case EitPresent(eit) => UpsertKeeps(r, p.tables, location, path, eit);
    case CaptionRecord(caption) =>
      if p.programId.Some? {
        InsertKeeps(r, p, location, path, lineNo, start, caption);
      }
    case Other =>
  }

  lemma {:induction false} ApplyLineOwner(
      r: Reader, p: Progress, location: Location, path: Path, lineNo: nat, start: nat, line: Bytes, key: Key)
    requires Working(r, p, location, path)
    ensures OwnerPath(ApplyLine(r, p, location, path, lineNo, start, line).tables, key)
      == if RecordOf(r, line).EitPresent? && key == KeyOf(location) then Some(path) else OwnerPath(p.tables, key)
  {
    if RecordOf(r, line).EitPresent? {
      UpsertOwners(r, p.tables, location, path, RecordOf(r, line).eit, key);
    }
  }

  lemma {:induction false} NoEitNoCaptions(r: Reader, lines: seq<Bytes>)
    requires LastEit(r, lines).None?
    ensures CaptionRows(r, lines) == map[]
  {
    if lines != [] {
      NoEitNoCaptions(r, lines[..|lines| - 1]);
    }
  }

  lemma {:induction false} DigestSnoc(r: Reader, lines: seq<Bytes>, line: Bytes)
    ensures LastEit(r, lines + [line]) ==
      if RecordOf(r, line).EitPresent? then Some(RecordOf(r, line).eit) else LastEit(r, lines)
    ensures CaptionRows(r, lines + [line]) ==
      if RecordOf(r, line).CaptionRecord? && LastEit(r, lines).Some? then
        CaptionRows(r, lines)[|lines| + 1 := CaptionLine(|Unlines(lines)|, RecordOf(r, line).caption,
          r.indexText(RecordOf(r, line).caption.text))]
      else CaptionRows(r, lines)
  {
    assert (lines + [line])[..|lines|] == lines;
  }

  /** Applying the next line keeps the rows of `path` an exact image of the lines read. */
  lemma {:induction false} ApplyLineMirrors(
      r: Reader, p: Progress, location: Location, path: Path, lines: seq<Bytes>, line: Bytes)
    requires Working(r, p, location, path)
    requires Mirrors(r, p.tables, location, path, p.programId, lines)
    ensures var p' := ApplyLine(r, p, location, path, |lines| + 1, |Unlines(lines)|, line);
      Mirrors(r, p'.tables, location, path, p'.programId, lines + [line])
  {
    DigestSnoc(r, lines, line);
    match RecordOf(r, line)
    case EitPresent(eit) =>
      UpsertWrites(r, p.tables, location, path, eit);
      if p.programId.None? {
        NoEitNoCaptions(r, lines);
      }
    case CaptionRecord(caption) =>
    case Other =>
  }

  // ---------------------------------------------------------------- the lines of one pass

  lemma {:induction false} ApplyLinesKeeps(
      r: Reader, p: Progress, location: Location, path: Path, lineNo: nat, start: nat, lines: seq<Bytes>)
    requires Working(r, p, location, path)
    ensures var p' := ApplyLines(r, p, location, path, lineNo, start, lines);
      && Working(r, p', location, path)
      && Frame(p.tables, p'.tables, path)
  {
    hide Working, Frame, ApplyLine;
    if lines == [] {
      FrameReflexive(r, p, location, path);
    } else {
      var n := |lines| - 1;
      ApplyLinesKeeps(r, p, location, path, lineNo, start, lines[..n]);
      var q := ApplyLines(r, p, location, path, lineNo, start, lines[..n]);
      ApplyLineKeeps(r, q, location, path, lineNo + |lines|, start + |Unlines(lines[..n])|, lines[n]);
      FrameTransitive(p.tables, q.tables, ApplyLines(r, p, location, path, lineNo, start, lines).tables, path);
    }
  }

  lemma {:induction false} ApplyLinesOwner(
      r: Reader, p: Progress, location: Location, path: Path, lineNo: nat, start: nat, lines: seq<Bytes>, key: Key)
    requires Working(r, p, location, path)
    ensures OwnerPath(ApplyLines(r, p, location, path, lineNo, start, lines).tables, key)
      == if LastEit(r, lines).Some? && key == KeyOf(location) then Some(path) else OwnerPath(p.tables, key)
  {
    hide Working, ApplyLine, OwnerPath;
    if lines != [] {
      var n := |lines| - 1;
      ApplyLinesOwner(r, p, location, path, lineNo, start, lines[..n], key);
      ApplyLinesKeeps(r, p, location, path, lineNo, start, lines[..n]);
      ApplyLineOwner(r, ApplyLines(r, p, location, path, lineNo, start, lines[..n]), location, path,
        lineNo + |lines|, start + |Unlines(lines[..n])|, lines[n], key);
    }
  }

  /** Resuming after the lines `before` and applying `lines` leaves the image of both together. */
  lemma {:induction false} ApplyLinesMirrors(
      r: Reader, p: Progress, location: Location, path: Path, before: seq<Bytes>, lines: seq<Bytes>)
    requires Working(r, p, location, path)
    requires Mirrors(r, p.tables, location, path, p.programId, before)
    ensures var p' := ApplyLines(r, p, location, path, |before|, |Unlines(before)|, lines);
      Mirrors(r, p'.tables, location, path, p'.programId, before + lines)
  {
    hide Working, Frame, ApplyLine, Mirrors;
    if lines == [] {
      assert before + lines == before;
    } else {
      var n := |lines| - 1;
      var init := lines[..n];
      ApplyLinesMirrors(r, p, location, path, before, init);
      ApplyLinesKeeps(r, p, location, path, |before|, |Unlines(before)|, init);
      UnlinesAppend(before, init);
      ApplyLineMirrors(r, ApplyLines(r, p, location, path, |before|, |Unlines(before)|, init), location, path,
        before + init, lines[n]);
      assert before + init + [lines[n]] == before + lines;
    }
  }
}
