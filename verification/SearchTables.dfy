/** The search database as tables, and what each statement of an ingest pass does to them
  * (src/search_db/ingest.rs, src/search_db/record.rs and the schema migration). */
module SearchTables {
  import opened Lines
  import opened TextOrder
  import opened Wrappers

  datatype Genre = Genre(contentNibbleLevel1: int, contentNibbleLevel2: int, userNibble1: int, userNibble2: int)

  datatype Metadata = Metadata(
    startTime: Option<string>,
    durationSec: Option<int>,
    title: string,
    description: string,
    version: Option<int>,
    serviceId: Option<int>,
    transportStreamId: Option<int>,
    originalNetworkId: Option<int>,
    eventId: Option<int>)

  datatype Eit = Eit(metadata: Metadata, genres: seq<Genre>)

  datatype Caption = Caption(
    time: Option<string>,
    text: string,
    color: Option<string>,
    pid: Option<int>,
    captionType: Option<string>,
    languageCode: Option<string>,
    durationMs: Option<int>,
    clearScreen: Option<bool>)

  /** A non-empty JSONL line as the indexer sees it. Invalid JSON and every other record type are `Other`. */
  datatype Record = EitPresent(eit: Eit) | CaptionRecord(caption: Caption) | Other

  /** The components of an archive path, with the recording start time parsed from its filename. */
  datatype Location = Location(stream: string, month: string, filename: string, startedAt: string)

  datatype Key = Key(stream: string, startedAt: string)

  /** The parts of the indexer that are kept abstract: path parsing (`None` for a path that is not an
    * archive file), JSON decoding of a non-empty line, and text normalization. */
  datatype Reader = Reader(
    locate: Path -> Option<Location>,
    decode: Bytes -> Record,
    indexText: string -> string)

  datatype Program = Program(
    location: Location,
    path: Path,
    metadata: Metadata,
    normalizedTitle: string,
    normalizedDescription: string)

  datatype CaptionLine = CaptionLine(byteOffset: nat, caption: Caption, normalizedText: string)

  datatype Status = Indexed | Failed | Duplicate

  datatype IndexedFile = IndexedFile(
    programId: Option<nat>,
    sizeBytes: nat,
    indexedOffset: nat,
    indexedLines: nat,
    status: Status)

  /** `byPath` and `byKey` are the unique indexes behind `UNIQUE(path)` and
    * `UNIQUE(stream, recording_started_at)`; `captions` maps a program id to its rows by line number. */
  datatype Tables = Tables(
    programs: map<nat, Program>,
    byPath: map<Path, nat>,
    byKey: map<Key, nat>,
    genres: map<nat, set<Genre>>,
    captions: map<nat, map<nat, CaptionLine>>,
    files: map<Path, IndexedFile>)

  const EMPTY := Tables(map[], map[], map[], map[], map[], map[])

  function KeyOf(location: Location): Key {
    Key(location.stream, location.startedAt)
  }

  function TrimCarriageReturns(line: Bytes): Bytes {
    if line != [] && line[|line| - 1] == CARRIAGE_RETURN then TrimCarriageReturns(line[..|line| - 1]) else line
  }

  function RecordOf(r: Reader, line: Bytes): Record {
    var text := TrimCarriageReturns(line);
    if text == [] then Other else r.decode(text)
  }

  /** A line is decoded without the carriage returns at its end, however many there are, and is nothing if nothing is
    * left. */
  lemma {:induction false} RecordReads(r: Reader, text: Bytes, returnCount: nat)
    requires text == [] || text[|text| - 1] != 13
    ensures RecordOf(r, text + seq(returnCount, i => 13)) == if text == [] then Other else r.decode(text)
  {
    TrimmedTo(text, returnCount);
  }

  lemma {:induction false} TrimmedTo(text: Bytes, n: nat)
    requires text == [] || text[|text| - 1] != 13
    ensures TrimCarriageReturns(text + seq(n, i => 13)) == text
  {
    var line := text + seq(n, i => 13);
    if n > 0 {
      TrimmedTo(text, n - 1);
      assert line[..|line| - 1] == text + seq(n - 1, i => 13);
    } else {
      assert line == text;
    }
  }

  function GenreSet(genres: seq<Genre>): set<Genre> {
    set g | g in genres
  }

  function CaptionsOf(captions: map<nat, map<nat, CaptionLine>>, id: nat): map<nat, CaptionLine> {
    if id in captions then captions[id] else map[]
  }

  function Lookup<K(==), V>(m: map<K, V>, key: K): Option<V> {
    if key in m then Some(m[key]) else None
  }

  /** The unique indexes point at exactly the program rows. */
  ghost predicate IndexesMatch(programs: map<nat, Program>, byPath: map<Path, nat>, byKey: map<Key, nat>) {
    && (forall id :: id in programs ==>
          && Lookup(byPath, programs[id].path) == Some(id)
          && Lookup(byKey, KeyOf(programs[id].location)) == Some(id))
    && (forall path :: path in byPath ==> byPath[path] in programs && programs[byPath[path]].path == path)
    && (forall key :: key in byKey ==> byKey[key] in programs && KeyOf(programs[byKey[key]].location) == key)
  }

  ghost predicate IsNextRowid(ids: set<nat>, next: nat) {
    && next >= 1
    && (forall id :: id in ids ==> id < next)
    && (next == 1 || next - 1 in ids)
  }

  lemma {:induction false} NextRowidExists(ids: set<nat>)
    ensures exists next :: IsNextRowid(ids, next)
  {
    if ids == {} {
      assert IsNextRowid(ids, 1);
    } else {
      var id :| id in ids;
      NextRowidExists(ids - {id});
      var next :| IsNextRowid(ids - {id}, next);
      assert forall other :: other in ids ==> other == id || other in ids - {id};
      assert IsNextRowid(ids, if id >= next then id + 1 else next);
    }
  }

  /** The rowid SQLite gives a new row: one past the largest in use. */
  ghost function NextRowid(ids: set<nat>): (next: nat)
    ensures IsNextRowid(ids, next)
  {
    NextRowidExists(ids);
    var next :| IsNextRowid(ids, next);
    next
  }

  lemma {:induction false} NextRowidUnique(ids: set<nat>, a: nat, b: nat)
    requires IsNextRowid(ids, a) && IsNextRowid(ids, b)
    ensures a == b
  {
    assert a == 1 || a - 1 in ids;
    assert b == 1 || b - 1 in ids;
  }

  /** One past the largest id in use. */
  method AllocateRowid(ids: set<nat>) returns (id: nat)
    ensures id == NextRowid(ids)
  {
    id := 1;
    var rest := ids;
    while rest != {}
      invariant rest <= ids
      invariant IsNextRowid(ids - rest, id)
      decreases rest
    {
      var used :| used in rest;
      if used >= id {
        id := used + 1;
      }
      assert ids - (rest - {used}) == (ids - rest) + {used};
      rest := rest - {used};
    }
    assert ids - {} == ids;
    NextRowidUnique(ids, id, NextRowid(ids));
  }

  function DemoteToDuplicate(files: map<Path, IndexedFile>, path: Path): map<Path, IndexedFile> {
    if path in files then files[path := files[path].(programId := None, status := Duplicate)] else files
  }

  function ProgramRow(r: Reader, location: Location, path: Path, metadata: Metadata): Program {
    Program(location, path, metadata, r.indexText(metadata.title), r.indexText(metadata.description))
  }

  /** The path of the program that holds a key. */
  function OwnerPath(t: Tables, key: Key): Option<Path> {
    if key in t.byKey && t.byKey[key] in t.programs then Some(t.programs[t.byKey[key]].path) else None
  }

  /** Takes the key over from another path, if one holds it: its captions go and it becomes a duplicate. */
  function SupersedeOtherPath(t: Tables, key: Key, path: Path): Tables {
    var owner := OwnerPath(t, key);
    if owner.Some? && owner.value != path then
      t.(captions := t.captions - {t.byKey[key]}, files := DemoteToDuplicate(t.files, owner.value))
    else t
  }

  datatype Progress = Progress(tables: Tables, programId: Option<nat>)

  /** The upsert itself: a conflict on the path keeps the row's location, a conflict on the key moves the
    * row to the new path, and no conflict inserts a row. */
  ghost function WriteProgram(r: Reader, t: Tables, location: Location, path: Path, metadata: Metadata): (Tables, nat) {
    var key := KeyOf(location);
    if path in t.byPath && t.byPath[path] in t.programs then
      var id := t.byPath[path];
      (t.(programs := t.programs[id := ProgramRow(r, t.programs[id].location, path, metadata)]), id)
    else if key in t.byKey && t.byKey[key] in t.programs then
      var id := t.byKey[key];
      (t.(programs := t.programs[id := ProgramRow(r, location, path, metadata)],
          byPath := (t.byPath - {t.programs[id].path})[path := id]), id)
    else
      var id := NextRowid(t.programs.Keys);
      (t.(programs := t.programs[id := ProgramRow(r, location, path, metadata)],
          byPath := t.byPath[path := id],
          byKey := t.byKey[key := id]), id)
  }

  ghost function UpsertProgram(r: Reader, t: Tables, location: Location, path: Path, eit: Eit): Progress {
    var (written, id) := WriteProgram(r, SupersedeOtherPath(t, KeyOf(location), path), location, path, eit.metadata);
    Progress(written.(genres := written.genres[id := GenreSet(eit.genres)]), Some(id))
  }

  function InsertCaptionLine(r: Reader, t: Tables, id: nat, lineNo: nat, byteOffset: nat, caption: Caption): Tables {
    var row := CaptionLine(byteOffset, caption, r.indexText(caption.text));
    t.(captions := t.captions[id := CaptionsOf(t.captions, id)[lineNo := row]])
  }

  ghost function ApplyLine(
      r: Reader, p: Progress, location: Location, path: Path, lineNo: nat, start: nat, line: Bytes): Progress
  {
    match RecordOf(r, line)
    case EitPresent(eit) => UpsertProgram(r, p.tables, location, path, eit)
    case CaptionRecord(caption) =>
      if p.programId.None? then p
      else p.(tables := InsertCaptionLine(r, p.tables, p.programId.value, lineNo, start, caption))
    case Other => p
  }

  /** Applies `lines`, the first of which is line `lineNo + 1` and starts at byte `start`. */
  ghost function ApplyLines(
      r: Reader, p: Progress, location: Location, path: Path, lineNo: nat, start: nat, lines: seq<Bytes>): Progress
  {
    if lines == [] then p
    else
      var init := lines[..|lines| - 1];
      ApplyLine(r, ApplyLines(r, p, location, path, lineNo, start, init), location, path,
        lineNo + |lines|, start + |Unlines(init)|, lines[|lines| - 1])
  }

  /** Whether a path that has no `indexed_files` row loses to the program that holds its key. */
  predicate LosesCollision(t: Tables, location: Location, path: Path) {
    var owner := OwnerPath(t, KeyOf(location));
    owner.Some? && TextLess(path, owner.value)
  }

  /** What is read from a file when reading starts at `offset`. */
  function TailFrom(content: Bytes, offset: nat): Bytes {
    if offset <= |content| then content[offset..] else []
  }

  ghost function IngestTail(r: Reader, t: Tables, location: Location, path: Path, size: nat, content: Bytes): Tables {
    var row := if path in t.files then t.files[path] else IndexedFile(None, 0, 0, 0, Indexed);
    var lines := CompleteLines(TailFrom(content, row.indexedOffset));
    var done := ApplyLines(r, Progress(t, row.programId), location, path, row.indexedLines, row.indexedOffset, lines);
    done.tables.(files := done.tables.files[path :=
      IndexedFile(done.programId, size, row.indexedOffset + |Unlines(lines)|, row.indexedLines + |lines|, Indexed)])
  }

  /** One committed ingest transaction for `path`, whose size was taken before `content` was read. */
  ghost function IngestFile(r: Reader, t: Tables, path: Path, size: nat, content: Bytes): Tables {
    if r.locate(path).None? then t
    else
      var location := r.locate(path).value;
      if path in t.files && t.files[path].status != Indexed then t
      else if path !in t.files && LosesCollision(t, location, path) then
        t.(files := t.files[path := IndexedFile(None, size, 0, 0, Duplicate)])
      else if path in t.files && size < t.files[path].indexedOffset then
        t.(files := t.files[path := t.files[path].(sizeBytes := size, status := Failed)])
      else if path in t.files && size == t.files[path].indexedOffset then t
      else IngestTail(r, t, location, path, size, content)
  }

  function Unreferenced(row: IndexedFile, gone: set<nat>): IndexedFile {
    if row.programId.Some? && row.programId.value in gone then row.(programId := None) else row
  }

  /** Deletes the program and file rows of `path`. Dependent rows cascade, and a reference to a deleted
    * program becomes null. */
  function DeletePath(t: Tables, path: Path): Tables {
    if path in t.byPath && t.byPath[path] in t.programs then
      var id := t.byPath[path];
      Tables(t.programs - {id}, t.byPath - {path}, t.byKey - {KeyOf(t.programs[id].location)}, t.genres - {id},
        t.captions - {id}, map q | q in t.files && q != path :: Unreferenced(t.files[q], {id}))
    else t.(files := t.files - {path})
  }

  ghost function Gone(programs: map<nat, Program>, present: set<Path>): set<nat> {
    set id | id in programs && programs[id].path !in present
  }

  function Without<K>(index: map<K, nat>, gone: set<nat>): map<K, nat> {
    map key | key in index && index[key] !in gone :: index[key]
  }

  function KeptFiles(files: map<Path, IndexedFile>, present: set<Path>, gone: set<nat>): map<Path, IndexedFile> {
    map path | path in files && path in present :: Unreferenced(files[path], gone)
  }

  /** The same for every indexed path that is not `present` any more. */
  ghost function Cleanup(t: Tables, present: set<Path>): Tables {
    var gone := Gone(t.programs, present);
    Tables(t.programs - gone, Without(t.byPath, gone), Without(t.byKey, gone), t.genres - gone, t.captions - gone,
      KeptFiles(t.files, present, gone))
  }
}
