/** Recording upstream lines into archive files (src/archive.rs): which file a line goes to, when a new file
  * starts, what is skipped, and which paths are marked for the indexer. */
module Recording {
  import opened Lines
  import opened Sets
  import opened TextOrder
  import opened Wrappers
  import Timestamps

  datatype ProgramKey = ProgramKey(
    serviceId: Option<nat>,
    transportStreamId: Option<nat>,
    originalNetworkId: Option<nat>,
    eventId: Option<nat>,
    startTime: Option<int>)

  /** An upstream line after JSON parsing, which is kept abstract. */
  datatype Parsed = InvalidJson | PresentEit(program: ProgramKey, title: string) | OtherJson

  datatype ArchiveEvent = ProgramStarted(path: Path) | SkippedNoProgram | SkippedInvalidJson

  datatype IoError = OpenFailed | WriteFailed

  type Reply = Result<Option<ArchiveEvent>, IoError>

  /** A line after its first critical section: answered, or a new file written that is to become active. */
  datatype Progress = Answered(reply: Reply) | Created(file: Active)

  /** How the file system answers a line: it takes it, creates no file, or breaks off before the newline. */
  datatype Io = Works | NoFile | BreaksOff(at: nat)

  datatype Active = Active(program: ProgramKey, path: Path)

  /** `directory` and `stem` stand for the sanitized directory of a stream and month and for the recording time
    * and title in front of a filename's suffix. */
  datatype Recorder = Recorder(
    parse: Bytes -> Parsed,
    directory: (string, int) -> string,
    stem: (int, string) -> string)

  datatype Store = Store(files: map<Path, Bytes>, active: map<string, Active>, dirty: map<Path, nat>)

  /** Generations are 64-bit counters that wrap around. */
  const GENERATIONS: nat := 0x1_0000_0000_0000_0000

  // ---------------------------------------------------------------- fresh file names

  function Digit(d: nat): char
    requires d < 10
  {
    "0123456789"[d]
  }

  function Decimal(n: nat): (s: string)
    ensures s != ""
  {
    if n < 10 then [Digit(n)] else Decimal(n / 10) + [Digit(n % 10)]
  }

  lemma {:induction false} DigitInjective(a: nat, b: nat)
    requires a < 10 && b < 10 && Digit(a) == Digit(b)
    ensures a == b
  {
  }

  lemma {:induction false} DecimalInjective(a: nat, b: nat)
    requires Decimal(a) == Decimal(b)
    ensures a == b
    decreases a + b
  {
    var s := Decimal(a);
    assert s[|s| - 1] == Digit(a % 10) == Digit(b % 10);
    DigitInjective(a % 10, b % 10);
    if a >= 10 && b >= 10 {
      assert s[..|s| - 1] == Decimal(a / 10) == Decimal(b / 10);
      DecimalInjective(a / 10, b / 10);
    } else {
      LongerDecimal(a);
      LongerDecimal(b);
    }
  }

  lemma {:induction false} LongerDecimal(n: nat)
    ensures |Decimal(n)| == 1 <==> n < 10
  {
  }

  function CollisionSuffix(n: nat): string {
    if n == 0 then "" else "." + Decimal(n)
  }

  function ArchivePath(directory: string, stem: string, n: nat): Path {
    directory + "/" + stem + CollisionSuffix(n) + ".jsonl"
  }

  lemma {:induction false} MiddleDetermined(start: string, a: string, b: string, end: string)
    requires start + a + end == start + b + end
    ensures a == b
  {
    var (s, t) := (start + a + end, start + b + end);
    assert |s| - |start| - |end| == |a| && |t| - |start| - |end| == |b|;
    assert s[|start|..|start| + |a|] == a && t[|start|..|start| + |b|] == b;
  }

  lemma {:induction false} SuffixInjective(a: nat, b: nat)
    requires CollisionSuffix(a) == CollisionSuffix(b)
    ensures a == b
  {
    if a > 0 && b > 0 {
      assert CollisionSuffix(a)[1..] == Decimal(a) && CollisionSuffix(b)[1..] == Decimal(b);
      DecimalInjective(a, b);
    }
  }

  lemma {:induction false} ArchivePathInjective(directory: string, stem: string, a: nat, b: nat)
    requires ArchivePath(directory, stem, a) == ArchivePath(directory, stem, b)
    ensures a == b
  {
    hide CollisionSuffix;
    MiddleDetermined(directory + "/" + stem, CollisionSuffix(a), CollisionSuffix(b), ".jsonl");
    SuffixInjective(a, b);
  }

  /** Of the captures of one program that began in the same second, the first has the greatest path. */
  lemma {:induction false} FirstCaptureIsGreatest(directory: string, stem: string, n: nat)
    requires n > 0
    ensures TextLess(ArchivePath(directory, stem, n), ArchivePath(directory, stem, 0))
  {
    var (a, b) := (ArchivePath(directory, stem, n), ArchivePath(directory, stem, 0));
    var start := directory + "/" + stem + ".";
    DecimalDigits(n);
    assert a == start + Decimal(n) + ".jsonl" && b == start + "jsonl";
    assert a[..|start|] == start == b[..|start|];
    assert a[|start|] == Decimal(n)[0] && b[|start|] == 'j';
    assert FirstDiffersAt(a, b, |start|);
    TextLessIff(a, b);
  }

  lemma {:induction false} DecimalDigits(n: nat)
    ensures forall i :: 0 <= i < |Decimal(n)| ==> '0' <= Decimal(n)[i] <= '9'
  {
    if n >= 10 {
      DecimalDigits(n / 10);
    }
  }

  /** A suffix is written in decimal without leading zeros: read back as a number it is the suffix. */
  lemma {:induction false} DecimalReadsBack(n: nat)
    ensures Timestamps.Number(Decimal(n)) == n
    ensures n > 0 ==> Decimal(n)[0] != '0'
  {
    if n >= 10 {
      DecimalReadsBack(n / 10);
      assert Decimal(n)[..|Decimal(n)| - 1] == Decimal(n / 10);
    } else {
      assert Decimal(n)[..0] == "";
    }
  }

  /** Every smaller suffix is taken. */
  ghost predicate TakenBelow(files: map<Path, Bytes>, directory: string, stem: string, n: nat) {
    forall i :: 0 <= i < n ==> ArchivePath(directory, stem, i) in files
  }

  /** `n` names the first free file. */
  ghost predicate FirstFree(files: map<Path, Bytes>, directory: string, stem: string, n: nat) {
    ArchivePath(directory, stem, n) !in files && TakenBelow(files, directory, stem, n)
  }

  /** The first of the numbered names that is free. */
  ghost predicate IsFirstFree(files: map<Path, Bytes>, directory: string, stem: string, path: Path) {
    path !in files && exists n: nat :: TakenBelow(files, directory, stem, n) && path == ArchivePath(directory, stem, n)
  }

  ghost function TakenPaths(directory: string, stem: string, n: nat): set<Path> {
    if n == 0 then {} else TakenPaths(directory, stem, n - 1) + {ArchivePath(directory, stem, n - 1)}
  }

  /** The paths of smaller suffixes, and no other suffix's. */
  lemma {:induction false} TakenExactly(directory: string, stem: string, n: nat)
    ensures forall i: nat :: ArchivePath(directory, stem, i) in TakenPaths(directory, stem, n) <==> i < n
  {
    hide ArchivePath;
    if n > 0 {
      TakenExactly(directory, stem, n - 1);
      forall i: nat ensures ArchivePath(directory, stem, i) == ArchivePath(directory, stem, n - 1) <==> i == n - 1 {
        if ArchivePath(directory, stem, i) == ArchivePath(directory, stem, n - 1) {
          ArchivePathInjective(directory, stem, i, n - 1);
        }
      }
    }
  }

  /** Only as many suffixes can be taken as there are files. */
  lemma {:induction false} TakenBounded(files: map<Path, Bytes>, directory: string, stem: string, n: nat)
    requires forall i :: 0 <= i < n ==> ArchivePath(directory, stem, i) in files
    ensures TakenPaths(directory, stem, n) <= files.Keys && |TakenPaths(directory, stem, n)| == n <= |files|
  {
    hide ArchivePath;
    if n > 0 {
      TakenBounded(files, directory, stem, n - 1);
      TakenExactly(directory, stem, n - 1);
    }
    SubsetSize(TakenPaths(directory, stem, n), files.Keys);
  }

  lemma {:induction false} FirstFreeFrom(files: map<Path, Bytes>, directory: string, stem: string, n: nat)
    requires forall i :: 0 <= i < n ==> ArchivePath(directory, stem, i) in files
    ensures exists m :: FirstFree(files, directory, stem, m)
    decreases |files| - n
  {
    hide ArchivePath, TakenPaths;
    TakenBounded(files, directory, stem, n);
    if ArchivePath(directory, stem, n) in files {
      TakenBounded(files, directory, stem, n + 1);
      FirstFreeFrom(files, directory, stem, n + 1);
    } else {
      assert FirstFree(files, directory, stem, n);
    }
  }

  /** The path a new file gets: the first that does not exist yet. */
  ghost function FreshPath(files: map<Path, Bytes>, directory: string, stem: string): (path: Path)
    ensures path !in files
  {
    FirstFreeFrom(files, directory, stem, 0);
    var n :| FirstFree(files, directory, stem, n);
    ArchivePath(directory, stem, n)
  }

  lemma {:induction false} FreshPathFree(files: map<Path, Bytes>, directory: string, stem: string) returns (n: nat)
    ensures FirstFree(files, directory, stem, n) && FreshPath(files, directory, stem) == ArchivePath(directory, stem, n)
  {
    FirstFreeFrom(files, directory, stem, 0);
    n :| FirstFree(files, directory, stem, n) && FreshPath(files, directory, stem) == ArchivePath(directory, stem, n);
  }

  lemma {:induction false} FreshPathIs(files: map<Path, Bytes>, directory: string, stem: string, n: nat)
    requires FirstFree(files, directory, stem, n)
    ensures FreshPath(files, directory, stem) == ArchivePath(directory, stem, n)
  {
    var m := FreshPathFree(files, directory, stem);
    assert ArchivePath(directory, stem, m) !in files && ArchivePath(directory, stem, n) !in files;
  }

  // ---------------------------------------------------------------- one line

  function MarkDirty(dirty: map<Path, nat>, path: Path): map<Path, nat> {
    dirty[path := ((if path in dirty then dirty[path] else 0) + 1) % GENERATIONS]
  }

  /** Takes a path off the dirty list unless it has been marked again since `generation` was read. */
  function ClearIfUnchanged(dirty: map<Path, nat>, path: Path, generation: nat): map<Path, nat> {
    if path in dirty && dirty[path] == generation then dirty - {path} else dirty
  }

  /** What arrives in the file of a line to be written. */
  function Arrives(line: Bytes, io: Io): Bytes {
    match io
    case Works => line + [NEWLINE]
    case NoFile => []
    case BreaksOff(at) => if at < |line| then line[..at] else line
  }

  function Write(files: map<Path, Bytes>, path: Path, data: Bytes): map<Path, Bytes> {
    files[path := (if path in files then files[path] else []) + data]
  }

  /** Writes a line to a stream's file and marks it, unless writing fails. */
  function Appended(s: Store, path: Path, line: Bytes, io: Io): (Store, Reply) {
    var s' := s.(files := Write(s.files, path, Arrives(line, io)));
    if io.Works? then (s'.(dirty := MarkDirty(s.dirty, path)), Ok(None)) else (s', Err(WriteFailed))
  }

  function Replaced(s: Store, stream: string, file: Active): Store {
    s.(dirty := MarkDirty(s.dirty, file.path), active := s.active[stream := file])
  }

  /** A line up to the second time it takes the lock. */
  ghost function Prepared(
      r: Recorder, s: Store, stream: string, line: Bytes, now: int, io: Io): (Store, Progress)
  {
    match r.parse(line)
    case InvalidJson => (s, Answered(Ok(Some(SkippedInvalidJson))))
    case OtherJson =>
      if stream in s.active then
        var (s', reply) := Appended(s, s.active[stream].path, line, io);
        (s', Answered(reply))
      else (s, Answered(Ok(Some(SkippedNoProgram))))
    case PresentEit(program, title) =>
      if stream in s.active && s.active[stream].program == program then
        var (s', reply) := Appended(s, s.active[stream].path, line, io);
        (s', Answered(reply))
      else if io.NoFile? then (s, Answered(Err(OpenFailed)))
      else
        var path := FreshPath(s.files, r.directory(stream, now), r.stem(now, title));
        var s' := s.(files := Write(s.files, path, Arrives(line, io)));
        (s', if io.Works? then Created(Active(program, path)) else Answered(Err(WriteFailed)))
  }

  ghost function Handled(r: Recorder, s: Store, stream: string, line: Bytes, now: int, io: Io): (Store, Reply) {
    match Prepared(r, s, stream, line, now, io)
    case (s', Answered(reply)) => (s', reply)
    case (s', Created(file)) => (Replaced(s', stream, file), Ok(Some(ProgramStarted(file.path))))
  }

  class ArchiveStore {
    const recorder: Recorder
    var files: map<Path, Bytes>
    var active: map<string, Active>
    var dirty: map<Path, nat>

    ghost function Value(): Store
      reads this
    {
      Store(files, active, dirty)
    }

    constructor (recorder: Recorder, files: map<Path, Bytes>)
      ensures this.recorder == recorder && Value() == Store(files, map[], map[])
    {
      this.recorder := recorder;
      this.files, active, dirty := files, map[], map[];
    }

    /** Creates the first file name that is free and returns it, unless the file system refuses. */
    method OpenArchiveFile(stream: string, now: int, title: string, io: Io) returns (path: Option<Path>)
      modifies this`files
      ensures io.NoFile? ==> path.None? && files == old(files)
      ensures !io.NoFile? ==>
        && path == Some(FreshPath(old(files), recorder.directory(stream, now), recorder.stem(now, title)))
        && files == old(files)[path.value := []]
      ensures path.Some? ==>
        IsFirstFree(old(files), recorder.directory(stream, now), recorder.stem(now, title), path.value)
    {
      var directory, stem := recorder.directory(stream, now), recorder.stem(now, title);
      var suffix: nat := 0;
      while ArchivePath(directory, stem, suffix) in files
        invariant files == old(files)
        invariant forall i :: 0 <= i < suffix ==> ArchivePath(directory, stem, i) in files
        decreases |files| - suffix
      {
        TakenBounded(files, directory, stem, suffix + 1);
        suffix := suffix + 1;
      }
      if io.NoFile? {
        return None;
      }
      FreshPathIs(files, directory, stem, suffix);
      assert IsFirstFree(files, directory, stem, ArchivePath(directory, stem, suffix));
      files := files[ArchivePath(directory, stem, suffix) := []];
      return Some(ArchivePath(directory, stem, suffix));
    }

    method Append(path: Path, line: Bytes, io: Io) returns (reply: Reply)
      modifies this`files, this`dirty
      ensures (Value(), reply) == Appended(old(Value()), path, line, io)
    {
      files := Write(files, path, Arrives(line, io));
      if !io.Works? {
        return Err(WriteFailed);
      }
      dirty := MarkDirty(dirty, path);
      return Ok(None);
    }

    method ReplaceActive(stream: string, file: Active)
      modifies this`active, this`dirty
      ensures Value() == Replaced(old(Value()), stream, file)
    {
      dirty := MarkDirty(dirty, file.path);
      active := active[stream := file];
    }

    method HandleLine(stream: string, line: Bytes, now: int, io: Io) returns (reply: Reply)
      modifies this
      ensures (Value(), reply) == Handled(recorder, old(Value()), stream, line, now, io)
    {
      match recorder.parse(line)
      case InvalidJson => return Ok(Some(SkippedInvalidJson));
      case OtherJson =>
        if stream !in active {
          return Ok(Some(SkippedNoProgram));
        }
        reply := Append(active[stream].path, line, io);
      case PresentEit(program, title) =>
        if stream in active && active[stream].program == program {
          reply := Append(active[stream].path, line, io);
          return;
        }
        var path := OpenArchiveFile(stream, now, title, io);
        if path.None? {
          return Err(OpenFailed);
        }
        files := Write(files, path.value, Arrives(line, io));
        assert files == Write(old(files), path.value, Arrives(line, io));
        if !io.Works? {
          return Err(WriteFailed);
        }
        ReplaceActive(stream, Active(program, path.value));
        return Ok(Some(ProgramStarted(path.value)));
    }

    method DeactivateStream(stream: string)
      modifies this`active
      ensures Value() == old(Value()).(active := old(active) - {stream})
    {
      active := active - {stream};
    }

    method SnapshotDirtyPaths() returns (snapshot: map<Path, nat>)
      ensures snapshot == dirty
    {
      snapshot := dirty;
    }

    method ClearDirtyPathIfUnchanged(path: Path, generation: nat) returns (cleared: bool)
      modifies this`dirty
      ensures cleared <==> path in old(dirty) && old(dirty)[path] == generation
      ensures dirty == ClearIfUnchanged(old(dirty), path, generation)
    {
      if path !in dirty || dirty[path] != generation {
        return false;
      }
      dirty := dirty - {path};
      return true;
    }

    method ActivePaths() returns (paths: set<Path>)
      ensures forall path :: path in paths <==> exists stream :: stream in active && active[stream].path == path
    {
      paths := set stream | stream in active :: active[stream].path;
    }
  }
}
