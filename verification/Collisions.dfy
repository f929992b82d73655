/** Archive files that share a stream and a recording start time: when the greatest path keeps the program,
  * and exactly which steps break that. */
module Collisions {
  import opened IndexInvariant
  import opened IndexRuns
  import opened IngestPass
  import opened Lines
  import opened TextOrder
  import opened SearchTables
  import opened Wrappers

  /** A present duplicate is outranked by a present path that owns its key. */
  ghost predicate Sheltered(r: Reader, s: State, path: Path) {
    path in s.tables.files && path in s.fs && s.tables.files[path].status == Duplicate && r.locate(path).Some? ==>
      var owner := OwnerPath(s.tables, KeyOf(r.locate(path).value));
      owner.Some? && TextLess(path, owner.value) && owner.value in s.fs
  }

  /** The path of an archive file recorded under `key`. */
  predicate Belongs(r: Reader, path: Path, key: Key) {
    r.locate(path).Some? && KeyOf(r.locate(path).value) == key
  }

  /** Under one key every present duplicate is outranked. */
  ghost predicate Faithful(r: Reader, s: State, key: Key) {
    forall path :: Belongs(r, path, key) ==> Sheltered(r, s, path)
  }

  /** A smaller path whose row still lacks a program reads its first EIT present record while a greater
    * present path owns the key. */
  ghost predicate Overtakes(r: Reader, s: State, path: Path, size: nat, content: Bytes) {
    && Reads(r, s.tables, path, size)
    && path in s.tables.files
    && LastEit(r, NewLines(s.tables, path, content)).Some?
    && var owner := OwnerPath(s.tables, KeyOf(r.locate(path).value));
    owner.Some? && TextLess(path, owner.value) && owner.value in s.fs
  }

  /** A new path is set aside for the program of a greater path that is already deleted. */
  ghost predicate LosesToDeleted(r: Reader, s: State, path: Path) {
    && r.locate(path).Some?
    && path !in s.tables.files
    && LosesCollision(s.tables, r.locate(path).value, path)
    && OwnerPath(s.tables, KeyOf(r.locate(path).value)).value !in s.fs
  }

  /** A present duplicate that only `path` outranks. */
  ghost predicate ReliesOn(r: Reader, s: State, other: Path, path: Path) {
    && other != path && other in s.fs && other in s.tables.files && s.tables.files[other].status == Duplicate
    && r.locate(other).Some? && OwnerPath(s.tables, KeyOf(r.locate(other).value)) == Some(path)
  }

  /** A step that upsets the order of the files of `key`. */
  ghost predicate Hazard(r: Reader, s: State, e: Event, key: Key) {
    match e
    case Append(_, _) => false
    case Pass(path, size, content) =>
      Belongs(r, path, key) && (Overtakes(r, s, path, size, content) || LosesToDeleted(r, s, path))
    case Unlink(path) => exists other :: Belongs(r, other, key) && ReliesOn(r, s, other, path)
    case CleanUp => false
  }

  /** Once no file of a key is present, nothing that happened to the key before matters. */
  lemma {:induction false} GoneIsFaithful(r: Reader, s: State, key: Key)
    requires forall path :: path in s.fs ==> !Belongs(r, path, key)
    ensures Faithful(r, s, key)
  {
  }

  lemma {:induction false} RowAfterPass(r: Reader, s: State, path: Path, size: nat, content: Bytes, q: Path)
    requires Inv(r, s) && q != path && q in s.tables.files
    ensures var t' := IngestFile(r, s.tables, path, size, content);
      && q in t'.files
      && (s.tables.files[q].status == Duplicate ==> t'.files[q].status == Duplicate)
      && (t'.files[q].status == Duplicate && s.tables.files[q].status != Duplicate ==>
            r.locate(q).Some?
            && OwnerPath(s.tables, KeyOf(r.locate(q).value)) == Some(q)
            && OwnerPath(t', KeyOf(r.locate(q).value)) != Some(q))
  {
    hide IndexesMatch, RowsLocated, ProgramsConsistent, IngestFile, ReadUpTo;
    var t' := IngestFile(r, s.tables, path, size, content);
    IngestFileKeeps(r, s.tables, path, size, content);
    assert FrameAt(s.tables, t', q);
    if s.tables.files[q].programId.Some? {
      PointsToOwnProgram(r, s.tables, q);
      if OwnerPath(t', KeyOf(r.locate(q).value)).Some? {
        OwnerPointsBack(r, t', KeyOf(r.locate(q).value));
      }
    }
  }

  /** The owner of a key has a row that points to its program. */
  lemma {:induction false} OwnerPointsBack(r: Reader, t: Tables, key: Key)
    requires Consistent(r, t) && OwnerPath(t, key).Some?
    ensures var owner := OwnerPath(t, key).value;
      && owner in t.files && t.files[owner].programId == Some(t.byKey[key])
      && r.locate(owner).Some? && KeyOf(r.locate(owner).value) == key
  {
    var owner := OwnerPath(t, key).value;
    assert Lookup(t.byPath, owner) == Some(t.byKey[key]);
    assert ProgramIdOf(t.files, owner) == Lookup(t.byPath, owner);
  }

  lemma {:induction false} PassShelters(r: Reader, s: State, path: Path, size: nat, content: Bytes, q: Path, key: Key)
    requires Inv(r, s) && Sheltered(r, s, q) && Belongs(r, q, key) && Enabled(s, Pass(path, size, content))
    requires !Hazard(r, s, Pass(path, size, content), key)
    ensures Sheltered(r, Step(r, s, Pass(path, size, content)), q)
  {
    hide Consistent, IngestFile, RowMatchesFile;
    var t' := IngestFile(r, s.tables, path, size, content);
    if q in t'.files && q in s.fs && t'.files[q].status == Duplicate {
      PassOwner(r, s.tables, path, size, content, key);
      if q == path {
        PassReadsNoDuplicate(r, s, path, size, content);
        PassReturnsEarly(r, s.tables, path, size, content);
        if path !in s.tables.files {
          EarlyDuplicateLost(r, s.tables, path, size, content);
        }
      } else {
        RowUnlessPassed(r, s.tables, path, size, content, q);
        RowAfterPass(r, s, path, size, content, q);
        var owner := OwnerPath(s.tables, key);
        if OwnerPath(t', key) != owner {
          NotOvertakenNeedsRow(r, s, path, size, content);
          TextLessTotal(path, owner.value);
          if TextLess(q, owner.value) && TextLess(owner.value, path) {
            TextLessTransitive(q, owner.value, path);
          }
        }
      }
    }
  }

  lemma {:induction false} RowUnlessPassed(r: Reader, t: Tables, path: Path, size: nat, content: Bytes, q: Path)
    requires Consistent(r, t) && q != path
    ensures q in t.files <==> q in IngestFile(r, t, path, size, content).files
  {
    hide ConsistentBut, IngestFile;
    IngestFileKeeps(r, t, path, size, content);
    assert FrameAt(t, IngestFile(r, t, path, size, content), q);
  }

  lemma {:induction false} PassReadsNoDuplicate(r: Reader, s: State, path: Path, size: nat, content: Bytes)
    requires Inv(r, s) && Enabled(s, Pass(path, size, content))
    ensures Reads(r, s.tables, path, size) ==>
      path in IngestFile(r, s.tables, path, size, content).files
      && IngestFile(r, s.tables, path, size, content).files[path].status == Indexed
  {
    hide Consistent, IngestFile, ReadUpTo;
    if Reads(r, s.tables, path, size) {
      assert RowMatchesFile(r, s, path);
      NothingReadYet(r, s.tables, path, content);
      if path in s.tables.files {
        ShorterReads(r, s.tables, path, size, content, s.fs[path]);
      }
      PassReadsEverything(r, s.tables, path, size, content);
    }
  }

  lemma {:induction false} EarlyDuplicateLost(r: Reader, t: Tables, path: Path, size: nat, content: Bytes)
    requires !Reads(r, t, path, size) && path !in t.files && path in IngestFile(r, t, path, size, content).files
    ensures r.locate(path).Some? && LosesCollision(t, r.locate(path).value, path)
  {
    hide IngestTail;
  }

  /** A path without a row that goes on to read is not outranked, so nothing is overtaken wrongly. */
  lemma {:induction false} NotOvertakenNeedsRow(r: Reader, s: State, path: Path, size: nat, content: Bytes)
    requires Reads(r, s.tables, path, size) && !Overtakes(r, s, path, size, content)
    requires LastEit(r, NewLines(s.tables, path, content)).Some?
    ensures var owner := OwnerPath(s.tables, KeyOf(r.locate(path).value));
      owner.Some? && owner.value in s.fs ==> !TextLess(path, owner.value)
  {
  }

  lemma {:induction false} OthersShelter(r: Reader, s: State, e: Event, q: Path, key: Key)
    requires Inv(r, s) && Sheltered(r, s, q) && Belongs(r, q, key) && Enabled(s, e) && !Hazard(r, s, e, key) && !e.Pass?
    ensures Sheltered(r, Step(r, s, e), q)
  {
    hide Consistent, ReadUpTo, Cleanup;
    assert RowMatchesFile(r, s, q);
    match e
    case Append(path, data) =>
    case Unlink(path) =>
      assert !ReliesOn(r, s, q, path);
    case CleanUp =>
      if q in s.tables.files && q in s.fs {
        CleanupKeepsPresent(r, s.tables, s.fs.Keys, q);
        CleanupKeepsOwner(r, s.tables, s.fs.Keys, KeyOf(r.locate(q).value));
      } else {
        CleanupFiles(s.tables, s.fs.Keys, q);
      }
  }

  lemma {:induction false} CleanupKeepsOwner(r: Reader, t: Tables, present: set<Path>, key: Key)
    requires Consistent(r, t)
    ensures OwnerPath(Cleanup(t, present), key) ==
      if OwnerPath(t, key).Some? && OwnerPath(t, key).value !in present then None else OwnerPath(t, key)
  {
    hide RowsLocated, ProgramIdsMatch, DuplicatesPointNowhere;
  }

  lemma {:induction false} OvertakenExposed(r: Reader, s: State, path: Path, size: nat, content: Bytes)
    requires Inv(r, s) && Enabled(s, Pass(path, size, content)) && Overtakes(r, s, path, size, content)
    ensures !Faithful(r, Step(r, s, Pass(path, size, content)), KeyOf(r.locate(path).value))
  {
    hide Consistent, IngestFile, RowMatchesFile;
    var t', key := IngestFile(r, s.tables, path, size, content), KeyOf(r.locate(path).value);
    var w := OwnerPath(s.tables, key).value;
    TextLessAsymmetric(path, w);
    PassOwner(r, s.tables, path, size, content, key);
    OwnerPointsBack(r, s.tables, key);
    LoserBecomesDuplicate(r, s, path, size, content, w);
    assert !Sheltered(r, Step(r, s, Pass(path, size, content)), w);
  }

  lemma {:induction false} LoserBecomesDuplicate(r: Reader, s: State, path: Path, size: nat, content: Bytes, q: Path)
    requires Inv(r, s) && q != path && q in s.tables.files && s.tables.files[q].programId.Some?
    requires r.locate(q).Some?
    requires OwnerPath(IngestFile(r, s.tables, path, size, content), KeyOf(r.locate(q).value)) != Some(q)
    ensures q in IngestFile(r, s.tables, path, size, content).files
    ensures IngestFile(r, s.tables, path, size, content).files[q].status == Duplicate
  {
    hide ConsistentBut, IngestFile, RowMatchesFile;
    var t' := IngestFile(r, s.tables, path, size, content);
    IngestFileKeeps(r, s.tables, path, size, content);
    assert FrameAt(s.tables, t', q);
    if t'.files[q].programId.Some? {
      PointsToOwnProgram(r, t', q);
    }
  }

  lemma {:induction false} DeletedWinnerExposes(r: Reader, s: State, path: Path, size: nat, content: Bytes)
    requires Inv(r, s) && Enabled(s, Pass(path, size, content)) && LosesToDeleted(r, s, path)
    ensures !Faithful(r, Step(r, s, Pass(path, size, content)), KeyOf(r.locate(path).value))
  {
    hide Consistent, RowMatchesFile, IngestTail;
    assert !Sheltered(r, Step(r, s, Pass(path, size, content)), path);
  }

  lemma {:induction false} UnlinkExposes(r: Reader, s: State, path: Path, key: Key)
    requires Hazard(r, s, Unlink(path), key) && Enabled(s, Unlink(path))
    ensures !Faithful(r, Step(r, s, Unlink(path)), key)
  {
    var other :| Belongs(r, other, key) && ReliesOn(r, s, other, path);
    assert !Sheltered(r, Step(r, s, Unlink(path)), other);
  }

  /** A step keeps every duplicate of a key outranked by a present winner exactly when it is not a hazard to the
    * key, which can be told before the step. */
  lemma {:induction false} FaithfulUnlessHazard(r: Reader, s: State, e: Event, key: Key)
    requires Inv(r, s) && Faithful(r, s, key) && Enabled(s, e)
    ensures Faithful(r, Step(r, s, e), key) <==> !Hazard(r, s, e, key)
  {
    hide Inv, Enabled, Step, Sheltered, Overtakes, LosesToDeleted, ReliesOn, Belongs;
    if Hazard(r, s, e, key) {
      match e
      case Pass(path, size, content) =>
        HazardousPassLocated(r, path, key);
        if Overtakes(r, s, path, size, content) {
          OvertakenExposed(r, s, path, size, content);
        } else {
          DeletedWinnerExposes(r, s, path, size, content);
        }
      case Unlink(path) => UnlinkExposes(r, s, path, key);
    } else {
      forall q | Belongs(r, q, key) ensures Sheltered(r, Step(r, s, e), q) {
        if e.Pass? {
          PassShelters(r, s, e.path, e.size, e.content, q, key);
        } else {
          OthersShelter(r, s, e, q, key);
        }
      }
    }
  }

  lemma {:induction false} HazardousPassLocated(r: Reader, path: Path, key: Key)
    requires Belongs(r, path, key)
    ensures r.locate(path).Some? && KeyOf(r.locate(path).value) == key
  {
  }

  ghost predicate HazardFree(r: Reader, s: State, events: seq<Event>, key: Key) {
    events != [] ==>
      && HazardFree(r, s, events[..|events| - 1], key)
      && !Hazard(r, Run(r, s, events[..|events| - 1]), events[|events| - 1], key)
  }

  lemma {:induction false} RunFaithful(r: Reader, s: State, events: seq<Event>, key: Key)
    requires Inv(r, s) && Faithful(r, s, key) && Legal(r, s, events) && HazardFree(r, s, events, key)
    ensures Inv(r, Run(r, s, events)) && Faithful(r, Run(r, s, events), key)
  {
    hide Inv, Faithful, Enabled, Step, Hazard;
    if events != [] {
      var before := Run(r, s, events[..|events| - 1]);
      RunFaithful(r, s, events[..|events| - 1], key);
      StepKeeps(r, before, events[|events| - 1]);
      FaithfulUnlessHazard(r, before, events[|events| - 1], key);
    }
  }
}
