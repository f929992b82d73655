/** The three hazards are real: for any two colliding files, legal runs that leave the index different from a
  * rebuild until the index is rebuilt. */
module Hazards {
  import opened Collisions
  import opened IndexInvariant
  import opened IndexRuns
  import opened IngestPass
  import opened Lines
  import opened TextOrder
  import opened Rebuild
  import opened RebuildCases
  import opened SearchTables
  import opened Wrappers

  /** Two files with an EIT present record each that share a key, `low` before `high`. */
  ghost predicate Colliding(r: Reader, low: Path, lowContent: Bytes, high: Path, highContent: Bytes) {
    && SameKey(r, low, high) && TextLess(low, high)
    && LastEit(r, CompleteLines(lowContent)).Some?
    && LastEit(r, CompleteLines(highContent)).Some?
  }

  ghost predicate Differs(r: Reader, s: State, order: seq<Path>, key: Key) {
    && (forall path :: path in order <==> path in s.fs)
    && Shows(s.tables, key) != Shows(Rebuilt(r, s.fs, order).tables, key)
  }

  lemma {:induction false} RunSnoc(r: Reader, s: State, events: seq<Event>, e: Event)
    ensures Run(r, s, events + [e]) == Step(r, Run(r, s, events), e)
    ensures Legal(r, s, events + [e]) <==> Legal(r, s, events) && Enabled(Run(r, s, events), e)
  {
    assert (events + [e])[..|events|] == events;
  }

  /** A present candidate that is set aside while no greater path owns the key is missing from the index. */
  lemma {:induction false} ExposedDiffers(r: Reader, s: State, order: seq<Path>, key: Key, path: Path)
    requires Inv(r, s) && CaughtUp(r, s) && !Outranked(r, s, key, path)
    requires forall p :: p in order <==> p in s.fs
    ensures Differs(r, s, order, key)
  {
    hide Inv, CaughtUp, Outranked, Shows, Rebuilt, ArchiveShows;
    NotOutrankedNotShown(r, s, key, path);
    RebuildShowsArchive(r, s.fs, order, key);
  }

  ghost predicate OnlyOwner(t: Tables, key: Key, owner: Option<Path>) {
    forall k :: OwnerPath(t, k) == if k == key then owner else None
  }

  /** A full pass over a file with an EIT present record that no greater path holds back takes the key. */
  lemma {:induction false} PassTakesKey(r: Reader, s: State, path: Path, key: Key, owner: Option<Path>)
    requires Inv(r, s) && path in s.fs && r.locate(path).Some? && KeyOf(r.locate(path).value) == key
    requires OnlyOwner(s.tables, key, owner) && (path !in s.tables.files && owner.Some? ==> !TextLess(path, owner.value))
    requires path in s.tables.files ==>
      s.tables.files[path].status == Indexed && s.tables.files[path].indexedOffset == 0 && s.fs[path] != []
    requires LastEit(r, CompleteLines(s.fs[path])).Some?
    ensures var e := Pass(path, |s.fs[path]|, s.fs[path]);
      && Enabled(s, e) && Inv(r, Step(r, s, e))
      && OnlyOwner(Step(r, s, e).tables, key, Some(path))
      && Settled(r, Step(r, s, e), path)
      && path in Step(r, s, e).tables.files
  {
    hide ConsistentBut, IngestFile, RowMatchesFile, LastEit, CompleteLines, Settled;
    var e := Pass(path, |s.fs[path]|, s.fs[path]);
    FullPassEnabled(r, s, e);
    StepKeeps(r, s, e);
    FullPassSettles(r, s, e);
    assert TailFrom(s.fs[path], 0) == s.fs[path];
    forall k ensures OwnerPath(Step(r, s, e).tables, k) == if k == key then Some(path) else None {
      PassOwner(r, s.tables, path, |s.fs[path]|, s.fs[path], k);
    }
  }

  lemma {:induction false} NoneOutside(r: Reader, s: State, paths: set<Path>)
    requires s.fs.Keys <= paths && forall path :: path in paths ==> Settled(r, s, path)
    requires exists key, owner: Option<Path> :: OnlyOwner(s.tables, key, owner) && (owner.Some? ==> owner.value in s.fs)
    ensures CaughtUp(r, s)
  {
    hide CompleteLines, OwnerPath;
    forall path ensures Settled(r, s, path) {
      assert path !in paths ==> path !in s.fs;
    }
    forall key ensures NoDeletedOwner(s, key) {
      var k, owner: Option<Path> :| OnlyOwner(s.tables, k, owner) && (owner.Some? ==> owner.value in s.fs);
    }
  }

  lemma {:induction false} EmptyOwners(key: Key)
    ensures OnlyOwner(EMPTY, key, None)
  {
  }

  /** Overtaking: the smaller file is indexed while still empty, the greater one becomes the program, then the
    * smaller one receives its EIT present record and takes the program over. */
  lemma {:induction false} OvertakingBreaks(r: Reader, low: Path, lowContent: Bytes, high: Path, highContent: Bytes)
    requires Colliding(r, low, lowContent, high, highContent)
    ensures var events := [Pass(low, 0, []), Pass(high, |highContent|, highContent), Append(low, lowContent),
                           Pass(low, |lowContent|, lowContent)];
      var start := State(map[low := [], high := highContent], EMPTY);
      && Legal(r, start, events)
      && CaughtUp(r, Run(r, start, events))
      && Differs(r, Run(r, start, events), [low, high], KeyOf(r.locate(low).value))
  {
    hide ConsistentBut, IngestFile, RowMatchesFile, LastEit, CompleteLines, Settled, Run, Legal, Outranked;
    var key := KeyOf(r.locate(low).value);
    TextLessAsymmetric(low, high);
    var s0 := State(map[low := [], high := highContent], EMPTY);
    EmptyTidy(r, s0.fs);
    EmptyOwners(key);
    var e1, e2 := Pass(low, 0, []), Pass(high, |highContent|, highContent);
    var e3, e4 := Append(low, lowContent), Pass(low, |lowContent|, lowContent);
    EmptyPass(r, s0, low, key);
    var s1 := Step(r, s0, e1);
    PassTakesKey(r, s1, high, key, None);
    var s2 := Step(r, s1, e2);
    RowUnlessPassed(r, s1.tables, high, |highContent|, highContent, low);
    RowAfterPass(r, s1, high, |highContent|, highContent, low);
    IdleRowStays(r, s1, e2, low);
    var s3 := Step(r, s2, e3);
    StepKeeps(r, s2, e3);
    assert s3.fs[low] == lowContent;
    NotEmptyWithEit(r, lowContent);
    PassTakesKey(r, s3, low, key, Some(high));
    var s4 := Step(r, s3, e4);
    OwnerPointsBack(r, s2.tables, key);
    LoserBecomesDuplicate(r, s3, low, |lowContent|, lowContent, high);
    assert Settled(r, s4, high) by {
      DuplicateSettled(r, s4, high);
    }
    NoneOutside(r, s4, {low, high});
    assert !Outranked(r, s4, key, high) by {
      ExposedWhen(r, s4, key, high);
    }
    ExposedDiffers(r, s4, [low, high], key, high);
    FourEvents(r, s0, e1, e2, e3, e4);
  }

  lemma {:induction false} FourEvents(r: Reader, s: State, a: Event, b: Event, c: Event, d: Event)
    ensures Run(r, s, [a, b, c, d]) == Step(r, Step(r, Step(r, Step(r, s, a), b), c), d)
    ensures Legal(r, s, [a, b, c, d]) <==>
      && Enabled(s, a) && Enabled(Step(r, s, a), b)
      && Enabled(Step(r, Step(r, s, a), b), c) && Enabled(Step(r, Step(r, Step(r, s, a), b), c), d)
  {
    hide Enabled, Step;
    RunSnoc(r, s, [], a);
    RunSnoc(r, s, [a], b);
    RunSnoc(r, s, [a, b], c);
    RunSnoc(r, s, [a, b, c], d);
    assert [] + [a] == [a] && [a] + [b] == [a, b] && [a, b] + [c] == [a, b, c] && [a, b, c] + [d] == [a, b, c, d];
  }

  lemma {:induction false} NotEmptyWithEit(r: Reader, content: Bytes)
    requires LastEit(r, CompleteLines(content)).Some?
    ensures content != []
  {
    assert CompleteLines([]) == [] && LastEit(r, []).None?;
  }

  /** Indexing an empty file leaves a row without a program. */
  lemma {:induction false} EmptyPass(r: Reader, s: State, path: Path, key: Key)
    requires Inv(r, s) && path in s.fs && s.fs[path] == [] && r.locate(path).Some?
    requires path !in s.tables.files && OnlyOwner(s.tables, key, None) && KeyOf(r.locate(path).value) == key
    ensures var e := Pass(path, 0, []);
      && Enabled(s, e) && Inv(r, Step(r, s, e)) && OnlyOwner(Step(r, s, e).tables, key, None)
      && Idle(Step(r, s, e).tables, path)
      && forall q :: q in Step(r, s, e).tables.files ==> q == path || q in s.tables.files
  {
    hide ConsistentBut, IngestFile, RowMatchesFile;
    var e := Pass(path, 0, []);
    FullPassEnabled(r, s, e);
    StepKeeps(r, s, e);
    assert CompleteLines([]) == [];
    NothingReadYet(r, s.tables, path, []);
    PassReadsEverything(r, s.tables, path, 0, []);
    var lines: seq<Bytes> := [];
    assert lines[..0] == [];
    forall k ensures OwnerPath(Step(r, s, e).tables, k) == None {
      PassOwner(r, s.tables, path, 0, [], k);
    }
    forall q | q in Step(r, s, e).tables.files ensures q == path || q in s.tables.files {
      if q != path {
        NewRowsOnlyForPass(r, s, e, q);
      }
    }
  }

  ghost predicate Idle(t: Tables, path: Path) {
    path in t.files && t.files[path].status == Indexed && t.files[path].indexedOffset == 0 && t.files[path].programId.None?
  }

  lemma {:induction false} IdleRowStays(r: Reader, s: State, e: Event, path: Path)
    requires Inv(r, s) && e.Pass? && path != e.path && Idle(s.tables, path)
    ensures Idle(Step(r, s, e).tables, path)
  {
    hide ConsistentBut, IngestFile, RowMatchesFile;
    IngestFileKeeps(r, s.tables, e.path, e.size, e.content);
    assert FrameAt(s.tables, Step(r, s, e).tables, path);
  }

  lemma {:induction false} DuplicateSettled(r: Reader, s: State, path: Path)
    requires path in s.tables.files && s.tables.files[path].status == Duplicate
    ensures Settled(r, s, path)
  {
  }

  lemma {:induction false} ExposedWhen(r: Reader, s: State, key: Key, path: Path)
    requires Candidate(r, s.fs, key, path) && path in s.tables.files && s.tables.files[path].status == Duplicate
    requires OwnerPath(s.tables, key).Some? ==> !TextLess(path, OwnerPath(s.tables, key).value)
    ensures !Outranked(r, s, key, path)
  {
  }

  /** Cleaning up after the owner of the only key in use was unlinked leaves no owner at all. */
  lemma {:induction false} CleanUpAfterUnlink(r: Reader, s: State, key: Key, owner: Path, path: Path)
    requires Inv(r, s) && OnlyOwner(s.tables, key, Some(owner)) && owner !in s.fs
    requires path in s.fs && path in s.tables.files && s.tables.files[path].status == Duplicate
    ensures var s' := Step(r, s, CleanUp);
      && Inv(r, s') && OnlyOwner(s'.tables, key, None)
      && path in s'.tables.files && s'.tables.files[path].status == Duplicate
  {
    hide ConsistentBut, RowMatchesFile, Cleanup;
    StepKeeps(r, s, CleanUp);
    CleanupKeepsPresent(r, s.tables, s.fs.Keys, path);
    forall k ensures OwnerPath(Step(r, s, CleanUp).tables, k) == None {
      CleanupKeepsOwner(r, s.tables, s.fs.Keys, k);
    }
  }

  lemma {:induction false} LeftBehindDiffers(r: Reader, s: State, key: Key, path: Path)
    requires Inv(r, s) && s.fs.Keys == {path} && OnlyOwner(s.tables, key, None)
    requires Candidate(r, s.fs, key, path) && path in s.tables.files && s.tables.files[path].status == Duplicate
    ensures CaughtUp(r, s) && Differs(r, s, [path], key)
  {
    hide Inv, Candidate, CompleteLines, Settled, Outranked;
    DuplicateSettled(r, s, path);
    NoneOutside(r, s, {path});
    ExposedWhen(r, s, key, path);
    ExposedDiffers(r, s, [path], key, path);
  }

  /** Unlinking the winner of a collision orphans the loser: it stays a duplicate, so nothing is shown. */
  lemma {:induction false} UnlinkingWinnerBreaks(r: Reader, low: Path, lowContent: Bytes, high: Path, highContent: Bytes)
    requires Colliding(r, low, lowContent, high, highContent)
    ensures var events := [Pass(low, |lowContent|, lowContent), Pass(high, |highContent|, highContent), Unlink(high), CleanUp];
      var start := State(map[low := lowContent, high := highContent], EMPTY);
      && Legal(r, start, events)
      && CaughtUp(r, Run(r, start, events))
      && Differs(r, Run(r, start, events), [low], KeyOf(r.locate(low).value))
  {
    hide ConsistentBut, IngestFile, RowMatchesFile, LastEit, CompleteLines, Settled, Run, Legal, Cleanup;
    var key := KeyOf(r.locate(low).value);
    TextLessAsymmetric(low, high);
    var s0 := State(map[low := lowContent, high := highContent], EMPTY);
    EmptyTidy(r, s0.fs);
    EmptyOwners(key);
    var e1, e2 := Pass(low, |lowContent|, lowContent), Pass(high, |highContent|, highContent);
    PassTakesKey(r, s0, low, key, None);
    var s1 := Step(r, s0, e1);
    OnlyPassedHasRow(r, s0, e1, high);
    OwnerPointsBack(r, s1.tables, key);
    PassTakesKey(r, s1, high, key, Some(low));
    var s2 := Step(r, s1, e2);
    LoserBecomesDuplicate(r, s1, high, |highContent|, highContent, low);
    var s3 := Step(r, s2, Unlink(high));
    StepKeeps(r, s2, Unlink(high));
    CleanUpAfterUnlink(r, s3, key, high, low);
    var s4 := Step(r, s3, CleanUp);
    LeftBehindDiffers(r, s4, key, low);
    FourEvents(r, s0, e1, e2, Unlink(high), CleanUp);
  }

  lemma {:induction false} OnlyPassedHasRow(r: Reader, s: State, e: Event, path: Path)
    requires Inv(r, s) && e.Pass? && path != e.path && path !in s.tables.files
    ensures path !in Step(r, s, e).tables.files
  {
    hide Inv, IngestFile;
    if path in Step(r, s, e).tables.files {
      NewRowsOnlyForPass(r, s, e, path);
    }
  }

  /** A file first indexed after the winner was unlinked but before its rows were cleaned away is set aside for
    * a program that is about to vanish. */
  lemma {:induction false} LosingToDeletedBreaks(r: Reader, low: Path, lowContent: Bytes, high: Path, highContent: Bytes)
    requires Colliding(r, low, lowContent, high, highContent)
    ensures var events := [Pass(high, |highContent|, highContent), Unlink(high), Append(low, lowContent),
                           Pass(low, |lowContent|, lowContent), CleanUp];
      var start := State(map[high := highContent], EMPTY);
      && Legal(r, start, events)
      && CaughtUp(r, Run(r, start, events))
      && Differs(r, Run(r, start, events), [low], KeyOf(r.locate(low).value))
  {
    hide ConsistentBut, IngestFile, RowMatchesFile, LastEit, CompleteLines, Settled, Run, Legal, Cleanup;
    var key := KeyOf(r.locate(low).value);
    TextLessAsymmetric(low, high);
    var s0 := State(map[high := highContent], EMPTY);
    EmptyTidy(r, s0.fs);
    EmptyOwners(key);
    var e1 := Pass(high, |highContent|, highContent);
    var e3, e4 := Append(low, lowContent), Pass(low, |lowContent|, lowContent);
    PassTakesKey(r, s0, high, key, None);
    var s1 := Step(r, s0, e1);
    OnlyPassedHasRow(r, s0, e1, low);
    var s2 := Step(r, s1, Unlink(high));
    StepKeeps(r, s1, Unlink(high));
    var s3 := Step(r, s2, e3);
    StepKeeps(r, s2, e3);
    assert s3.fs[low] == lowContent;
    PassSetsAside(r, s3, low, key, high);
    var s4 := Step(r, s3, e4);
    CleanUpAfterUnlink(r, s4, key, high, low);
    LeftBehindDiffers(r, Step(r, s4, CleanUp), key, low);
    FourEvents(r, s0, e1, Unlink(high), e3, e4);
    RunSnoc(r, s0, [e1, Unlink(high), e3, e4], CleanUp);
    assert [e1, Unlink(high), e3, e4] + [CleanUp] == [e1, Unlink(high), e3, e4, CleanUp];
  }

  lemma {:induction false} PassSetsAside(r: Reader, s: State, path: Path, key: Key, owner: Path)
    requires Inv(r, s) && path in s.fs && r.locate(path).Some? && KeyOf(r.locate(path).value) == key
    requires OnlyOwner(s.tables, key, Some(owner)) && path !in s.tables.files && TextLess(path, owner)
    ensures var e := Pass(path, |s.fs[path]|, s.fs[path]);
      && Enabled(s, e) && Inv(r, Step(r, s, e)) && OnlyOwner(Step(r, s, e).tables, key, Some(owner))
      && path in Step(r, s, e).tables.files && Step(r, s, e).tables.files[path].status == Duplicate
  {
    hide ConsistentBut, IngestFile, RowMatchesFile;
    var e := Pass(path, |s.fs[path]|, s.fs[path]);
    FullPassEnabled(r, s, e);
    StepKeeps(r, s, e);
    EarlyRow(r, s.tables, path, e.size, e.content);
    forall k ensures OwnerPath(Step(r, s, e).tables, k) == if k == key then Some(owner) else None {
      PassOwner(r, s.tables, path, e.size, e.content, k);
    }
  }
}
