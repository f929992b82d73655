/** Searching a caught-up index: what a query finds is what the archive files hold (src/search_db/query.rs over
  * src/search_db/ingest.rs). */
module SearchAtRest {
  import opened Collisions
  import opened IndexInvariant
  import opened IndexRuns
  import opened Lines
  import opened Ranking
  import opened Rebuild
  import opened ResumeExactness
  import opened SearchContent
  import opened SearchResults
  import opened SearchTables
  import opened Sets
  import opened TextOrder
  import opened Wrappers
  import E = Expressions
  import I = SearchIndex
  import Q = FtsQuery
  import S = Search

  /** The indexer and the query parser normalize alike, and the indexer puts spaces between characters. */
  ghost predicate IndexesBy(r: Reader, normalize: string -> string) {
    forall text :: r.indexText(text) == Q.Spaced(normalize(text))
  }

  /** The words of a search that parses. */
  datatype Search = Search(normalize: string -> string, words: seq<string>)

  function QueryText(search: Search): string {
    Q.ExpressionFts(E.Expression(search.normalize, E.Operands(search.words)))
  }

  ghost predicate IsSearch(r: Reader, search: Search) {
    && IndexesBy(r, search.normalize) && S.NormalizesPlain(search.normalize)
    && E.GroupsOk(search.normalize, E.Operands(search.words))
  }

  ghost predicate Asked(search: Search, texts: seq<string>) {
    S.AskedFor(search.normalize, search.words, texts)
  }

  // ---------------------------------------------------------------- one row

  lemma {:induction false} RowMatches(
      r: Reader, search: Search, rows: map<nat, F.Columns>, postings: set<F.Posting>, row: nat, texts: seq<string>)
    requires IsSearch(r, search) && F.InStep(rows, postings)
    requires row in rows && rows[row] == seq(|texts|, i requires 0 <= i < |texts| => r.indexText(texts[i]))
    ensures F.MatchesText(postings, row, QueryText(search)) <==> Asked(search, texts)
  {
    hide F.InStep, F.MatchesText, S.AskedFor, Q.Spaced, E.GroupsOk, E.Operands, E.Expression, Q.ExpressionFts;
    assert rows[row] == F.Indexed(S.Normalized(search.normalize, texts));
    S.SearchFindsWhatIsAsked(search.normalize, search.words, rows, postings, row, texts);
  }

  /** A caption row is found. */
  ghost predicate LineFound(content: Content, line: (nat, nat), search: Search) {
    line in content.ids && F.MatchesText(content.captionPostings, content.ids[line], QueryText(search))
  }

  /** A program's title or description is found. */
  ghost predicate ProgramFound(content: Content, id: nat, search: Search) {
    id in content.programs && F.MatchesText(content.programPostings, id, QueryText(search))
  }

  lemma {:induction false} LineFoundIff(r: Reader, content: Content, line: (nat, nat), search: Search)
    requires IsSearch(r, search) && IsInStep(content)
    requires HasLine(content.captions, line)
    requires var caption := content.captions[line.0][line.1]; caption.normalizedText == r.indexText(caption.caption.text)
    ensures LineFound(content, line, search) <==> Asked(search, [content.captions[line.0][line.1].caption.text])
  {
    hide F.InStep, IsSearch, Asked, F.MatchesText, QueryText;
    var caption := content.captions[line.0][line.1];
    assert line in content.ids;
    RowMatches(r, search, content.captionRows, content.captionPostings, content.ids[line], [caption.caption.text]);
  }

  lemma {:induction false} ProgramFoundIff(r: Reader, content: Content, id: nat, search: Search)
    requires IsSearch(r, search) && IsInStep(content) && id in content.programs
    requires var p := content.programs[id];
      && p.normalizedTitle == r.indexText(p.metadata.title)
      && p.normalizedDescription == r.indexText(p.metadata.description)
    ensures var metadata := content.programs[id].metadata;
      ProgramFound(content, id, search) <==> Asked(search, [metadata.title, metadata.description])
  {
    hide F.InStep, IsSearch, Asked, F.MatchesText, QueryText, IsCaptionContent;
    var metadata := content.programs[id].metadata;
    RowMatches(r, search, content.programRows, content.programPostings, id, [metadata.title, metadata.description]);
  }

  // ---------------------------------------------------------------- what the archive's views say

  /** Views hold normalized text as the indexer makes it. */
  ghost predicate IsNormalized(r: Reader, view: ProgramView) {
    && view.program.normalizedTitle == r.indexText(view.program.metadata.title)
    && view.program.normalizedDescription == r.indexText(view.program.metadata.description)
    && forall lineNo :: lineNo in view.captions ==>
      view.captions[lineNo].normalizedText == r.indexText(view.captions[lineNo].caption.text)
  }

  lemma {:induction false} FileViewNormalized(r: Reader, path: Path, content: Bytes)
    requires FileView(r, path, content).Some?
    ensures IsNormalized(r, FileView(r, path, content).value)
  {
    hide CompleteLines, LastEit, CaptionRows, RecordOf;
    var lines := CompleteLines(content);
    forall lineNo | lineNo in CaptionRows(r, lines)
      ensures CaptionRows(r, lines)[lineNo].normalizedText == r.indexText(CaptionRows(r, lines)[lineNo].caption.text)
    {
      CaptionRowsExact(r, lines, lineNo);
    }
  }

  lemma {:induction false} ArchiveNormalized(r: Reader, fs: map<Path, Bytes>, key: Key)
    requires ArchiveShows(r, fs, key).Some?
    ensures var view := ArchiveShows(r, fs, key).value;
      IsNormalized(r, view) && KeyOf(view.program.location) == key
  {
    hide FileView, IsNormalized;
    var path :| Best(r, fs, key, path) && ArchiveShows(r, fs, key) == FileView(r, path, fs[path]);
    FileViewNormalized(r, path, fs[path]);
    FileViewLocation(r, path, fs[path]);
  }

  lemma {:induction false} FileViewLocation(r: Reader, path: Path, content: Bytes)
    requires FileView(r, path, content).Some?
    ensures r.locate(path) == Some(FileView(r, path, content).value.program.location)
  {
  }

  /** The tables and the content tables are the same rows. */
  ghost predicate Backs(content: Content, t: Tables) {
    content.programs == t.programs && content.captions == t.captions && IsInStep(content)
  }

  /** The index's own content tables back its tables. */
  lemma {:induction false} IndexBacks(index: I.SearchIndex)
    requires index.Valid()
    ensures Backs(index.content.Value(), index.Db())
  {
  }

  /** The id under which a key's program is found. */
  lemma {:induction false} ShownProgram(r: Reader, t: Tables, key: Key)
    requires Consistent(r, t)
    ensures key in t.byKey <==> Shows(t, key).Some?
    ensures key in t.byKey ==>
      var (id, view) := (t.byKey[key], Shows(t, key).value);
      && id in t.programs && t.programs[id] == view.program && CaptionsOf(t.captions, id) == view.captions
  {
    hide RowsLocated, ProgramIdsMatch, DuplicatesPointNowhere;
  }

  /** A caught-up index that no hazard has touched. */
  ghost predicate Current(r: Reader, s: State) {
    Inv(r, s) && CaughtUp(r, s) && forall key :: Faithful(r, s, key)
  }

  lemma {:induction false} CurrentShows(r: Reader, s: State, key: Key)
    requires Current(r, s)
    ensures Consistent(r, s.tables) && Shows(s.tables, key) == ArchiveShows(r, s.fs, key)
  {
    hide CaughtUp, Faithful, Consistent, Shows, ArchiveShows;
    FaithfulShowsArchive(r, s, key);
  }

  /** On a caught-up index that no hazard has touched, a query finds under every key exactly the caption lines and
    * the program texts of the archive that its words ask for. */
  lemma {:induction false} QueryFindsTheArchive(r: Reader, s: State, content: Content, search: Search, key: Key, lineNo: nat)
    requires Current(r, s)
    requires Backs(content, s.tables) && IsSearch(r, search)
    ensures var (t, view) := (s.tables, ArchiveShows(r, s.fs, key));
      && (key in t.byKey <==> view.Some?)
      && (key in t.byKey ==>
            && (LineFound(content, (t.byKey[key], lineNo), search) <==>
                  lineNo in view.value.captions && Asked(search, [view.value.captions[lineNo].caption.text]))
            && (ProgramFound(content, t.byKey[key], search) <==>
                  Asked(search, [view.value.program.metadata.title, view.value.program.metadata.description])))
  {
    hide Current, ArchiveShows, Shows, IsSearch, Asked, LineFound, ProgramFound, Consistent, F.InStep;
    CurrentShows(r, s, key);
    ShownProgram(r, s.tables, key);
    if key in s.tables.byKey {
      ArchiveNormalized(r, s.fs, key);
      var id := s.tables.byKey[key];
      ProgramFoundIff(r, content, id, search);
      if lineNo in CaptionsOf(s.tables.captions, id) {
        LineFoundIff(r, content, (id, lineNo), search);
      } else {
        NotALine(content, (id, lineNo), search);
      }
    }
  }

  lemma {:induction false} NotALine(content: Content, line: (nat, nat), search: Search)
    requires IsInStep(content) && !HasLine(content.captions, line)
    ensures !LineFound(content, line, search)
  {
    hide F.InStep, F.MatchesText;
  }

  // ---------------------------------------------------------------- whole searches

  /** A program row as search returns it. */
  function Info(id: nat, program: Program): ProgramInfo {
    var (location, metadata) := (program.location, program.metadata);
    ProgramInfo(id, location.stream, location.month, location.filename, location.startedAt, metadata.startTime,
      metadata.title, metadata.description)
  }

  /** A result's columns are those of the program and of the file it was recorded into. */
  predicate IsRowOf(p: ProgramInfo, id: nat, program: Program) {
    && p.programId == id
    && p.stream == program.location.stream && p.recordingStartedAt == program.location.startedAt
    && p.month == program.location.month && p.filename == program.location.filename
    && p.startTime == program.metadata.startTime
    && p.title == program.metadata.title && p.description == program.metadata.description
  }

  function InfoKey(p: ProgramInfo): Key {
    Key(p.stream, p.recordingStartedAt)
  }

  /** A matching caption row joined with its program. */
  function Joined(content: Content, line: (nat, nat)): HitRow
    requires line in content.ids && line.0 in content.programs && HasLine(content.captions, line)
  {
    var caption := content.captions[line.0][line.1].caption;
    HitRow(Info(line.0, content.programs[line.0]), SearchHit(content.ids[line], line.1, caption.time, caption.text))
  }

  ghost predicate IsHit(content: Content, search: Search, line: (nat, nat)) {
    line in content.ids && line.0 in content.programs && HasLine(content.captions, line) && LineFound(content, line, search)
  }

  ghost function MatchedLines(content: Content, search: Search): set<HitRow> {
    set line | line in content.ids && IsHit(content, search, line) :: Joined(content, line)
  }

  ghost function MatchedPrograms(content: Content, search: Search): set<ProgramInfo> {
    set id | id in content.programs && ProgramFound(content, id, search) :: Info(id, content.programs[id])
  }

  /** Every program either search finds. */
  ghost function Found(content: Content, search: Search): set<ProgramInfo> {
    ProgramsOf(MatchedLines(content, search)) + MatchedPrograms(content, search)
  }

  lemma {:induction false} FoundIsOneTable(content: Content, search: Search)
    ensures WellKeyed(MatchedLines(content, search)) && IdsUnique(Found(content, search))
    ensures forall p :: p in Found(content, search) ==>
      p.programId >= 0 && p.programId in content.programs && p == Info(p.programId, content.programs[p.programId])
  {
    hide ProgramFound, LineFound;
  }

  lemma {:induction false} FoundWhen(content: Content, search: Search, id: nat)
    requires id in content.programs && (forall line :: line in content.ids ==> HasLine(content.captions, line))
    ensures Info(id, content.programs[id]) in Found(content, search) <==>
      ProgramFound(content, id, search) || exists lineNo: nat :: LineFound(content, (id, lineNo), search)
  {
    hide ProgramFound;
    var p := Info(id, content.programs[id]);
    if row :| row in MatchedLines(content, search) && row.program == p {
      var line :| line in content.ids && IsHit(content, search, line) && row == Joined(content, line);
      assert LineFound(content, (id, line.1), search);
    }
    if lineNo: nat :| LineFound(content, (id, lineNo), search) {
      assert IsHit(content, search, (id, lineNo));
      assert Joined(content, (id, lineNo)) in MatchedLines(content, search);
    }
  }

  /** The words ask for a program of the archive: for its title or description, or for one of its captions. */
  ghost predicate Wanted(search: Search, view: ProgramView) {
    || Asked(search, [view.program.metadata.title, view.program.metadata.description])
    || exists lineNo: nat :: lineNo in view.captions && Asked(search, [view.captions[lineNo].caption.text])
  }

  /** The searches find a program of a key exactly when the archive has one that the words ask for, and then it is
    * that one. */
  lemma {:induction false} FoundIsWanted(r: Reader, s: State, content: Content, search: Search, key: Key, p: ProgramInfo)
    requires Current(r, s)
    requires Backs(content, s.tables) && IsSearch(r, search) && InfoKey(p) == key
    ensures p in Found(content, search) <==>
      var view := ArchiveShows(r, s.fs, key);
      view.Some? && key in s.tables.byKey && IsRowOf(p, s.tables.byKey[key], view.value.program) && Wanted(search, view.value)
  {
    hide Current, ArchiveShows, Shows, IsSearch, Asked, LineFound, ProgramFound, Consistent, F.InStep, Found;
    var t := s.tables;
    FoundIsOneTable(content, search);
    CurrentShows(r, s, key);
    KeyNamesProgram(r, t, key, p);
    ShownProgram(r, t, key);
    if key in t.byKey && p == Info(t.byKey[key], t.programs[t.byKey[key]]) {
      LinesHaveIds(content);
      FoundWhen(content, search, t.byKey[key]);
      forall lineNo: nat
        ensures LineFound(content, (t.byKey[key], lineNo), search) <==>
          var view := ArchiveShows(r, s.fs, key).value;
          lineNo in view.captions && Asked(search, [view.captions[lineNo].caption.text])
      {
        QueryFindsTheArchive(r, s, content, search, key, lineNo);
      }
      QueryFindsTheArchive(r, s, content, search, key, 0);
    }
  }

  lemma {:induction false} LinesHaveIds(content: Content)
    requires IsInStep(content)
    ensures forall line :: line in content.ids ==> HasLine(content.captions, line)
  {
    hide F.InStep, HasLine;
  }

  lemma {:induction false} KeyNamesProgram(r: Reader, t: Tables, key: Key, p: ProgramInfo)
    requires Consistent(r, t) && InfoKey(p) == key
    ensures p.programId >= 0 && p.programId in t.programs && p == Info(p.programId, t.programs[p.programId]) ==>
      key in t.byKey && t.byKey[key] == p.programId
  {
    hide RowsLocated, ProgramIdsMatch, DuplicatesPointNowhere;
    if p.programId >= 0 && p.programId in t.programs && p == Info(p.programId, t.programs[p.programId]) {
      assert KeyOf(t.programs[p.programId].location) == key;
      assert Lookup(t.byKey, key) == Some(p.programId);
    }
  }

  /** The lines of a key's captions in the archive that the words ask for. */
  ghost function WantedLines(r: Reader, s: State, search: Search, key: Key): set<int> {
    var view := ArchiveShows(r, s.fs, key);
    if view.None? then {} else set lineNo | lineNo in view.value.captions && IsWanted(view.value, search, lineNo)
  }

  ghost predicate IsWanted(view: ProgramView, search: Search, lineNo: nat)
    requires lineNo in view.captions
  {
    Asked(search, [view.captions[lineNo].caption.text])
  }

  /** A hit is a caption line of the archive that the words ask for. */
  ghost predicate HitInArchive(r: Reader, s: State, search: Search, p: ProgramInfo, hit: SearchHit) {
    var key := InfoKey(p);
    hit.lineNo in WantedLines(r, s, search, key) &&
      var caption := ArchiveShows(r, s.fs, key).value.captions[hit.lineNo].caption;
      hit.text == caption.text && hit.time == caption.time
  }

  ghost predicate HasHit(hits: seq<SearchHit>, lineNo: int) {
    exists hit :: hit in hits && hit.lineNo == lineNo
  }

  ghost function Before(lines: set<int>, lineNo: int): set<int> {
    set n | n in lines && n < lineNo
  }

  /** The hits are the first `innerHits` lines of the archive's program that the words ask for, in order. */
  ghost predicate FirstHits(r: Reader, s: State, search: Search, p: ProgramInfo, hits: seq<SearchHit>, innerHits: nat) {
    var wanted := WantedLines(r, s, search, InfoKey(p));
    && Ascending(hits)
    && (forall hit :: hit in hits ==> HitInArchive(r, s, search, p, hit))
    && forall lineNo :: lineNo in wanted ==> (HasHit(hits, lineNo) <==> |Before(wanted, lineNo)| < innerHits)
  }

  lemma {:induction false} MatchedInArchive(r: Reader, s: State, content: Content, search: Search, line: (nat, nat))
    requires Current(r, s)
    requires Backs(content, s.tables) && IsSearch(r, search)
    requires line in content.ids && line.0 in content.programs && HasLine(content.captions, line)
    ensures LineFound(content, line, search) ==>
      HitInArchive(r, s, search, Joined(content, line).program, Joined(content, line).hit)
  {
    hide Current, ArchiveShows, Shows, IsSearch, Asked, LineFound, Consistent, F.InStep;
    var row := Joined(content, line);
    var key := InfoKey(row.program);
    CurrentShows(r, s, key);
    KeyNamesProgram(r, s.tables, key, row.program);
    ShownProgram(r, s.tables, key);
    QueryFindsTheArchive(r, s, content, search, key, line.1);
  }

  /** A line of the archive that the words ask for matches. */
  lemma {:induction false} WantedLineMatches(
      r: Reader, s: State, content: Content, search: Search, p: ProgramInfo, lineNo: int) returns (row: HitRow)
    requires Current(r, s)
    requires Backs(content, s.tables) && IsSearch(r, search)
    requires p.programId >= 0 && p.programId in content.programs && p == Info(p.programId, content.programs[p.programId])
    requires lineNo in WantedLines(r, s, search, InfoKey(p))
    ensures row in MatchedLines(content, search) && row.program == p && row.hit.lineNo == lineNo
  {
    hide Current, ArchiveShows, Shows, IsSearch, Asked, LineFound, Consistent, F.InStep;
    var (t, key) := (s.tables, InfoKey(p));
    CurrentShows(r, s, key);
    KeyNamesProgram(r, t, key, p);
    QueryFindsTheArchive(r, s, content, search, key, lineNo);
    LinesHaveIds(content);
    LineFoundHasId(content, (p.programId, lineNo), search);
    assert IsHit(content, search, (p.programId, lineNo));
    row := Joined(content, (p.programId, lineNo));
  }

  lemma {:induction false} LineFoundHasId(content: Content, line: (nat, nat), search: Search)
    requires LineFound(content, line, search)
    ensures line in content.ids
  {
  }

  /** As many matching lines come before a hit as lines of the archive that the words ask for. */
  lemma {:induction false} RanksAgree(r: Reader, s: State, content: Content, search: Search, row: HitRow)
    requires Current(r, s)
    requires Backs(content, s.tables) && IsSearch(r, search) && row in MatchedLines(content, search)
    ensures HitRank(MatchedLines(content, search), row) ==
      |Before(WantedLines(r, s, search, InfoKey(row.program)), row.hit.lineNo)| + 1
  {
    hide Current, IsSearch, Backs, MatchedLines, WantedLines, IsHit, IsInStep;
    var (matched, wanted) := (MatchedLines(content, search), WantedLines(r, s, search, InfoKey(row.program)));
    FoundIsOneTable(content, search);
    var (earlier, before) := (EarlierHits(matched, row), Before(wanted, row.hit.lineNo));
    forall other | other in earlier ensures other.hit.lineNo in before {
      MatchedHit(r, s, content, search, other);
    }
    MatchedHit(r, s, content, search, row);
    forall lineNo | lineNo in before ensures exists other :: other in earlier && other.hit.lineNo == lineNo {
      var other := WantedLineMatches(r, s, content, search, row.program, lineNo);
      assert other in earlier;
    }
    ImageSize(earlier, before, (other: HitRow) => other.hit.lineNo);
  }

  lemma {:induction false} MatchedHit(r: Reader, s: State, content: Content, search: Search, row: HitRow)
    requires Current(r, s)
    requires Backs(content, s.tables) && IsSearch(r, search) && row in MatchedLines(content, search)
    ensures HitInArchive(r, s, search, row.program, row.hit)
    ensures row.program.programId >= 0 && row.program.programId in content.programs
    ensures row.program == Info(row.program.programId, content.programs[row.program.programId])
  {
    hide Current, IsSearch, Backs, HitInArchive;
    var line :| line in content.ids && IsHit(content, search, line) && row == Joined(content, line);
    MatchedInArchive(r, s, content, search, line);
  }

  /** The hits within the hit rank are the archive's first lines that the words ask for. */
  lemma {:induction false} HitsAreFirst(
      r: Reader, s: State, content: Content, search: Search, p: ProgramInfo, hits: seq<SearchHit>, innerHits: nat)
    requires Current(r, s)
    requires Backs(content, s.tables) && IsSearch(r, search)
    requires p.programId >= 0 && p.programId in content.programs && p == Info(p.programId, content.programs[p.programId])
    requires Ascending(hits)
    requires var matched := MatchedLines(content, search);
      forall hit :: hit in hits <==> HitRow(p, hit) in matched && HitRank(matched, HitRow(p, hit)) <= innerHits
    ensures FirstHits(r, s, search, p, hits, innerHits)
  {
    hide Current, IsSearch, Backs, MatchedLines, WantedLines, Before, HitRank, Ascending, IsHit, IsInStep;
    var (matched, wanted) := (MatchedLines(content, search), WantedLines(r, s, search, InfoKey(p)));
    forall hit | hit in hits ensures HitInArchive(r, s, search, p, hit) {
      MatchedHit(r, s, content, search, HitRow(p, hit));
    }
    forall lineNo | lineNo in wanted ensures HasHit(hits, lineNo) <==> |Before(wanted, lineNo)| < innerHits {
      if hit :| hit in hits && hit.lineNo == lineNo {
        RanksAgree(r, s, content, search, HitRow(p, hit));
      }
      var row := WantedLineMatches(r, s, content, search, p, lineNo);
      RanksAgree(r, s, content, search, row);
      assert row == HitRow(p, row.hit) && row.hit.lineNo == lineNo;
    }
  }

  /** The general search over a caught-up index that no hazard has touched: of the programs of the archive that the
    * words ask for it returns the newest `limit`, newest first and once each, and the hits of each are its first
    * `innerHits` caption lines in the archive that the words ask for, in line order. */
  lemma {:induction false} GeneralSearchShowsTheArchive(
      r: Reader, s: State, content: Content, search: Search, rows: seq<HitRow>, byProgram: seq<SearchProgram>,
      limit: nat, innerHits: nat, result: SearchProgram, p: ProgramInfo)
    requires Current(r, s)
    requires Backs(content, s.tables) && IsSearch(r, search)
    requires IsRanked(rows, MatchedLines(content, search), limit, innerHits) && innerHits >= 1
    requires NewestFirst(Programs(byProgram)) && Elements(Programs(byProgram)) == Top(MatchedPrograms(content, search), limit)
    requires forall i :: 0 <= i < |byProgram| ==> byProgram[i].hits == []
    ensures var byLine := Grouped(rows);
      var merged := Truncated(SortedNewest(byLine + Unseen(Ids(byLine), byProgram)), limit);
      && ListsLatest(Programs(merged), Found(content, search), limit)
      && (result in merged ==> FirstHits(r, s, search, result.program, result.hits, innerHits))
    ensures var view := ArchiveShows(r, s.fs, InfoKey(p));
      p in Found(content, search) <==>
        && view.Some? && InfoKey(p) in s.tables.byKey
        && IsRowOf(p, s.tables.byKey[InfoKey(p)], view.value.program) && Wanted(search, view.value)
  {
    hide ListsLatest, Current, IsSearch, Found, ArchiveShows, IsRanked, Grouped, SortedNewest, Unseen, Truncated, Backs,
      MatchedLines, MatchedPrograms, NewestFirst, Top, WellKeyed, FirstHits, HitRank, Ascending;
    FoundIsOneTable(content, search);
    FoundIsUnion(content, search);
    var matched := MatchedLines(content, search);
    GeneralSearchExact(matched, rows, MatchedPrograms(content, search), byProgram, limit, innerHits);
    FoundIsWanted(r, s, content, search, InfoKey(p), p);
    var byLine := Grouped(rows);
    var merged := Truncated(SortedNewest(byLine + Unseen(Ids(byLine), byProgram)), limit);
    if result in merged {
      ResultFound(merged, Found(content, search), result, limit);
      ResultHits(rows, matched, limit, innerHits, result);
      HitsAreFirst(r, s, content, search, result.program, result.hits, innerHits);
    }
  }

  lemma {:induction false} ResultHits(
      rows: seq<HitRow>, matched: set<HitRow>, limit: nat, innerHits: nat, result: SearchProgram)
    requires IsRanked(rows, matched, limit, innerHits) && WellKeyed(matched) && innerHits >= 1
    requires if result.program in ProgramsOf(matched) then result in Grouped(rows) else result.hits == []
    ensures Ascending(result.hits)
    ensures forall hit :: hit in result.hits <==>
      HitRow(result.program, hit) in matched && HitRank(matched, HitRow(result.program, hit)) <= innerHits
  {
    hide IsRanked, Grouped, NewestFirst, Top, WellKeyed, HitRank;
    if result.program in ProgramsOf(matched) {
      RankedGroupsExact(rows, matched, limit, innerHits);
      var i :| 0 <= i < |Grouped(rows)| && Grouped(rows)[i] == result;
    } else {
      forall hit ensures HitRow(result.program, hit) !in matched {
        assert HitRow(result.program, hit).program == result.program;
      }
    }
  }

  lemma {:induction false} ResultFound(merged: seq<SearchProgram>, found: set<ProgramInfo>, result: SearchProgram, limit: nat)
    requires Elements(Programs(merged)) == Top(found, limit) && result in merged
    ensures result.program in found
  {
    ProgramInElements(merged, result.program);
    assert result in Elements(merged);
  }

  lemma {:induction false} FoundIsUnion(content: Content, search: Search)
    ensures Found(content, search) == ProgramsOf(MatchedLines(content, search)) + MatchedPrograms(content, search)
  {
    hide MatchedLines, MatchedPrograms;
  }
}
