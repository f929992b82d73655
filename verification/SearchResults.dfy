/** From matching rows to search results (src/search_db/query.rs): ranking and limiting, grouping by program, and
  * merging caption matches with metadata matches. */
module SearchResults {
  import opened Ranking
  import opened Sets
  import opened Wrappers

  datatype SearchHit = SearchHit(lineId: int, lineNo: int, time: Option<string>, text: string)

  /** A matching caption line joined with its program. */
  datatype HitRow = HitRow(program: ProgramInfo, hit: SearchHit)

  datatype SearchProgram = SearchProgram(program: ProgramInfo, hits: seq<SearchHit>)

  function Programs(results: seq<SearchProgram>): (programs: seq<ProgramInfo>)
    ensures |programs| == |results|
  {
    seq(|results|, i requires 0 <= i < |results| => results[i].program)
  }

  // ---------------------------------------------------------------- grouping

  function AddRow(results: seq<SearchProgram>, row: HitRow): seq<SearchProgram> {
    var n := |results| - 1;
    if results != [] && results[n].program.programId == row.program.programId then
      results[n := results[n].(hits := results[n].hits + [row.hit])]
    else results + [SearchProgram(row.program, [row.hit])]
  }

  function Grouped(rows: seq<HitRow>): seq<SearchProgram> {
    if rows == [] then [] else AddRow(Grouped(rows[..|rows| - 1]), rows[|rows| - 1])
  }

  /** Collects the rows of one program after another into one result each. */
  method GroupRows(rows: seq<HitRow>) returns (results: seq<SearchProgram>)
    ensures results == Grouped(rows)
  {
    results := [];
    for k := 0 to |rows|
      invariant results == Grouped(rows[..k])
    {
      var row := rows[k];
      assert rows[..k + 1][..k] == rows[..k];
      var n := |results| - 1;
      if results != [] && results[n].program.programId == row.program.programId {
        results := results[n := results[n].(hits := results[n].hits + [row.hit])];
      } else {
        results := results + [SearchProgram(row.program, [row.hit])];
      }
    }
    assert rows[..|rows|] == rows;
  }

  function RowsOf(program: ProgramInfo, hits: seq<SearchHit>): seq<HitRow> {
    seq(|hits|, i requires 0 <= i < |hits| => HitRow(program, hits[i]))
  }

  function Flatten(results: seq<SearchProgram>): seq<HitRow> {
    if results == [] then []
    else
      var last := results[|results| - 1];
      Flatten(results[..|results| - 1]) + RowsOf(last.program, last.hits)
  }

  /** Rows of one table: an id names one program, an id and a line number one row. */
  ghost predicate WellKeyed(rows: set<HitRow>) {
    forall r, s :: r in rows && s in rows && r.program.programId == s.program.programId ==>
      r.program == s.program && (r.hit.lineNo == s.hit.lineNo ==> r == s)
  }

  lemma {:induction false} FlattenAddRow(results: seq<SearchProgram>, row: HitRow)
    requires results != [] && results[|results| - 1].program.programId == row.program.programId ==>
      results[|results| - 1].program == row.program
    ensures Flatten(AddRow(results, row)) == Flatten(results) + [row]
  {
    var n := |results| - 1;
    if results != [] && results[n].program.programId == row.program.programId {
      var last := results[n];
      assert AddRow(results, row)[..n] == results[..n];
      assert RowsOf(last.program, last.hits + [row.hit]) == RowsOf(last.program, last.hits) + [row];
    } else {
      assert (results + [SearchProgram(row.program, [row.hit])])[..|results|] == results;
      assert RowsOf(row.program, [row.hit]) == [row];
    }
  }

  /** In rows of one table the last row agrees with the one before it on what the program is. */
  lemma {:induction false} LastRowsAgree(rows: seq<HitRow>)
    requires rows != [] && WellKeyed(Elements(rows))
    ensures WellKeyed(Elements(rows[..|rows| - 1]))
    ensures |rows| > 1 && rows[|rows| - 2].program.programId == rows[|rows| - 1].program.programId ==>
      rows[|rows| - 2].program == rows[|rows| - 1].program
  {
    var n := |rows| - 1;
    assert Elements(rows[..n]) <= Elements(rows) && rows[n] in Elements(rows);
    assert n > 0 ==> rows[n - 1] in Elements(rows);
  }

  lemma {:induction false} AddRowEnds(results: seq<SearchProgram>, row: HitRow)
    requires results != [] && results[|results| - 1].program.programId == row.program.programId ==>
      results[|results| - 1].program == row.program
    ensures AddRow(results, row) != [] && AddRow(results, row)[|AddRow(results, row)| - 1].program == row.program
  {
  }

  /** Flattening the groups gives the rows back, in order. */
  lemma {:induction false} GroupingFlattensBack(rows: seq<HitRow>)
    requires WellKeyed(Elements(rows))
    ensures Flatten(Grouped(rows)) == rows
    ensures rows != [] ==> Grouped(rows) != [] && Grouped(rows)[|Grouped(rows)| - 1].program == rows[|rows| - 1].program
  {
    hide WellKeyed, AddRow;
    if rows != [] {
      hide Flatten;
      var n := |rows| - 1;
      LastRowsAgree(rows);
      GroupingFlattensBack(rows[..n]);
      FlattenAddRow(Grouped(rows[..n]), rows[n]);
      AddRowEnds(Grouped(rows[..n]), rows[n]);
      assert rows[..n] + [rows[n]] == rows;
    }
  }

  /** Results whose neighbours are different programs, none without hits. */
  ghost predicate ProperGroups(results: seq<SearchProgram>) {
    && (forall i :: 0 <= i < |results| ==> results[i].hits != [])
    && (forall i :: 0 < i < |results| ==> results[i - 1].program.programId != results[i].program.programId)
  }

  lemma {:induction false} GroupedSnoc(rows: seq<HitRow>, row: HitRow)
    ensures Grouped(rows + [row]) == AddRow(Grouped(rows), row)
  {
    hide AddRow;
    assert (rows + [row])[..|rows|] == rows;
  }

  lemma {:induction false} RowsOfSnoc(rows: seq<HitRow>, program: ProgramInfo, hits: seq<SearchHit>, hit: SearchHit)
    ensures rows + RowsOf(program, hits + [hit]) == rows + RowsOf(program, hits) + [HitRow(program, hit)]
    ensures rows + RowsOf(program, []) == rows
  {
  }

  lemma {:induction false} AddHit(before: seq<SearchProgram>, program: ProgramInfo, hits: seq<SearchHit>, hit: SearchHit)
    ensures AddRow(before + [SearchProgram(program, hits)], HitRow(program, hit))
      == before + [SearchProgram(program, hits + [hit])]
  {
  }

  lemma {:induction false} GroupingOneProgram(
      rows: seq<HitRow>, program: ProgramInfo, hits: seq<SearchHit>, before: seq<SearchProgram>)
    requires Grouped(rows) == before && hits != []
    requires before != [] ==> before[|before| - 1].program.programId != program.programId
    ensures Grouped(rows + RowsOf(program, hits)) == before + [SearchProgram(program, hits)]
  {
    hide Grouped, RowsOf;
    var n := |hits| - 1;
    var (init, last) := (hits[..n], hits[n]);
    assert init + [last] == hits;
    RowsOfSnoc(rows, program, init, last);
    GroupedSnoc(rows + RowsOf(program, init), HitRow(program, last));
    if n > 0 {
      hide AddRow;
      GroupingOneProgram(rows, program, init, before);
      AddHit(before, program, init, last);
    }
  }

  /** Grouping inverts flattening. */
  lemma {:induction false} GroupingInvertsFlattening(results: seq<SearchProgram>)
    requires ProperGroups(results)
    ensures Grouped(Flatten(results)) == results
  {
    if results != [] {
      var n := |results| - 1;
      GroupingInvertsFlattening(results[..n]);
      GroupingOneProgram(Flatten(results[..n]), results[n].program, results[n].hits, results[..n]);
      assert results[..n] + [results[n]] == results;
    }
  }

  // ---------------------------------------------------------------- ranked rows

  ghost function ProgramsOf(matched: set<HitRow>): set<ProgramInfo> {
    set r | r in matched :: r.program
  }

  /** The matching lines of the same program before this one. */
  ghost function EarlierHits(matched: set<HitRow>, row: HitRow): set<HitRow> {
    set r | r in matched && r.program.programId == row.program.programId && r.hit.lineNo < row.hit.lineNo
  }

  /** `DENSE_RANK() OVER (ORDER BY recording_started_at DESC, id DESC)` */
  ghost function ProgramRank(matched: set<HitRow>, row: HitRow): nat {
    |NewerIn(ProgramsOf(matched), row.program)| + 1
  }

  /** `ROW_NUMBER() OVER (PARTITION BY id ORDER BY line_no ASC)` */
  ghost function HitRank(matched: set<HitRow>, row: HitRow): nat {
    |EarlierHits(matched, row)| + 1
  }

  predicate RowBefore(r: HitRow, s: HitRow) {
    Newer(r.program, s.program) || (r.program.programId == s.program.programId && r.hit.lineNo < s.hit.lineNo)
  }

  /** The rows the ranked query returns: those within both ranks, by program rank and then hit rank. */
  ghost predicate IsRanked(rows: seq<HitRow>, matched: set<HitRow>, limit: int, innerHits: int) {
    && (forall r :: r in rows <==> r in matched && ProgramRank(matched, r) <= limit && HitRank(matched, r) <= innerHits)
    && (forall i, j :: 0 <= i < j < |rows| ==> RowBefore(rows[i], rows[j]))
  }

  ghost predicate Ascending(hits: seq<SearchHit>) {
    forall i, j :: 0 <= i < j < |hits| ==> hits[i].lineNo < hits[j].lineNo
  }

  ghost predicate HasRow(results: seq<SearchProgram>, row: HitRow) {
    exists i :: 0 <= i < |results| && results[i].program == row.program && row.hit in results[i].hits
  }

  /** What grouping rows in that order yields. */
  ghost predicate GroupsRows(results: seq<SearchProgram>, rows: seq<HitRow>) {
    && (forall r :: r in rows <==> HasRow(results, r))
    && NewestFirst(Programs(results))
    && (forall i :: 0 <= i < |results| ==> results[i].hits != [] && Ascending(results[i].hits))
    && (rows != [] ==>
          && results != []
          && results[|results| - 1].program == rows[|rows| - 1].program
          && results[|results| - 1].hits[|results[|results| - 1].hits| - 1] == rows[|rows| - 1].hit)
    && (rows == [] ==> results == [])
  }

  lemma {:induction false} AddRowHas(results: seq<SearchProgram>, row: HitRow, r: HitRow)
    requires results != [] && results[|results| - 1].program.programId == row.program.programId ==>
      results[|results| - 1].program == row.program
    ensures HasRow(AddRow(results, row), r) <==> HasRow(results, r) || r == row
  {
    var after := AddRow(results, row);
    if HasRow(results, r) {
      var i :| 0 <= i < |results| && results[i].program == r.program && r.hit in results[i].hits;
      assert after[i].program == r.program && r.hit in after[i].hits;
    }
    assert after[|after| - 1].program == row.program && row.hit in after[|after| - 1].hits;
    if i :| 0 <= i < |after| && after[i].program == r.program && r.hit in after[i].hits {
      assert i < |results| ==> results[i].program == after[i].program && (r.hit in results[i].hits || r.hit == row.hit);
      if i < |results| && r.hit in results[i].hits {
        assert HasRow(results, r);
      }
    }
  }

  lemma {:induction false} AddRowGroups(results: seq<SearchProgram>, rows: seq<HitRow>, row: HitRow)
    requires GroupsRows(results, rows)
    requires rows != [] ==>
      RowBefore(rows[|rows| - 1], row)
      && (rows[|rows| - 1].program.programId == row.program.programId ==> rows[|rows| - 1].program == row.program)
    ensures GroupsRows(AddRow(results, row), rows + [row])
  {
    var n, after := |results| - 1, AddRow(results, row);
    forall r ensures r in rows + [row] <==> HasRow(after, r) {
      AddRowHas(results, row, r);
      assert r in rows + [row] <==> r in rows || r == row;
    }
    if results != [] && results[n].program.programId == row.program.programId {
      NewerIrreflexiveById(rows[|rows| - 1].program, row.program);
      assert Programs(after) == Programs(results);
    } else if results != [] {
      AppendOlder(Programs(results), row.program);
      assert Programs(after) == Programs(results) + [row.program];
    }
  }

  lemma {:induction false} NewerIrreflexiveById(p: ProgramInfo, q: ProgramInfo)
    requires p == q
    ensures !Newer(p, q)
  {
    NewerIrreflexive(p);
  }

  lemma {:induction false} AppendOlder(s: seq<ProgramInfo>, p: ProgramInfo)
    requires NewestFirst(s) && s != [] && Newer(s[|s| - 1], p)
    ensures NewestFirst(s + [p])
  {
    forall i | 0 <= i < |s| ensures Newer(s[i], p) {
      if i < |s| - 1 {
        NewerTransitive(s[i], s[|s| - 1], p);
      }
    }
  }

  lemma {:induction false} GroupedGroups(rows: seq<HitRow>)
    requires WellKeyed(Elements(rows)) && forall i, j :: 0 <= i < j < |rows| ==> RowBefore(rows[i], rows[j])
    ensures GroupsRows(Grouped(rows), rows)
  {
    hide GroupsRows, RowBefore, AddRow;
    if rows == [] {
      NoGroups();
    } else {
      var n := |rows| - 1;
      assert Elements(rows[..n]) <= Elements(rows) && rows[n] in Elements(rows);
      if n > 0 {
        assert rows[n - 1] in Elements(rows);
      }
      GroupedGroups(rows[..n]);
      AddRowGroups(Grouped(rows[..n]), rows[..n], rows[n]);
      assert rows[..n] + [rows[n]] == rows;
    }
  }

  lemma {:induction false} NoGroups()
    ensures GroupsRows([], [])
  {
  }

  lemma {:induction false} FirstHitExists(matched: set<HitRow>, row: HitRow) returns (first: HitRow)
    requires WellKeyed(matched) && row in matched
    ensures first in matched && first.program == row.program && EarlierHits(matched, first) == {}
    decreases |EarlierHits(matched, row)|
  {
    if earlier :| earlier in EarlierHits(matched, row) {
      assert EarlierHits(matched, earlier) <= EarlierHits(matched, row) - {earlier};
      SubsetSize(EarlierHits(matched, earlier), EarlierHits(matched, row) - {earlier});
      first := FirstHitExists(matched, earlier);
    } else {
      first := row;
    }
  }

  lemma {:induction false} RankedWellKeyed(rows: seq<HitRow>, matched: set<HitRow>, limit: int, innerHits: int)
    requires IsRanked(rows, matched, limit, innerHits) && WellKeyed(matched)
    ensures WellKeyed(Elements(rows))
  {
    assert forall r :: r in Elements(rows) ==> r in rows;
  }

  /** Ranking, limiting and grouping yields one result per program: exactly the newest `limit` matching programs,
    * newest first, each with its first `innerHits` matching lines in line order. */
  lemma {:induction false} RankedGroupsExact(rows: seq<HitRow>, matched: set<HitRow>, limit: nat, innerHits: nat)
    requires IsRanked(rows, matched, limit, innerHits) && WellKeyed(matched) && innerHits >= 1
    ensures var results := Grouped(rows);
      && ListsLatest(Programs(results), ProgramsOf(matched), limit)
      && NewestFirst(Programs(results))
      && Elements(Programs(results)) == Top(ProgramsOf(matched), limit)
      && (forall i :: 0 <= i < |results| ==> results[i].hits != [] && Ascending(results[i].hits))
      && (forall i, hit :: 0 <= i < |results| ==>
            (hit in results[i].hits <==>
               HitRow(results[i].program, hit) in matched && HitRank(matched, HitRow(results[i].program, hit)) <= innerHits))
  {
    hide RowBefore, WellKeyed, EarlierHits, Newer, ListsLatest;
    RankedWellKeyed(rows, matched, limit, innerHits);
    GroupedGroups(rows);
    var results := Grouped(rows);
    forall p ensures p in Elements(Programs(results)) <==> p in Top(ProgramsOf(matched), limit) {
      if p in Top(ProgramsOf(matched), limit) {
        var row :| row in matched && row.program == p;
        var first := FirstHitExists(matched, row);
        assert first in rows && HasRow(results, first);
        var i :| 0 <= i < |results| && results[i].program == p;
        assert Programs(results)[i] == p;
      }
      if p in Elements(Programs(results)) {
        var i :| 0 <= i < |results| && results[i].program == p;
        assert HasRow(results, HitRow(p, results[i].hits[0]));
        assert HitRow(p, results[i].hits[0]) in rows;
      }
    }
    forall i, hit | 0 <= i < |results|
      ensures hit in results[i].hits <==>
        HitRow(results[i].program, hit) in matched && HitRank(matched, HitRow(results[i].program, hit)) <= innerHits
    {
      HitsOfGroup(rows, matched, limit, innerHits, results, i, hit);
    }
    ProgramsKeyed(matched);
    TopIsLatest(Programs(results), ProgramsOf(matched), limit);
  }

  lemma {:induction false} ProgramsKeyed(matched: set<HitRow>)
    requires WellKeyed(matched)
    ensures IdsUnique(ProgramsOf(matched))
  {
  }

  lemma {:induction false} HitsOfGroup(
      rows: seq<HitRow>, matched: set<HitRow>, limit: int, innerHits: int, results: seq<SearchProgram>, i: nat, hit: SearchHit)
    requires IsRanked(rows, matched, limit, innerHits) && GroupsRows(results, rows) && i < |results|
    ensures hit in results[i].hits <==>
      HitRow(results[i].program, hit) in matched && HitRank(matched, HitRow(results[i].program, hit)) <= innerHits
  {
    hide RowBefore, EarlierHits, Ascending;
    var row := HitRow(results[i].program, hit);
    var other := HitRow(results[i].program, results[i].hits[0]);
    assert HasRow(results, other) && other in rows;
    if row in rows {
      var j :| 0 <= j < |results| && results[j].program == row.program && hit in results[j].hits;
      SamePosition(Programs(results), i, j);
    } else {
      assert !HasRow(results, row);
    }
  }

  lemma {:induction false} SamePosition(s: seq<ProgramInfo>, i: nat, j: nat)
    requires NewestFirst(s) && i < |s| && j < |s| && s[i] == s[j]
    ensures i == j
  {
    NewerIrreflexive(s[i]);
  }

  // ---------------------------------------------------------------- merging two searches

  function InsertNewest(s: seq<SearchProgram>, x: SearchProgram): seq<SearchProgram> {
    if s != [] && Newer(x.program, s[|s| - 1].program) then InsertNewest(s[..|s| - 1], x) + [s[|s| - 1]] else s + [x]
  }

  /** The stable newest-first sort. */
  function SortedNewest(s: seq<SearchProgram>): seq<SearchProgram> {
    if s == [] then [] else InsertNewest(SortedNewest(s[..|s| - 1]), s[|s| - 1])
  }

  function Ids(s: seq<SearchProgram>): set<int> {
    set p | p in s :: p.program.programId
  }

  /** `later` without the programs already seen. */
  function Unseen(seen: set<int>, later: seq<SearchProgram>): seq<SearchProgram> {
    if later == [] then []
    else
      var init, last := later[..|later| - 1], later[|later| - 1];
      if last.program.programId in seen + Ids(init) then Unseen(seen, init) else Unseen(seen, init) + [last]
  }

  function Truncated(s: seq<SearchProgram>, limit: int): seq<SearchProgram> {
    var k := if limit > 0 then limit else 0;
    if |s| <= k then s else s[..k]
  }

  lemma {:induction false} IdsNext(s: seq<SearchProgram>, k: nat)
    requires k <= |s|
    ensures Ids(s[..0]) == {}
    ensures k < |s| ==> Ids(s[..k + 1]) == Ids(s[..k]) + {s[k].program.programId}
  {
  }

  lemma {:induction false} UnseenNext(seen: set<int>, later: seq<SearchProgram>, k: nat)
    requires k <= |later|
    ensures Unseen(seen, later[..0]) == []
    ensures k < |later| ==>
      Unseen(seen, later[..k + 1]) ==
        if later[k].program.programId in seen + Ids(later[..k]) then Unseen(seen, later[..k])
        else Unseen(seen, later[..k]) + [later[k]]
  {
    hide Ids;
    if k < |later| {
      assert later[..k + 1][..k] == later[..k];
    }
  }

  /** Caption results first, then the metadata results of programs not seen yet; sorted and truncated. */
  method MergeResults(byLine: seq<SearchProgram>, byProgram: seq<SearchProgram>, limit: int)
    returns (merged: seq<SearchProgram>)
    ensures merged == Truncated(SortedNewest(byLine + Unseen(Ids(byLine), byProgram)), limit)
    ensures limit <= 0 ==> merged == []
  {
    hide Ids, Unseen, SortedNewest;
    merged := [];
    var seen: set<int> := {};
    IdsNext(byLine, 0);
    for k := 0 to |byLine|
      invariant merged == byLine[..k]
      invariant seen == Ids(byLine[..k])
    {
      IdsNext(byLine, k);
      seen := seen + {byLine[k].program.programId};
      merged := merged + [byLine[k]];
    }
    assert byLine[..|byLine|] == byLine;
    IdsNext(byProgram, 0);
    UnseenNext(Ids(byLine), byProgram, 0);
    for k := 0 to |byProgram|
      invariant merged == byLine + Unseen(Ids(byLine), byProgram[..k])
      invariant seen == Ids(byLine) + Ids(byProgram[..k])
    {
      var program := byProgram[k];
      IdsNext(byProgram, k);
      UnseenNext(Ids(byLine), byProgram, k);
      if program.program.programId !in seen {
        seen := seen + {program.program.programId};
        merged := merged + [program];
      }
    }
    assert byProgram[..|byProgram|] == byProgram;
    merged := Truncated(SortedNewest(merged), limit);
  }

  lemma {:induction false} InsertElements(s: seq<SearchProgram>, x: SearchProgram)
    ensures Elements(InsertNewest(s, x)) == Elements(s) + {x}
  {
    if s != [] && Newer(x.program, s[|s| - 1].program) {
      var n := |s| - 1;
      InsertElements(s[..n], x);
      assert Elements(s) == Elements(s[..n]) + {s[n]};
      assert Elements(InsertNewest(s[..n], x) + [s[n]]) == Elements(InsertNewest(s[..n], x)) + {s[n]};
    } else {
      assert Elements(s + [x]) == Elements(s) + {x};
    }
  }

  /** Appending a program older than every other keeps a list newest first. */
  lemma {:induction false} AppendOldest(s: seq<SearchProgram>, x: SearchProgram)
    requires NewestFirst(Programs(s)) && forall p :: p in Elements(s) ==> Newer(p.program, x.program)
    ensures NewestFirst(Programs(s + [x]))
  {
    var programs := Programs(s + [x]);
    forall i, j | 0 <= i < j < |programs| ensures Newer(programs[i], programs[j]) {
      assert s[i] in Elements(s);
      assert j < |s| ==> Newer(Programs(s)[i], Programs(s)[j]);
    }
  }

  lemma {:induction false} InsertSorts(s: seq<SearchProgram>, x: SearchProgram)
    requires NewestFirst(Programs(s)) && forall p :: p in Elements(s) ==> p.program.programId != x.program.programId
    ensures NewestFirst(Programs(InsertNewest(s, x)))
  {
    hide Newer;
    if s != [] {
      var n := |s| - 1;
      assert Programs(s)[..n] == Programs(s[..n]);
      assert s[n] in Elements(s) && forall p :: p in Elements(s[..n]) ==> p in Elements(s);
      NewerTotal(x.program, s[n].program);
      if Newer(x.program, s[n].program) {
        InsertSorts(s[..n], x);
        InsertElements(s[..n], x);
        OlderThanAllBefore(s);
        AppendOldest(InsertNewest(s[..n], x), s[n]);
      } else {
        AppendOlder(Programs(s), x.program);
        assert Programs(s + [x]) == Programs(s) + [x.program];
      }
    }
  }

  lemma {:induction false} OlderThanAllBefore(s: seq<SearchProgram>)
    requires s != [] && NewestFirst(Programs(s))
    ensures forall p :: p in Elements(s[..|s| - 1]) ==> Newer(p.program, s[|s| - 1].program)
  {
    var n := |s| - 1;
    forall p | p in Elements(s[..n]) ensures Newer(p.program, s[n].program) {
      var i :| 0 <= i < n && s[..n][i] == p;
      assert Newer(Programs(s)[i], Programs(s)[n]);
    }
  }

  ghost predicate DistinctIds(s: seq<SearchProgram>) {
    forall i, j :: 0 <= i < j < |s| ==> s[i].program.programId != s[j].program.programId
  }

  lemma {:induction false} SortedNewestSorts(s: seq<SearchProgram>)
    ensures Elements(SortedNewest(s)) == Elements(s)
    ensures DistinctIds(s) ==> NewestFirst(Programs(SortedNewest(s)))
  {
    hide NewestFirst, InsertNewest, Newer;
    if s == [] {
      assert NewestFirst(Programs([])) by {
        NothingNewer();
      }
    } else {
      var n := |s| - 1;
      SortedNewestSorts(s[..n]);
      InsertElements(SortedNewest(s[..n]), s[n]);
      assert Elements(s) == Elements(s[..n]) + {s[n]};
      if DistinctIds(s) {
        InsertSorts(SortedNewest(s[..n]), s[n]);
      }
    }
  }

  lemma {:induction false} NothingNewer()
    ensures NewestFirst(Programs([]))
  {
  }

  lemma {:induction false} UnseenExact(seen: set<int>, later: seq<SearchProgram>)
    requires DistinctIds(later)
    ensures DistinctIds(Unseen(seen, later))
    ensures forall p :: p in Unseen(seen, later) <==> p in later && p.program.programId !in seen
  {
    if later == [] {
      UnseenNext(seen, later, 0);
    } else {
      hide Unseen;
      var (n, init, last) := (|later| - 1, later[..|later| - 1], later[|later| - 1]);
      assert later[..n + 1] == later == init + [last];
      UnseenNext(seen, later, n);
      UnseenExact(seen, init);
      LastIdIsNew(later);
      hide Ids, DistinctIds;
      var unseen := Unseen(seen, init);
      if last.program.programId !in seen {
        AppendDistinct(unseen, last);
      }
    }
  }

  lemma {:induction false} LastIdIsNew(later: seq<SearchProgram>)
    requires later != [] && DistinctIds(later)
    ensures DistinctIds(later[..|later| - 1])
    ensures later[|later| - 1].program.programId !in Ids(later[..|later| - 1])
    ensures forall p :: p in later[..|later| - 1] ==> p.program.programId != later[|later| - 1].program.programId
  {
  }

  lemma {:induction false} AppendDistinct(s: seq<SearchProgram>, last: SearchProgram)
    requires DistinctIds(s) && forall p :: p in s ==> p.program.programId != last.program.programId
    ensures DistinctIds(s + [last])
  {
  }

  /** A newest-first list of programs of one table names each once. */
  lemma {:induction false} NewestFirstDistinct(s: seq<SearchProgram>, programs: set<ProgramInfo>)
    requires NewestFirst(Programs(s)) && IdsUnique(programs) && Elements(Programs(s)) <= programs
    ensures DistinctIds(s)
  {
    forall i, j | 0 <= i < j < |s| ensures s[i].program.programId != s[j].program.programId {
      assert Newer(Programs(s)[i], Programs(s)[j]);
      assert Programs(s)[i] in Elements(Programs(s)) && Programs(s)[j] in Elements(Programs(s));
      NewerAsymmetric(s[i].program, s[j].program);
    }
  }

  lemma {:induction false} ProgramInElements(s: seq<SearchProgram>, p: ProgramInfo)
    ensures p in Elements(Programs(s)) <==> exists entry :: entry in Elements(s) && entry.program == p
  {
    if p in Elements(Programs(s)) {
      var i :| 0 <= i < |s| && Programs(s)[i] == p;
      assert s[i] in Elements(s) && s[i].program == p;
    }
    if entry :| entry in Elements(s) && entry.program == p {
      var i :| 0 <= i < |s| && s[i] == entry;
      assert Programs(s)[i] == p;
    }
  }

  /** The list before sorting: every program of either search once, caption results first. */
  lemma {:induction false} MergedList(
      byLine: seq<SearchProgram>, byProgram: seq<SearchProgram>, programs: set<ProgramInfo>)
    returns (list: seq<SearchProgram>)
    requires IdsUnique(programs)
    requires NewestFirst(Programs(byLine)) && Elements(Programs(byLine)) <= programs
    requires NewestFirst(Programs(byProgram)) && Elements(Programs(byProgram)) <= programs
    ensures list == byLine + Unseen(Ids(byLine), byProgram) && DistinctIds(list)
    ensures forall p :: p in list <==> p in byLine || (p in byProgram && p.program.programId !in Ids(byLine))
    ensures Elements(Programs(list)) == Elements(Programs(byLine)) + Elements(Programs(byProgram))
  {
    hide Newer, NewestFirst;
    NewestFirstDistinct(byLine, programs);
    NewestFirstDistinct(byProgram, programs);
    UnseenExact(Ids(byLine), byProgram);
    list := byLine + Unseen(Ids(byLine), byProgram);
    assert forall p :: p in byLine ==> p.program.programId in Ids(byLine);
    forall p ensures p in Elements(Programs(list)) <==> p in Elements(Programs(byLine)) || p in Elements(Programs(byProgram)) {
      ProgramInElements(list, p);
      ProgramInElements(byLine, p);
      ProgramInElements(byProgram, p);
      if entry :| entry in byProgram && entry.program == p && p.programId in Ids(byLine) {
        var first :| first in byLine && first.program.programId == p.programId;
        ProgramInElements(byLine, first.program);
        assert first in Elements(byLine) && first.program in programs && p in programs;
      }
    }
  }

  lemma {:induction false} TruncatedPrograms(s: seq<SearchProgram>, limit: nat)
    requires NewestFirst(Programs(s))
    ensures NewestFirst(Programs(Truncated(s, limit)))
    ensures Elements(Programs(Truncated(s, limit))) == Top(Elements(Programs(s)), limit)
    ensures forall p :: p in Truncated(s, limit) ==> p in s
  {
    hide Newer;
    TruncatedIsTop(Programs(s), limit);
    assert Programs(Truncated(s, limit)) == if |s| <= limit then Programs(s) else Programs(s)[..limit];
    var t := Programs(Truncated(s, limit));
    forall i, j | 0 <= i < j < |t| ensures Newer(t[i], t[j]) {
      assert t[i] == Programs(s)[i] && t[j] == Programs(s)[j];
    }
  }

  /** The general search is exact: on one snapshot, merging the newest `limit` caption matches with the newest
    * `limit` metadata matches gives the newest `limit` of all matches, and every returned program with a caption
    * match carries its caption hits. */
  lemma {:induction false} GeneralSearchExact(
      matched: set<HitRow>, rows: seq<HitRow>, metadata: set<ProgramInfo>, byProgram: seq<SearchProgram>,
      limit: nat, innerHits: nat)
    requires IsRanked(rows, matched, limit, innerHits) && WellKeyed(matched) && innerHits >= 1
    requires NewestFirst(Programs(byProgram)) && Elements(Programs(byProgram)) == Top(metadata, limit)
    requires forall i :: 0 <= i < |byProgram| ==> byProgram[i].hits == []
    requires IdsUnique(ProgramsOf(matched) + metadata)
    ensures var byLine := Grouped(rows);
      var merged := Truncated(SortedNewest(byLine + Unseen(Ids(byLine), byProgram)), limit);
      && ListsLatest(Programs(merged), ProgramsOf(matched) + metadata, limit)
      && NewestFirst(Programs(merged))
      && Elements(Programs(merged)) == Top(ProgramsOf(matched) + metadata, limit)
      && forall p :: p in merged ==>
        if p.program in ProgramsOf(matched) then p in byLine && p.hits != [] else p.hits == []
  {
    hide Newer, NewestFirst, IsRanked, WellKeyed, Grouped, SortedNewest, Truncated, Unseen, Ascending, HitRank, ListsLatest;
    var a, all := ProgramsOf(matched), ProgramsOf(matched) + metadata;
    RankedGroupsExact(rows, matched, limit, innerHits);
    var byLine := Grouped(rows);
    var list := MergedList(byLine, byProgram, all);
    SortedNewestSorts(list);
    var sorted := SortedNewest(list);
    SameProgramsSorted(list, sorted);
    TruncatedPrograms(sorted, limit);
    TopOfTops(a, metadata, limit);
    var merged := Truncated(sorted, limit);
    TopIsLatest(Programs(merged), all, limit);
    forall p | p in merged ensures if p.program in a then p in byLine && p.hits != [] else p.hits == [] {
      assert p in Elements(sorted) && p in list;
      ProgramInElements(merged, p.program);
      assert p in Elements(merged) && p.program in Top(all, limit);
      TopWithin(a, all, p.program, limit);
      ProgramInElements(byLine, p.program);
      if p.program in a {
        var entry :| entry in byLine && entry.program == p.program;
        assert p.program.programId in Ids(byLine);
      } else {
        assert p in byLine ==> p in Elements(byLine);
      }
    }
  }

  lemma {:induction false} SameProgramsSorted(s: seq<SearchProgram>, t: seq<SearchProgram>)
    requires Elements(s) == Elements(t)
    ensures Elements(Programs(s)) == Elements(Programs(t))
  {
    forall p ensures p in Elements(Programs(s)) <==> p in Elements(Programs(t)) {
      ProgramInElements(s, p);
      ProgramInElements(t, p);
    }
  }
}
