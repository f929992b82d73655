/** Paging through a program's captions (src/search_db/query.rs, src/query_service.rs). */
module CaptionPages {
  import opened Wrappers

  const DEFAULT_CAPTION_LIMIT: int := 100
  const MAX_CAPTION_LIMIT: int := 500

  datatype CaptionLine = CaptionLine(lineId: int, lineNo: int, text: string)

  datatype CaptionPage = CaptionPage(captions: seq<CaptionLine>, hasMore: bool)

  datatype Response = Response(captions: seq<CaptionLine>, nextStartLine: Option<int>)

  datatype QueryError = Unavailable | BadRequest | NotFound

  /** The rows of a program in index order: line numbers are unique. */
  ghost predicate InLineOrder(rows: seq<CaptionLine>) {
    forall i, j :: 0 <= i < j < |rows| ==> rows[i].lineNo < rows[j].lineNo
  }

  /** `WHERE line_no >= start ORDER BY line_no` */
  function From(rows: seq<CaptionLine>, start: int): seq<CaptionLine> {
    if rows == [] then []
    else (if rows[0].lineNo >= start then [rows[0]] else []) + From(rows[1..], start)
  }

  /** `LIMIT max` */
  function Limited(rows: seq<CaptionLine>, max: int): seq<CaptionLine>
    requires max >= 0
  {
    if |rows| <= max then rows else rows[..max]
  }

  function Clamp(value: int, low: int, high: int): int {
    if value < low then low else if value > high then high else value
  }

  /** Fetches one row more than asked for to learn whether there are more, and drops it again. */
  method GetCaptionPage(rows: seq<CaptionLine>, startLine: int, limit: int) returns (page: CaptionPage)
    requires limit > 0
    ensures page == CaptionPage(Limited(From(rows, startLine), limit), |From(rows, startLine)| > limit)
  {
    var captions := Limited(From(rows, startLine), limit + 1);
    var hasMore := |captions| > limit;
    if hasMore {
      captions := captions[..|captions| - 1];
    }
    page := CaptionPage(captions, hasMore);
  }

  /** What a request answers: the first rows from `start`, and where to go on. */
  function PageFrom(rows: seq<CaptionLine>, start: int, limit: int): Response
    requires limit > 0
  {
    var all := From(rows, start);
    var captions := Limited(all, limit);
    Response(captions, if |all| > limit then Some(captions[|captions| - 1].lineNo + 1) else None)
  }

  /** How many captions a page has: as many as asked for between 1 and 500, and 100 if nothing is said, when more are
    * left, and otherwise no more than that. */
  predicate IsFull(count: nat, more: bool, limit: Option<int>) {
    && (limit.None? ==> if more then count == 100 else count <= 100)
    && (limit.Some? && limit.value < 1 ==> if more then count == 1 else count <= 1)
    && (limit.Some? && 1 <= limit.value <= 500 ==> if more then count == limit.value else count <= limit.value)
    && (limit.Some? && limit.value > 500 ==> if more then count == 500 else count <= 500)
  }

  /** One request. `ready` says that the search database is open, the next two that the stream and the start time
    * pass their checks, and `program` holds the rows of the program, if it is indexed. */
  method GetProgramCaptions(
      ready: bool, streamValid: bool, startedAtValid: bool, program: Option<seq<CaptionLine>>,
      startLine: Option<int>, limit: Option<int>)
    returns (result: Result<Response, QueryError>)
    ensures var start := if startLine.Some? then startLine.value else 1;
      var max := Clamp(if limit.Some? then limit.value else DEFAULT_CAPTION_LIMIT, 1, MAX_CAPTION_LIMIT);
      result ==
        if !ready then Err(Unavailable)
        else if !streamValid || !startedAtValid || start < 1 then Err(BadRequest)
        else if program.None? then Err(NotFound)
        else Ok(PageFrom(program.value, start, max))
    ensures result.Ok? ==> IsFull(|result.value.captions|, result.value.nextStartLine.Some?, limit)
  {
    if !ready {
      return Err(Unavailable);
    }
    if !streamValid {
      return Err(BadRequest);
    }
    if !startedAtValid {
      return Err(BadRequest);
    }
    var start := if startLine.Some? then startLine.value else 1;
    if start < 1 {
      return Err(BadRequest);
    }
    var max := Clamp(if limit.Some? then limit.value else DEFAULT_CAPTION_LIMIT, 1, MAX_CAPTION_LIMIT);
    if program.None? {
      return Err(NotFound);
    }
    var page := GetCaptionPage(program.value, start, max);
    var next := None;
    if page.hasMore {
      next := Some(page.captions[|page.captions| - 1].lineNo + 1);
    }
    return Ok(Response(page.captions, next));
  }

  // ---------------------------------------------------------------- following the pages

  /** Requests `|limits|` pages one after another, each from where the last one said to go on, each against the
    * table of its moment. */
  function Follow(tables: seq<seq<CaptionLine>>, limits: seq<int>, start: int): Response
    requires |tables| == |limits| && forall i :: 0 <= i < |limits| ==> limits[i] > 0
    decreases |limits|
  {
    if limits == [] then Response([], Some(start))
    else
      var before := Follow(tables[..|limits| - 1], limits[..|limits| - 1], start);
      if before.nextStartLine.None? then before
      else
        var page := PageFrom(tables[|limits| - 1], before.nextStartLine.value, limits[|limits| - 1]);
        Response(before.captions + page.captions, page.nextStartLine)
  }

  /** Number of requests until the last page: how many of them were answered. */
  function Requests(tables: seq<seq<CaptionLine>>, limits: seq<int>, start: int): (n: nat)
    requires |tables| == |limits| && forall i :: 0 <= i < |limits| ==> limits[i] > 0
    ensures n <= |limits|
    decreases |limits|
  {
    if limits == [] then 0
    else
      var init := |limits| - 1;
      if Follow(tables[..init], limits[..init], start).nextStartLine.None? then Requests(tables[..init], limits[..init], start)
      else |limits|
  }

  /** Captions are only ever appended, with larger line numbers. */
  ghost predicate Growing(tables: seq<seq<CaptionLine>>) {
    && (forall i :: 0 <= i < |tables| ==> InLineOrder(tables[i]))
    && (forall i, j :: 0 <= i <= j < |tables| ==> tables[i] <= tables[j])
  }

  lemma {:induction false} FromAll(rows: seq<CaptionLine>, start: int)
    requires forall i :: 0 <= i < |rows| ==> rows[i].lineNo >= start
    ensures From(rows, start) == rows
  {
    if rows != [] {
      FromAll(rows[1..], start);
    }
  }

  lemma {:induction false} FromSkips(rows: seq<CaptionLine>, start: int)
    requires rows != [] && rows[0].lineNo < start
    ensures From(rows, start) == From(rows[1..], start)
  {
    hide From;
    FromFirst(rows, start);
  }

  lemma {:induction false} FromFirst(rows: seq<CaptionLine>, start: int)
    requires rows != []
    ensures From(rows, start) == (if rows[0].lineNo >= start then [rows[0]] else []) + From(rows[1..], start)
  {
  }

  /** In line order, what comes from `start` is a suffix. */
  lemma {:induction false} FromIsSuffix(rows: seq<CaptionLine>, start: int) returns (k: nat)
    requires InLineOrder(rows)
    ensures k <= |rows| && From(rows, start) == rows[k..]
    ensures forall i :: 0 <= i < |rows| ==> (i >= k <==> rows[i].lineNo >= start)
  {
    if rows == [] {
      k := 0;
    } else if rows[0].lineNo >= start {
      FromAll(rows, start);
      k := 0;
    } else {
      hide From, InLineOrder;
      TailInOrder(rows);
      FromSkips(rows, start);
      var j := FromIsSuffix(rows[1..], start);
      SuffixOfTail(rows, start, j);
      k := j + 1;
    }
  }

  /** What comes from a line is every caption with that number or a later one, and no other. */
  lemma {:induction false} FromExact(rows: seq<CaptionLine>, start: int, row: CaptionLine)
    ensures row in From(rows, start) <==> row in rows && row.lineNo >= start
  {
    if rows != [] {
      FromExact(rows[1..], start, row);
      assert rows == [rows[0]] + rows[1..];
    }
  }

  lemma {:induction false} TailInOrder(rows: seq<CaptionLine>)
    requires rows != [] && InLineOrder(rows)
    ensures InLineOrder(rows[1..])
  {
    var later := rows[1..];
    assert forall i :: 0 <= i < |later| ==> later[i] == rows[i + 1];
  }

  lemma {:induction false} SuffixOfTail(rows: seq<CaptionLine>, start: int, j: nat)
    requires rows != [] && rows[0].lineNo < start && j < |rows|
    requires forall i :: 0 <= i < |rows[1..]| ==> (i >= j <==> rows[1..][i].lineNo >= start)
    ensures rows[1..][j..] == rows[j + 1..]
    ensures forall i :: 0 <= i < |rows| ==> (i >= j + 1 <==> rows[i].lineNo >= start)
  {
    forall i | 0 < i < |rows| ensures i >= j + 1 <==> rows[i].lineNo >= start {
      assert rows[i] == rows[1..][i - 1];
    }
  }

  /** A page and what comes after it are everything from its start, also in a table that has grown since. */
  lemma {:induction false} PageThenRest(rows: seq<CaptionLine>, grown: seq<CaptionLine>, start: int, limit: int)
    requires InLineOrder(rows) && InLineOrder(grown) && rows <= grown && limit > 0
    ensures var page := PageFrom(rows, start, limit);
      page.nextStartLine.Some? ==> page.captions + From(grown, page.nextStartLine.value) == From(grown, start)
    ensures PageFrom(rows, start, limit).nextStartLine.None? ==> PageFrom(rows, start, limit).captions == From(rows, start)
    ensures PageFrom(rows, start, limit).nextStartLine.Some? ==>
      && PageFrom(rows, start, limit).captions != []
      && From(rows, PageFrom(rows, start, limit).nextStartLine.value) != []
  {
    hide From;
    var page := PageFrom(rows, start, limit);
    if page.nextStartLine.Some? {
      var k := FromIsSuffix(rows, start);
      var g := FromIsSuffix(grown, start);
      var m := FromIsSuffix(rows, page.nextStartLine.value);
      NextIndex(rows, k + limit, m);
      SameStart(rows, grown, start, k, g);
      var n := FromIsSuffix(grown, page.nextStartLine.value);
      assert page.captions == rows[k..k + limit] == grown[k..k + limit];
      var last := rows[k + limit - 1];
      assert grown[k + limit - 1] == last && page.nextStartLine.value == last.lineNo + 1;
      assert n == k + limit by {
        NextIndex(grown, k + limit, n);
      }
      assert grown[k..k + limit] + grown[k + limit..] == grown[k..];
    }
  }

  lemma {:induction false} SameStart(rows: seq<CaptionLine>, grown: seq<CaptionLine>, start: int, k: nat, g: nat)
    requires rows <= grown && k < |rows| && g <= |grown|
    requires forall i :: 0 <= i < |rows| ==> (i >= k <==> rows[i].lineNo >= start)
    requires forall i :: 0 <= i < |grown| ==> (i >= g <==> grown[i].lineNo >= start)
    ensures k == g
  {
    assert grown[k] == rows[k];
    assert k > 0 ==> grown[k - 1] == rows[k - 1];
    assert g < |rows| ==> grown[g] == rows[g];
  }

  lemma {:induction false} NextIndex(grown: seq<CaptionLine>, i: nat, n: nat)
    requires InLineOrder(grown) && 0 < i <= |grown| && n <= |grown|
    requires forall j :: 0 <= j < |grown| ==> (j >= n <==> grown[j].lineNo >= grown[i - 1].lineNo + 1)
    ensures n == i
  {
    assert i < |grown| ==> grown[i].lineNo > grown[i - 1].lineNo;
    assert grown[i - 1].lineNo < grown[i - 1].lineNo + 1;
  }

  /** Following the pages is an exact cover: what has been delivered, followed by everything from where to go on,
    * is everything from the start, in line order and once each, whatever the limits and whatever was appended in
    * between; once there is nothing to go on to, it is everything that was there for the last request. */
  lemma {:induction false} FollowingCovers(
      tables: seq<seq<CaptionLine>>, limits: seq<int>, start: int, now: seq<CaptionLine>)
    requires |tables| == |limits| && forall i :: 0 <= i < |limits| ==> limits[i] > 0
    requires Growing(tables + [now])
    ensures var got := Follow(tables, limits, start);
      && (got.nextStartLine.Some? ==> got.captions + From(now, got.nextStartLine.value) == From(now, start))
      && (got.nextStartLine.None? ==>
            Requests(tables, limits, start) > 0
            && got.captions == From(tables[Requests(tables, limits, start) - 1], start))
    decreases |limits|
  {
    hide From, InLineOrder, PageFrom, Growing;
    if limits != [] {
      var n := |limits| - 1;
      var table := tables[n];
      GrowingParts(tables, now);
      FollowingCovers(tables[..n], limits[..n], start, table);
      FollowingCovers(tables[..n], limits[..n], start, now);
      var before := Follow(tables[..n], limits[..n], start);
      if before.nextStartLine.Some? {
        PageThenRest(table, now, before.nextStartLine.value, limits[n]);
        var page := PageFrom(table, before.nextStartLine.value, limits[n]);
        if page.nextStartLine.Some? {
          assert before.captions + (page.captions + From(now, page.nextStartLine.value))
            == before.captions + page.captions + From(now, page.nextStartLine.value);
        }
      }
    } else {
      assert [] + From(now, start) == From(now, start);
    }
  }

  lemma {:induction false} GrowingParts(tables: seq<seq<CaptionLine>>, now: seq<CaptionLine>)
    requires tables != [] && Growing(tables + [now])
    ensures var (n, table) := (|tables| - 1, tables[|tables| - 1]);
      && InLineOrder(table) && InLineOrder(now) && table <= now
      && Growing(tables[..n] + [table]) && Growing(tables[..n] + [now])
  {
    hide InLineOrder;
    var n, long := |tables| - 1, tables + [now];
    assert long[n] == tables[n] && long[n + 1] == now;
    GrowingSkips(tables, now, n);
    assert tables[..n] + [tables[n]] == tables;
    assert forall i :: 0 <= i < |tables| ==> tables[i] == long[i];
  }

  lemma {:induction false} GrowingSkips(tables: seq<seq<CaptionLine>>, now: seq<CaptionLine>, n: nat)
    requires Growing(tables + [now]) && n <= |tables|
    ensures Growing(tables[..n] + [now])
  {
    hide InLineOrder;
    var short, long := tables[..n] + [now], tables + [now];
    forall i | 0 <= i < |short| ensures InLineOrder(short[i]) {
      assert short[i] == long[if i < n then i else |tables|];
    }
    forall i, j | 0 <= i <= j < |short| ensures short[i] <= short[j] {
      assert short[i] == long[if i < n then i else |tables|] && short[j] == long[if j < n then j else |tables|];
    }
  }

  /** On a fixed table every page but the last delivers at least one row, so following ends. */
  lemma {:induction false} FollowingEnds(rows: seq<CaptionLine>, limits: seq<int>, start: int)
    requires InLineOrder(rows) && forall i :: 0 <= i < |limits| ==> limits[i] > 0
    ensures var got := Follow(seq(|limits|, i => rows), limits, start);
      got.nextStartLine.Some? ==> |got.captions| >= |limits| && (limits != [] ==> |limits| < |From(rows, start)|)
    decreases |limits|
  {
    hide From, PageFrom;
    if limits != [] {
      var n := |limits| - 1;
      var tables := seq(|limits|, i => rows);
      assert tables[..n] == seq(n, i => rows);
      FollowingEnds(rows, limits[..n], start);
      var before := Follow(tables[..n], limits[..n], start);
      if before.nextStartLine.Some? {
        PageThenRest(rows, rows, before.nextStartLine.value, limits[n]);
        FixedTableGrows(rows, n);
        FollowingCovers(tables[..n], limits[..n], start, rows);
        if PageFrom(rows, before.nextStartLine.value, limits[n]).nextStartLine.Some? {
          MoreRowsLeft(rows, before.nextStartLine.value, limits[n]);
        }
      }
    }
  }

  lemma {:induction false} MoreRowsLeft(rows: seq<CaptionLine>, start: int, limit: int)
    requires limit > 0 && PageFrom(rows, start, limit).nextStartLine.Some?
    ensures |From(rows, start)| > |PageFrom(rows, start, limit).captions|
  {
    hide From;
  }

  lemma {:induction false} FixedTableGrows(rows: seq<CaptionLine>, n: nat)
    requires InLineOrder(rows)
    ensures Growing(seq(n, i => rows) + [rows])
  {
  }
}
