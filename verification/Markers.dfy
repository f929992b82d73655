/** Regenerating the marked sections of a document (src/docs_gen.rs). */
module Markers {
  import opened Wrappers

  datatype RewriteError = Unterminated | UnknownId(id: string) | DuplicateId(id: string) | EndMissing(id: string)
    | RenderFailed(message: string) | IdsMissing

  /** `isSpace` is what trimming removes; `render` produces the text of a section. */
  datatype Generator = Generator(
    kind: string,
    known: set<string>,
    isSpace: char -> bool,
    render: string -> Result<string, string>)

  const CLOSE: string := " -->"

  function OpenMarker(g: Generator): (s: string)
    ensures s != ""
  {
    "<!-- generated: " + g.kind + " "
  }

  function EndMarker(g: Generator, id: string): (s: string)
    ensures s != ""
  {
    OpenMarker(g) + id + " end" + CLOSE
  }

  // ---------------------------------------------------------------- finding

  predicate OccursAt(s: string, pattern: string, i: nat) {
    i + |pattern| <= |s| && s[i..i + |pattern|] == pattern
  }

  /** The first occurrence of `pattern` in `s`. */
  function Find(s: string, pattern: string): (r: Option<nat>)
    requires pattern != ""
    ensures r.Some? ==> OccursAt(s, pattern, r.value) && forall j :: 0 <= j < r.value ==> !OccursAt(s, pattern, j)
    ensures r.None? ==> forall j: nat :: !OccursAt(s, pattern, j)
  {
    if |s| < |pattern| then None
    else if s[..|pattern|] == pattern then
      assert OccursAt(s, pattern, 0);
      Some(0)
    else
      var later := Find(s[1..], pattern);
      FindTail(s, pattern);
      if later.Some? then Some(later.value + 1) else None
  }

  lemma {:induction false} FindTail(s: string, pattern: string)
    requires pattern != "" && |s| >= |pattern| && s[..|pattern|] != pattern
    ensures !OccursAt(s, pattern, 0)
    ensures forall j: nat :: OccursAt(s, pattern, j + 1) <==> OccursAt(s[1..], pattern, j)
    ensures forall j: nat :: j > 0 ==> (OccursAt(s, pattern, j) <==> OccursAt(s[1..], pattern, j - 1))
  {
    forall j: nat ensures OccursAt(s, pattern, j + 1) <==> OccursAt(s[1..], pattern, j) {
      if j + 1 + |pattern| <= |s| {
        assert s[1..][j..j + |pattern|] == s[j + 1..j + 1 + |pattern|];
      }
    }
    forall j: nat | j > 0 ensures OccursAt(s, pattern, j) <==> OccursAt(s[1..], pattern, j - 1) {
      assert OccursAt(s, pattern, (j - 1) + 1) <==> OccursAt(s[1..], pattern, j - 1);
    }
  }

  lemma {:induction false} FindIs(s: string, pattern: string, i: nat)
    requires pattern != "" && OccursAt(s, pattern, i) && forall j :: 0 <= j < i ==> !OccursAt(s, pattern, j)
    ensures Find(s, pattern) == Some(i)
  {
  }

  /** What follows an occurrence does not matter for whether it is the first. */
  lemma {:induction false} FindKeepsPlace(before: string, pattern: string, x: string, y: string)
    requires pattern != "" && Find(before + pattern + x, pattern) == Some(|before|)
    ensures Find(before + pattern + y, pattern) == Some(|before|)
  {
    var s, t := before + pattern + x, before + pattern + y;
    assert t[|before|..|before| + |pattern|] == pattern;
    forall j | 0 <= j < |before| ensures !OccursAt(t, pattern, j) {
      assert t[j..j + |pattern|] == s[j..j + |pattern|];
      assert !OccursAt(s, pattern, j);
    }
    FindIs(t, pattern, |before|);
  }

  // ---------------------------------------------------------------- trimming

  function TrimStart(isSpace: char -> bool, s: string): string {
    if s != "" && isSpace(s[0]) then TrimStart(isSpace, s[1..]) else s
  }

  function TrimEnd(isSpace: char -> bool, s: string): string {
    if s != "" && isSpace(s[|s| - 1]) then TrimEnd(isSpace, s[..|s| - 1]) else s
  }

  function Trim(isSpace: char -> bool, s: string): string {
    TrimEnd(isSpace, TrimStart(isSpace, s))
  }

  lemma {:induction false} TrimStartSlice(isSpace: char -> bool, s: string) returns (a: nat)
    ensures a <= |s| && TrimStart(isSpace, s) == s[a..] && forall i :: 0 <= i < a ==> isSpace(s[i])
    ensures s[a..] != "" ==> !isSpace(s[a])
  {
    if s != "" && isSpace(s[0]) {
      a := TrimStartSlice(isSpace, s[1..]);
      a := a + 1;
      assert s[1..][a - 1..] == s[a..];
      assert forall i :: 1 <= i < a ==> s[i] == s[1..][i - 1];
    } else {
      a := 0;
      assert s[0..] == s;
    }
  }

  lemma {:induction false} TrimEndSlice(isSpace: char -> bool, s: string) returns (b: nat)
    ensures b <= |s| && TrimEnd(isSpace, s) == s[..b] && forall i :: b <= i < |s| ==> isSpace(s[i])
    ensures b > 0 ==> !isSpace(s[b - 1])
  {
    if s != "" && isSpace(s[|s| - 1]) {
      b := TrimEndSlice(isSpace, s[..|s| - 1]);
      assert s[..|s| - 1][..b] == s[..b];
      assert forall i :: b <= i < |s| - 1 ==> s[i] == s[..|s| - 1][i];
    } else {
      b := |s|;
      assert s[..b] == s;
    }
  }

  /** Trimming takes spaces off both ends until neither end is one, and what it leaves it leaves alone. */
  lemma {:induction false} TrimSlice(isSpace: char -> bool, s: string) returns (a: nat, b: nat)
    ensures a <= b <= |s| && Trim(isSpace, s) == s[a..b]
    ensures forall i :: 0 <= i < a || b <= i < |s| ==> isSpace(s[i])
    ensures a < b ==> !isSpace(s[a]) && !isSpace(s[b - 1])
    ensures Trim(isSpace, s[a..b]) == s[a..b]
  {
    a := TrimStartSlice(isSpace, s);
    var tail := s[a..];
    var n := TrimEndSlice(isSpace, tail);
    b := a + n;
    assert tail[..n] == s[a..b];
    assert forall i :: b <= i < |s| ==> s[i] == tail[i - a];
    if n > 0 {
      assert s[a..b][0] == s[a] && s[a..b][|s[a..b]| - 1] == tail[n - 1];
    }
  }

  lemma {:induction false} SliceOfSlice(s: string, a: nat, b: nat, j: nat, n: nat)
    requires a <= b <= |s| && a + j + n <= b
    ensures s[a..b][j..j + n] == s[a + j..a + j + n]
  {
    var p, q := s[a..b][j..j + n], s[a + j..a + j + n];
    assert forall m :: 0 <= m < n ==> p[m] == q[m];
  }

  lemma {:induction false} CloseAtEnd(id: string, y: string)
    ensures OccursAt(id + CLOSE + y, CLOSE, |id|)
  {
    assert (id + CLOSE + y)[|id|..|id| + |CLOSE|] == CLOSE;
  }

  /** The space in front of the closing arrow is the only one in it, so it cannot overlap itself: an arrow is met
    * first where text without one ends. */
  lemma {:induction false} CloseEndsText(s: string, y: string)
    requires Find(s, CLOSE).None?
    ensures Find(s + CLOSE + y, CLOSE) == Some(|s|)
  {
    hide Find, OccursAt;
    forall j | 0 <= j < |s| ensures !OccursAt(s + CLOSE + y, CLOSE, j) {
      NoCloseInText(s, y, j);
    }
    CloseAtEnd(s, y);
    FindIs(s + CLOSE + y, CLOSE, |s|);
  }

  lemma {:induction false} NoCloseInText(s: string, y: string, j: nat)
    requires Find(s, CLOSE).None? && j < |s|
    ensures !OccursAt(s + CLOSE + y, CLOSE, j)
  {
    hide Find;
    var t := s + CLOSE + y;
    if j + 4 <= |s| {
      assert t[j..j + 4] == s[j..j + 4];
      assert !OccursAt(s, CLOSE, j);
    } else if j + 4 <= |t| {
      assert t[|s|] == ' ' && CLOSE[|s| - j] != ' ';
      assert t[j..j + 4][|s| - j] == t[|s|];
    }
  }

  /** A slice of text in front of the first closing arrow holds none, so followed by one it first meets that one. */
  lemma {:induction false} FindCloseAfterSlice(raw: string, x: string, y: string, a: nat, b: nat)
    requires Find(raw + CLOSE + x, CLOSE) == Some(|raw|) && a <= b <= |raw|
    ensures Find(raw[a..b] + CLOSE + y, CLOSE) == Some(b - a)
  {
    hide Find;
    var s := raw + CLOSE + x;
    forall j: nat ensures !OccursAt(raw[a..b], CLOSE, j) {
      if j + 4 <= b - a {
        SliceOfSlice(raw, a, b, j, 4);
        assert s[a + j..a + j + 4] == raw[a + j..a + j + 4];
        assert !OccursAt(s, CLOSE, a + j);
      }
    }
    CloseEndsText(raw[a..b], y);
  }

  // ---------------------------------------------------------------- the rewriter

  datatype Rewritten = Rewritten(text: string, seen: set<string>)

  function Section(g: Generator, id: string, text: string): string {
    OpenMarker(g) + id + CLOSE + "\n" + text + EndMarker(g, id)
  }

  /** A marked section at the first opening marker of `rest`: the text before it, its id as written, and what
    * follows its closing arrow. */
  datatype Opening = Opening(before: string, raw: string, body: string)

  function FirstOpening(g: Generator, rest: string): (r: Result<Option<Opening>, RewriteError>)
    ensures r.Ok? && r.value.Some? ==> |r.value.value.body| < |rest|
  {
    var start := Find(rest, OpenMarker(g));
    if start.None? then Ok(None)
    else
      var after := rest[start.value + |OpenMarker(g)|..];
      var end := Find(after, CLOSE);
      if end.None? then Err(Unterminated)
      else Ok(Some(Opening(rest[..start.value], after[..end.value], after[end.value + |CLOSE|..])))
  }

  lemma {:induction false} OpeningJoins(g: Generator, rest: string)
    requires FirstOpening(g, rest).Ok? && FirstOpening(g, rest).value.Some?
    ensures var Opening(before, raw, body) := FirstOpening(g, rest).value.value;
      rest == before + OpenMarker(g) + (raw + CLOSE + body)
  {
    hide Find, OpenMarker;
    var start := Find(rest, OpenMarker(g)).value;
    var after := rest[start + |OpenMarker(g)|..];
    var end := Find(after, CLOSE).value;
    assert after == after[..end] + CLOSE + after[end + |CLOSE|..];
    assert rest == rest[..start] + OpenMarker(g) + after;
  }

  /** The first place where `pattern` occurs. */
  predicate IsFirst(s: string, pattern: string, i: nat) {
    OccursAt(s, pattern, i) && forall j :: 0 <= j < i ==> !OccursAt(s, pattern, j)
  }

  ghost predicate Nowhere(s: string, pattern: string) {
    forall i: nat :: !OccursAt(s, pattern, i)
  }

  /** The markers of a section as they stand in a document, and what is taken for its opening: the first opening
    * marker, from there to the first closing arrow. */
  lemma {:induction false} OpeningExact(g: Generator, rest: string, id: string)
    ensures OpenMarker(g) == "<!-- generated: " + g.kind + " "
    ensures EndMarker(g, id) == "<!-- generated: " + g.kind + " " + id + " end -->"
    ensures FirstOpening(g, rest) == Ok(None) <==> Nowhere(rest, OpenMarker(g))
    ensures FirstOpening(g, rest).Ok? && FirstOpening(g, rest).value.Some? ==>
      var Opening(before, raw, body) := FirstOpening(g, rest).value.value;
      && rest == before + OpenMarker(g) + (raw + " -->" + body)
      && IsFirst(rest, OpenMarker(g), |before|) && IsFirst(raw + " -->" + body, " -->", |raw|)
    ensures FirstOpening(g, rest).Err? ==>
      && FirstOpening(g, rest).error == Unterminated
      && exists i: nat :: IsFirst(rest, OpenMarker(g), i)
           && Nowhere(rest[i + |OpenMarker(g)|..], " -->")
  {
    assert OpenMarker(g) + id + " end" + CLOSE == "<!-- generated: " + g.kind + " " + id + " end -->";
    hide OpenMarker;
    var start := Find(rest, OpenMarker(g));
    if start.Some? {
      assert IsFirst(rest, OpenMarker(g), start.value);
      if FirstOpening(g, rest).Ok? {
        OpeningJoins(g, rest);
        var Opening(before, raw, body) := FirstOpening(g, rest).value.value;
        assert rest[start.value + |OpenMarker(g)|..] == raw + CLOSE + body;
      }
    }
  }

  function RewriteFrom(g: Generator, rest: string, seen: set<string>): (r: Result<Rewritten, RewriteError>)
    decreases |rest|
  {
    var opening := FirstOpening(g, rest);
    if opening.Err? then Err(opening.error)
    else if opening.value.None? then Ok(Rewritten(rest, seen))
    else
      var Opening(before, raw, body) := opening.value.value;
      var id := Trim(g.isSpace, raw);
      if id !in g.known then Err(UnknownId(id))
      else if id in seen then Err(DuplicateId(id))
      else
        var end := Find(body, EndMarker(g, id));
        if end.None? then Err(EndMissing(id))
        else
          var rendered := g.render(id);
          if rendered.Err? then Err(RenderFailed(rendered.error))
          else
            var later := RewriteFrom(g, body[end.value + |EndMarker(g, id)|..], seen + {id});
            if later.Err? then later
            else Ok(Rewritten(before + Section(g, id, rendered.value) + later.value.text, later.value.seen))
  }

  function Rewrite(g: Generator, document: string): Result<string, RewriteError> {
    var all := RewriteFrom(g, document, {});
    if all.Err? then Err(all.error)
    else if g.known - all.value.seen != {} then Err(IdsMissing)
    else Ok(all.value.text)
  }

  method RewriteMarkers(g: Generator, document: string) returns (result: Result<string, RewriteError>)
    ensures result == Rewrite(g, document)
  {
    hide Find, Trim, Section, EndMarker;
    var remaining, seen: set<string>, output, rest := g.known, {}, "", document;
    assert "" + (if RewriteFrom(g, document, {}).Ok? then RewriteFrom(g, document, {}).value.text else "") ==
      if RewriteFrom(g, document, {}).Ok? then RewriteFrom(g, document, {}).value.text else "";
    while true
      invariant remaining == g.known - seen
      invariant RewriteFrom(g, document, {}) == Continued(output, RewriteFrom(g, rest, seen))
      decreases |rest|
    {
      var opening := FirstOpening(g, rest);
      if opening.Err? {
        return Err(opening.error);
      }
      if opening.value.None? {
        break;
      }
      var Opening(before, raw, body) := opening.value.value;
      output := output + before;
      var id := Trim(g.isSpace, raw);
      if id !in g.known {
        return Err(UnknownId(id));
      }
      if id in seen {
        return Err(DuplicateId(id));
      }
      var end := Find(body, EndMarker(g, id));
      if end.None? {
        return Err(EndMissing(id));
      }
      var rendered := g.render(id);
      if rendered.Err? {
        return Err(RenderFailed(rendered.error));
      }
      var tail := body[end.value + |EndMarker(g, id)|..];
      ContinuedTwice(output[..|output| - |before|], before, Section(g, id, rendered.value), RewriteFrom(g, tail, seen + {id}));
      assert output[..|output| - |before|] + before == output;
      output := output + Section(g, id, rendered.value);
      seen, remaining, rest := seen + {id}, remaining - {id}, tail;
    }
    output := output + rest;
    if remaining != {} {
      return Err(IdsMissing);
    }
    return Ok(output);
  }

  function Continued(output: string, later: Result<Rewritten, RewriteError>): Result<Rewritten, RewriteError> {
    if later.Err? then later else Ok(later.value.(text := output + later.value.text))
  }

  lemma {:induction false} ContinuedTwice(
      output: string, before: string, section: string, later: Result<Rewritten, RewriteError>)
    ensures later.Ok? ==>
      output + (before + section + later.value.text) == output + before + section + later.value.text
  {
  }

  // ---------------------------------------------------------------- rewriting twice

  /** The generated text does not bring the end marker forward: followed by the end marker, it contains it no
    * earlier, not even across the boundary. */
  ghost predicate CleanText(g: Generator, id: string, text: string) {
    Find("\n" + text + EndMarker(g, id), EndMarker(g, id)) == Some(|"\n" + text|)
  }

  ghost predicate CleanRender(g: Generator) {
    forall id :: id in g.known && g.render(id).Ok? ==> CleanText(g, id, g.render(id).value)
  }

  /** The texts outside the marked sections, in order; the last is what follows the last section. */
  function Outside(g: Generator, rest: string): seq<string>
    decreases |rest|
  {
    var opening := FirstOpening(g, rest);
    if opening.Err? || opening.value.None? then [rest]
    else
      var Opening(before, raw, body) := opening.value.value;
      var end := Find(body, EndMarker(g, Trim(g.isSpace, raw)));
      if end.None? then [rest]
      else [before] + Outside(g, body[end.value + |EndMarker(g, Trim(g.isSpace, raw))|..])
  }

  /** What an opening is made of, from where its two markers are found. */
  lemma {:induction false} OpeningIs(g: Generator, before: string, raw: string, body: string)
    requires Find(before + OpenMarker(g) + (raw + CLOSE + body), OpenMarker(g)) == Some(|before|)
    requires Find(raw + CLOSE + body, CLOSE) == Some(|raw|)
    ensures FirstOpening(g, before + OpenMarker(g) + (raw + CLOSE + body)) == Ok(Some(Opening(before, raw, body)))
  {
    hide Find, OpenMarker;
    var s := before + OpenMarker(g) + (raw + CLOSE + body);
    assert s[|before| + |OpenMarker(g)|..] == raw + CLOSE + body && s[..|before|] == before;
    assert (raw + CLOSE + body)[..|raw|] == raw && (raw + CLOSE + body)[|raw| + |CLOSE|..] == body;
  }

  lemma {:induction false} OpeningFound(g: Generator, rest: string)
    requires FirstOpening(g, rest).Ok? && FirstOpening(g, rest).value.Some?
    ensures var Opening(before, raw, body) := FirstOpening(g, rest).value.value;
      && Find(before + OpenMarker(g) + (raw + CLOSE + body), OpenMarker(g)) == Some(|before|)
      && Find(raw + CLOSE + body, CLOSE) == Some(|raw|)
  {
    hide Find, OpenMarker;
    var Opening(before, raw, body) := FirstOpening(g, rest).value.value;
    OpeningJoins(g, rest);
    assert rest[|before| + |OpenMarker(g)|..] == raw + CLOSE + body;
  }

  /** In rewritten text the first section is found where it was, with its id trimmed. */
  lemma {:induction false} FindsSectionAgain(g: Generator, rest: string, id: string, text: string, later: string)
    requires FirstOpening(g, rest).Ok? && FirstOpening(g, rest).value.Some?
    requires id == Trim(g.isSpace, FirstOpening(g, rest).value.value.raw)
    ensures var before := FirstOpening(g, rest).value.value.before;
      FirstOpening(g, before + Section(g, id, text) + later)
        == Ok(Some(Opening(before, id, "\n" + text + EndMarker(g, id) + later)))
    ensures Trim(g.isSpace, id) == id
  {
    hide Find, Trim, EndMarker, OpenMarker, FirstOpening;
    var Opening(before, raw, body) := FirstOpening(g, rest).value.value;
    var tail := "\n" + text + EndMarker(g, id) + later;
    OpeningFound(g, rest);
    FindKeepsPlace(before, OpenMarker(g), raw + CLOSE + body, id + CLOSE + tail);
    var a, b := TrimSlice(g.isSpace, raw);
    FindCloseAfterSlice(raw, body, tail, a, b);
    OpeningIs(g, before, id, tail);
    Regroup(before, OpenMarker(g), id, CLOSE, "\n", text, EndMarker(g, id), later);
  }

  lemma {:induction false} Regroup(
      before: string, open: string, id: string, close: string, line: string, text: string, end: string, later: string)
    ensures before + (open + id + close + line + text + end) + later
      == before + open + (id + close + (line + text + end + later))
  {
  }

  /** Rewriting rewritten text changes nothing, and rewriting keeps everything outside the sections. */
  lemma {:induction false} RewritingTwice(g: Generator, rest: string, seen: set<string>)
    requires CleanRender(g) && RewriteFrom(g, rest, seen).Ok?
    ensures RewriteFrom(g, RewriteFrom(g, rest, seen).value.text, seen) == RewriteFrom(g, rest, seen)
    ensures Outside(g, RewriteFrom(g, rest, seen).value.text) == Outside(g, rest)
    decreases |rest|
  {
    hide Find, Trim, EndMarker, FirstOpening, CleanText, Section;
    var opening := FirstOpening(g, rest);
    if opening.value.Some? {
      var Opening(before, raw, body) := opening.value.value;
      var id := Trim(g.isSpace, raw);
      var end := Find(body, EndMarker(g, id)).value;
      var text, tail := g.render(id).value, body[end + |EndMarker(g, id)|..];
      RewritingTwice(g, tail, seen + {id});
      var later := RewriteFrom(g, tail, seen + {id}).value.text;
      FindsSectionAgain(g, rest, id, text, later);
      EndFoundAgain(g, id, text, later);
    }
  }

  lemma {:induction false} EndFoundAgain(g: Generator, id: string, text: string, later: string)
    requires CleanText(g, id, text)
    ensures Find("\n" + text + EndMarker(g, id) + later, EndMarker(g, id)) == Some(|"\n" + text|)
    ensures ("\n" + text + EndMarker(g, id) + later)[|"\n" + text| + |EndMarker(g, id)|..] == later
  {
    hide Find, EndMarker;
    var head, end := "\n" + text, EndMarker(g, id);
    assert head + end + "" == head + end;
    FindKeepsPlace(head, end, "", later);
  }

  /** Marker rewriting is idempotent for a renderer with clean text, and preserves all text outside markers. */
  lemma {:induction false} RewriteIsIdempotent(g: Generator, document: string)
    requires CleanRender(g) && Rewrite(g, document).Ok?
    ensures Rewrite(g, Rewrite(g, document).value) == Rewrite(g, document)
    ensures Outside(g, Rewrite(g, document).value) == Outside(g, document)
  {
    hide RewriteFrom, Outside, CleanRender;
    RewritingTwice(g, document, {});
  }

  // ---------------------------------------------------------------- what the sections hold

  /** A section's id, trimmed, and its text between the two markers. */
  datatype Marked = Marked(id: string, text: string)

  /** The marked sections of a document in order, up to the first that is unterminated or has no end. */
  function Sections(g: Generator, rest: string): seq<Marked>
    decreases |rest|
  {
    var opening := FirstOpening(g, rest);
    if opening.Err? || opening.value.None? then []
    else
      var Opening(before, raw, body) := opening.value.value;
      var id := Trim(g.isSpace, raw);
      var end := Find(body, EndMarker(g, id));
      if end.None? then []
      else [Marked(id, body[..end.value])] + Sections(g, body[end.value + |EndMarker(g, id)|..])
  }

  /** Every opening marker is terminated and has its end marker. */
  predicate WellMarked(g: Generator, rest: string)
    decreases |rest|
  {
    var opening := FirstOpening(g, rest);
    opening.Ok? && (opening.value.Some? ==>
      var Opening(before, raw, body) := opening.value.value;
      var id := Trim(g.isSpace, raw);
      var end := Find(body, EndMarker(g, id));
      end.Some? && WellMarked(g, body[end.value + |EndMarker(g, id)|..]))
  }

  ghost predicate HasId(sections: seq<Marked>, id: string) {
    exists i :: 0 <= i < |sections| && sections[i].id == id
  }

  /** The sections can be written: known ids, none twice or in `seen`, and each can be rendered. */
  ghost predicate Writable(g: Generator, sections: seq<Marked>, seen: set<string>) {
    && (forall i :: 0 <= i < |sections| ==>
          sections[i].id in g.known && sections[i].id !in seen && g.render(sections[i].id).Ok?)
    && forall i, j :: 0 <= i < j < |sections| ==> sections[i].id != sections[j].id
  }

  lemma {:induction false} IdsNext(first: Marked, later: seq<Marked>)
    ensures forall id :: HasId([first] + later, id) <==> id == first.id || HasId(later, id)
  {
    var all := [first] + later;
    forall id ensures HasId(all, id) <==> id == first.id || HasId(later, id) {
      assert all[0] == first;
      if i :| 0 <= i < |later| && later[i].id == id {
        assert all[i + 1] == later[i];
      }
      if i :| 1 <= i < |all| && all[i].id == id {
        assert later[i - 1] == all[i];
      }
    }
  }

  /** A first section can be written before others when it can be written itself, and they after it. */
  lemma {:induction false} WritableNext(g: Generator, first: Marked, later: seq<Marked>, seen: set<string>)
    ensures Writable(g, [first] + later, seen) <==>
      && first.id in g.known && first.id !in seen && g.render(first.id).Ok?
      && Writable(g, later, seen + {first.id})
    ensures forall id :: HasId([first] + later, id) <==> id == first.id || HasId(later, id)
  {
    hide HasId;
    IdsNext(first, later);
    var all := [first] + later;
    assert all[0] == first && forall i :: 0 <= i < |later| ==> all[i + 1] == later[i];
    if Writable(g, all, seen) {
      forall i | 0 <= i < |later|
        ensures later[i].id in g.known && later[i].id !in seen + {first.id} && g.render(later[i].id).Ok?
      {
        assert all[i + 1] == later[i];
      }
      forall i, j | 0 <= i < j < |later| ensures later[i].id != later[j].id {
        assert all[i + 1] == later[i] && all[j + 1] == later[j];
      }
    } else if Writable(g, later, seen + {first.id}) {
      assert forall i :: 1 <= i < |all| ==> all[i] == later[i - 1];
    }
  }

  /** Rewriting succeeds exactly when the markers match up and the sections can be written. */
  lemma {:induction false} RewriteFromIff(g: Generator, rest: string, seen: set<string>)
    ensures RewriteFrom(g, rest, seen).Ok? <==> WellMarked(g, rest) && Writable(g, Sections(g, rest), seen)
    ensures RewriteFrom(g, rest, seen).Ok? ==>
      forall id :: id in RewriteFrom(g, rest, seen).value.seen <==> id in seen || HasId(Sections(g, rest), id)
    decreases |rest|
  {
    hide Find, Trim, EndMarker, FirstOpening, Section, Writable, HasId;
    var opening := FirstOpening(g, rest);
    if opening.Ok? && opening.value.Some? {
      var Opening(before, raw, body) := opening.value.value;
      var id := Trim(g.isSpace, raw);
      var end := Find(body, EndMarker(g, id));
      if end.Some? {
        var tail := body[end.value + |EndMarker(g, id)|..];
        RewriteFromIff(g, tail, seen + {id});
        WritableNext(g, Marked(id, body[..end.value]), Sections(g, tail), seen);
      }
    } else {
      NoSections(g, seen);
    }
  }

  lemma {:induction false} NoSections(g: Generator, seen: set<string>)
    ensures Writable(g, [], seen) && forall id :: !HasId([], id)
  {
  }

  /** The sections of `now` are those of `was` in order, each holding exactly its rendered text. */
  ghost predicate Regenerated(g: Generator, was: seq<Marked>, now: seq<Marked>) {
    && |was| == |now|
    && forall i :: 0 <= i < |was| ==>
      now[i].id == was[i].id && g.render(was[i].id).Ok? && now[i].text == "\n" + g.render(was[i].id).value
  }

  lemma {:induction false} SectionsRewritten(g: Generator, rest: string, seen: set<string>)
    requires CleanRender(g) && RewriteFrom(g, rest, seen).Ok?
    ensures Regenerated(g, Sections(g, rest), Sections(g, RewriteFrom(g, rest, seen).value.text))
    decreases |rest|
  {
    hide Find, Trim, EndMarker, FirstOpening, CleanText, Section;
    var opening := FirstOpening(g, rest);
    if opening.value.Some? {
      var Opening(before, raw, body) := opening.value.value;
      var id := Trim(g.isSpace, raw);
      var end := Find(body, EndMarker(g, id)).value;
      var text, tail := g.render(id).value, body[end + |EndMarker(g, id)|..];
      SectionsRewritten(g, tail, seen + {id});
      var later := RewriteFrom(g, tail, seen + {id}).value.text;
      FindsSectionAgain(g, rest, id, text, later);
      EndFoundAgain(g, id, text, later);
      assert ("\n" + text + EndMarker(g, id) + later)[..|"\n" + text|] == "\n" + text;
      assert Sections(g, before + Section(g, id, text) + later) == [Marked(id, "\n" + text)] + Sections(g, later);
    }
  }

  /** Rewriting succeeds exactly when the markers match up and there is one section for every known id and no other,
    * each of which can be rendered; with clean text it then leaves in every section exactly what is rendered for it. */
  lemma {:induction false} EverySectionRegenerated(g: Generator, document: string)
    ensures Rewrite(g, document).Ok? <==>
      && WellMarked(g, document) && Writable(g, Sections(g, document), {})
      && forall id :: id in g.known ==> HasId(Sections(g, document), id)
    ensures CleanRender(g) && Rewrite(g, document).Ok? ==>
      Regenerated(g, Sections(g, document), Sections(g, Rewrite(g, document).value))
  {
    hide RewriteFrom, Sections, WellMarked, Writable, CleanRender, Regenerated, HasId;
    RewriteFromIff(g, document, {});
    var all := RewriteFrom(g, document, {});
    if all.Ok? {
      assert g.known - all.value.seen == {} <==> forall id :: id in g.known ==> id in all.value.seen;
      if CleanRender(g) {
        SectionsRewritten(g, document, {});
      }
    }
  }

  /** What each error says of the document and the generator. */
  ghost predicate ErrorMeans(g: Generator, rest: string, seen: set<string>, error: RewriteError) {
    match error
    case Unterminated => !WellMarked(g, rest)
    case UnknownId(id) => id !in g.known
    case DuplicateId(id) => id in g.known && (id in seen || HasId(Sections(g, rest), id))
    case EndMissing(id) => id in g.known && !WellMarked(g, rest)
    case RenderFailed(message) => exists id :: id in g.known && g.render(id) == Err(message)
    case IdsMissing => exists id :: id in g.known && id !in seen && !HasId(Sections(g, rest), id)
  }

  lemma {:induction false} RewriteFromFails(g: Generator, rest: string, seen: set<string>)
    requires RewriteFrom(g, rest, seen).Err?
    ensures !RewriteFrom(g, rest, seen).error.IdsMissing? && ErrorMeans(g, rest, seen, RewriteFrom(g, rest, seen).error)
    decreases |rest|
  {
    hide Find, Trim, EndMarker, FirstOpening, Section, HasId;
    var opening := FirstOpening(g, rest);
    if opening.Ok? {
      var Opening(before, raw, body) := opening.value.value;
      var id := Trim(g.isSpace, raw);
      var end := Find(body, EndMarker(g, id));
      if end.Some? {
        var tail := body[end.value + |EndMarker(g, id)|..];
        WritableNext(g, Marked(id, body[..end.value]), Sections(g, tail), seen);
        if RewriteFrom(g, tail, seen + {id}).Err? {
          RewriteFromFails(g, tail, seen + {id});
        }
      }
    } else {
      OpeningExact(g, rest, "");
    }
  }

  /** When rewriting fails, the error names a reason. */
  lemma {:induction false} RewriteFails(g: Generator, document: string)
    requires Rewrite(g, document).Err?
    ensures ErrorMeans(g, document, {}, Rewrite(g, document).error)
  {
    hide RewriteFrom, Sections, WellMarked, HasId, Writable;
    if RewriteFrom(g, document, {}).Err? {
      RewriteFromFails(g, document, {});
    } else {
      RewriteFromIff(g, document, {});
      var id :| id in g.known - RewriteFrom(g, document, {}).value.seen;
    }
  }

  lemma {:induction false} FindAtStart(pattern: string, x: string)
    requires pattern != ""
    ensures Find(pattern + x, pattern) == Some(0)
  {
    assert (pattern + x)[0..0 + |pattern|] == pattern;
    FindIs(pattern + x, pattern, 0);
  }

  // ---------------------------------------------------------------- clean text is needed

  /** The opening marker of `id` holds no closing arrow before its own, and `id` is trimmed. */
  ghost predicate PlainId(g: Generator, id: string) {
    Find(OpenMarker(g) + id, CLOSE).None? && Trim(g.isSpace, id) == id
  }

  lemma {:induction false} NoCloseWithEnd(s: string)
    requires Find(s, CLOSE).None?
    ensures Find(s + " end", CLOSE).None?
  {
    hide Find;
    var t := s + " end";
    forall j: nat ensures !OccursAt(t, CLOSE, j) {
      if j + 4 <= |s| {
        assert t[j..j + 4] == s[j..j + 4];
        assert !OccursAt(s, CLOSE, j);
      } else if j + 4 <= |t| {
        if j == |s| {
          assert t[j..j + 4][1] == t[j + 1] == 'e' && CLOSE[1] == '-';
        } else {
          assert t[j..j + 4][|s| - j] == t[|s|] == ' ';
          assert CLOSE[|s| - j] != ' ';
        }
      }
    }
  }

  lemma {:induction false} NoCloseInTail(a: string, b: string)
    requires Find(a + b, CLOSE).None?
    ensures Find(b, CLOSE).None?
  {
    hide Find;
    forall j: nat ensures !OccursAt(b, CLOSE, j) {
      if j + 4 <= |b| {
        assert (a + b)[|a| + j..|a| + j + 4] == b[j..j + 4];
        assert !OccursAt(a + b, CLOSE, |a| + j);
      }
    }
  }

  /** Where text overlaps itself by `n` characters, its first `n` are its last `n`. */
  lemma {:induction false} OverlapAgrees(head: string, e: string, k: nat, i: nat)
    requires OccursAt(head + e, e, k) && k < |head| && |head| + i < k + |e|
    ensures e[i] == e[|head| - k + i]
  {
    assert (head + e)[k..k + |e|][|head| - k + i] == (head + e)[|head| + i];
  }

  /** An end marker does not overlap itself: it begins with '<' and its only closing arrow is its end. */
  lemma {:induction false} EndNeverOverlaps(head: string, p: string, k: nat)
    requires p != "" && p[0] == '<' && Find(p, CLOSE).None?
    requires OccursAt(head + (p + CLOSE), p + CLOSE, k) && k < |head|
    ensures k + |p + CLOSE| <= |head|
  {
    hide Find, OccursAt;
    var e := p + CLOSE;
    var n := k + |e| - |head|;
    if n >= 4 {
      OverlapAgrees(head, e, k, n - 4);
      OverlapAgrees(head, e, k, n - 3);
      OverlapAgrees(head, e, k, n - 2);
      OverlapAgrees(head, e, k, n - 1);
      CloseOnlyAtEnd(p, n - 4);
    } else if n > 0 {
      OverlapAgrees(head, e, k, 0);
    }
  }

  lemma {:induction false} CloseOnlyAtEnd(p: string, j: nat)
    requires Find(p, CLOSE).None? && j < |p|
    ensures var e := p + CLOSE;
      !(e[j] == ' ' && e[j + 1] == '-' && e[j + 2] == '-' && e[j + 3] == '>')
  {
    hide Find;
    var e := p + CLOSE;
    NoCloseInText(p, "", j);
    assert e + "" == e;
    SpelledOut(e, j);
  }

  lemma {:induction false} SpelledOut(s: string, j: nat)
    requires j + 4 <= |s|
    ensures OccursAt(s, CLOSE, j) <==> s[j] == ' ' && s[j + 1] == '-' && s[j + 2] == '-' && s[j + 3] == '>'
  {
    var part := s[j..j + 4];
    assert part[0] == s[j] && part[1] == s[j + 1] && part[2] == s[j + 2] && part[3] == s[j + 3];
  }

  lemma {:induction false} EndMarkerSplits(g: Generator, id: string)
    requires PlainId(g, id)
    ensures var p := OpenMarker(g) + id + " end";
      EndMarker(g, id) == p + CLOSE && p[0] == '<' && Find(p, CLOSE).None?
  {
    hide Find;
    NoCloseWithEnd(OpenMarker(g) + id);
  }

  lemma {:induction false} NothingAdded(s: string)
    ensures "" + s == s && s + "" == s
  {
  }

  /** A section read by itself: its opening is found, and its end where the end marker first occurs. */
  lemma {:induction false} SectionOpens(g: Generator, id: string, text: string)
    requires PlainId(g, id)
    ensures FirstOpening(g, Section(g, id, text)) == Ok(Some(Opening("", id, "\n" + text + EndMarker(g, id))))
  {
    hide Find, OpenMarker, EndMarker, FirstOpening;
    var tail := "\n" + text + EndMarker(g, id);
    FindAtStart(OpenMarker(g), id + CLOSE + tail);
    NoCloseInTail(OpenMarker(g), id);
    CloseEndsText(id, tail);
    Regroup("", OpenMarker(g), id, CLOSE, "\n", text, EndMarker(g, id), "");
    NothingAdded(Section(g, id, text));
    NothingAdded(tail);
    NothingAdded(OpenMarker(g));
    OpeningIs(g, "", id, tail);
  }

  /** Text with an opening marker in it, read after the only section: whatever follows the marker is an error. */
  lemma {:induction false} StrayMarkerFails(g: Generator, id: string, before: string, after: string)
    requires g.known == {id}
    ensures RewriteFrom(g, before + (OpenMarker(g) + after), {id}).Err?
  {
    hide OpenMarker, Trim;
    var rest := before + (OpenMarker(g) + after);
    assert rest[|before|..|before| + |OpenMarker(g)|] == OpenMarker(g);
    assert OccursAt(rest, OpenMarker(g), |before|);
    hide Find;
  }

  lemma {:induction false} NothingLeft(g: Generator, seen: set<string>)
    ensures RewriteFrom(g, "", seen) == Ok(Rewritten("", seen))
  {
    assert Find("", OpenMarker(g)).None?;
  }

  lemma {:induction false} RewritesOneSection(g: Generator, id: string, text: string, k: nat)
    requires g.known == {id} && PlainId(g, id) && g.render(id) == Ok(text)
    requires Find("\n" + text + EndMarker(g, id), EndMarker(g, id)) == Some(k)
    ensures k <= |"\n" + text|
    ensures var later := RewriteFrom(g, ("\n" + text + EndMarker(g, id))[k + |EndMarker(g, id)|..], {id});
      RewriteFrom(g, Section(g, id, text), {}) ==
        if later.Err? then later else Ok(Rewritten(Section(g, id, text) + later.value.text, later.value.seen))
  {
    hide Find, OpenMarker, EndMarker, FirstOpening, Section, Trim;
    SectionOpens(g, id, text);
    assert {} + {id} == {id} && "" + Section(g, id, text) == Section(g, id, text);
    var head, end := "\n" + text, EndMarker(g, id);
    assert (head + end)[|head|..|head| + |end|] == end;
    assert OccursAt(head + end, end, |head|);
  }

  /** With one section, rewriting what the rewriter wrote succeeds and changes nothing exactly when the generated
    * text is clean; otherwise it fails. */
  lemma {:induction false} OneSectionIff(g: Generator, id: string, text: string)
    requires g.known == {id} && PlainId(g, id) && g.render(id) == Ok(text)
    ensures CleanText(g, id, text) ==> Rewrite(g, Section(g, id, text)) == Ok(Section(g, id, text))
    ensures !CleanText(g, id, text) ==> Rewrite(g, Section(g, id, text)).Err?
  {
    hide Find, OpenMarker, RewriteFrom, Section;
    var head, end := "\n" + text, EndMarker(g, id);
    EndMarkerSplits(g, id);
    var k := EndFoundAt(head, end);
    RewritesOneSection(g, id, text, k);
    if k == |head| {
      assert (head + end)[k + |end|..] == "";
      NothingLeft(g, {id});
      assert Section(g, id, text) + "" == Section(g, id, text);
    } else {
      EndNeverOverlaps(head, OpenMarker(g) + id + " end", k);
      var before := head[k + |end|..];
      var after := id + " end" + CLOSE;
      assert end == OpenMarker(g) + after;
      assert (head + end)[k + |end|..] == before + (OpenMarker(g) + after);
      StrayMarkerFails(g, id, before, after);
    }
  }

  lemma {:induction false} EndFoundAt(head: string, end: string) returns (k: nat)
    requires end != ""
    ensures k <= |head| && Find(head + end, end) == Some(k) && OccursAt(head + end, end, k)
  {
    assert (head + end)[|head|..|head| + |end|] == end;
    assert OccursAt(head + end, end, |head|);
    k := Find(head + end, end).value;
  }
}
