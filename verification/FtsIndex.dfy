/** The full-text indexes (migrations/20260713000000_search_schema.sql): external-content tables whose postings
  * are maintained by the insert, delete and update triggers of the content table, and phrase matching. */
module FtsIndex {
  import opened FtsQuery

  /** The indexed columns of a content row: one for captions, title and description for programs. */
  type Columns = seq<string>

  datatype Posting = Posting(row: nat, column: nat, position: nat, token: string)

  /** The tokens of a text: its maximal runs of characters other than spaces. Every character of normalized text
    * is taken to be a token character. */
  function Tokens(text: string): seq<string> {
    TokensFrom(text, "")
  }

  function TokensFrom(text: string, word: string): seq<string>
    decreases |text|
  {
    if text == "" then Finished(word)
    else if text[0] == ' ' then Finished(word) + TokensFrom(text[1..], "")
    else TokensFrom(text[1..], word + [text[0]])
  }

  function Finished(word: string): seq<string> {
    if word == "" then [] else [word]
  }

  function RowPostings(row: nat, columns: Columns): set<Posting> {
    set c, p | 0 <= c < |columns| && 0 <= p < |Tokens(columns[c])| :: Posting(row, c, p, Tokens(columns[c])[p])
  }

  /** The postings that an index in step with its content table holds. */
  ghost predicate InStep(rows: map<nat, Columns>, postings: set<Posting>) {
    forall posting :: posting in postings <==> posting.row in rows && posting in RowPostings(posting.row, rows[posting.row])
  }

  lemma {:induction false} OwnRow(row: nat, columns: Columns)
    ensures forall posting :: posting in RowPostings(row, columns) ==> posting.row == row
  {
  }

  class FtsTable {
    /** The content table and its index. */
    var rows: map<nat, Columns>
    var postings: set<Posting>

    constructor ()
      ensures rows == map[] && postings == {} && InStep(rows, postings)
    {
      rows, postings := map[], {};
    }

    /** An insert fires the trigger that indexes the new row. */
    method Insert(row: nat, columns: Columns)
      requires row !in rows && InStep(rows, postings)
      modifies this
      ensures rows == old(rows)[row := columns] && InStep(rows, postings)
    {
      hide RowPostings;
      OwnRow(row, columns);
      rows := rows[row := columns];
      postings := postings + RowPostings(row, columns);
    }

    /** A delete fires the trigger that takes the old row's tokens back out. */
    method Delete(row: nat)
      requires row in rows && InStep(rows, postings)
      modifies this
      ensures rows == old(rows) - {row} && InStep(rows, postings)
    {
      hide RowPostings;
      OwnRow(row, rows[row]);
      postings := postings - RowPostings(row, rows[row]);
      rows := rows - {row};
    }

    /** An update, also one that resolves a conflict, fires the trigger that replaces the old row's tokens. */
    method Update(row: nat, columns: Columns)
      requires row in rows && InStep(rows, postings)
      modifies this
      ensures rows == old(rows)[row := columns] && InStep(rows, postings)
    {
      hide RowPostings;
      OwnRow(row, rows[row]);
      OwnRow(row, columns);
      postings := postings - RowPostings(row, rows[row]) + RowPostings(row, columns);
      rows := rows[row := columns];
    }

    /** Deleting several rows at once fires the delete trigger for each of them. */
    method DeleteAll(gone: set<nat>)
      requires gone <= rows.Keys && InStep(rows, postings)
      modifies this
      ensures rows == old(rows) - gone && InStep(rows, postings)
    {
      var rest := gone;
      while rest != {}
        invariant rest <= gone && rest <= rows.Keys
        invariant rows == old(rows) - (gone - rest)
        invariant InStep(rows, postings)
        decreases rest
      {
        hide InStep;
        var row :| row in rest;
        Delete(row);
        rest := rest - {row};
      }
    }
  }

  // ---------------------------------------------------------------- matching

  /** The tokens occur at consecutive positions of one column, starting at `position`. */
  ghost predicate PhraseAt(postings: set<Posting>, row: nat, column: nat, position: nat, phrase: seq<string>) {
    forall i :: 0 <= i < |phrase| ==> Posting(row, column, position + i, phrase[i]) in postings
  }

  /** The rows a query matches; an empty phrase matches none. */
  ghost predicate Matches(postings: set<Posting>, row: nat, query: Query) {
    match query
    case Phrase(text) =>
      Tokens(text) != [] && exists column: nat, position: nat :: PhraseAt(postings, row, column, position, Tokens(text))
    case Both(left, right) => Matches(postings, row, left) && Matches(postings, row, right)
    case Either(left, right) => Matches(postings, row, left) || Matches(postings, row, right)
  }

  /** `rowid IN (SELECT rowid FROM fts WHERE fts MATCH text)` */
  ghost predicate MatchesText(postings: set<Posting>, row: nat, text: string) {
    ParseQuery(text).Some? && Matches(postings, row, ParseQuery(text).value)
  }

  // ---------------------------------------------------------------- what matching means

  predicate OccursAt(needle: string, text: string, position: nat) {
    position + |needle| <= |text| && text[position..position + |needle|] == needle
  }

  /** `needle` is a contiguous substring of `text`. */
  ghost predicate Occurs(needle: string, text: string) {
    exists position: nat :: OccursAt(needle, text, position)
  }

  /** The specification of search: some clause has every term as a substring of one of the texts. */
  ghost predicate SearchHolds(clauses: Clauses, texts: seq<string>) {
    exists i :: 0 <= i < |clauses| && ClauseHolds(clauses[i], texts)
  }

  ghost predicate ClauseHolds(terms: seq<string>, texts: seq<string>) {
    forall j :: 0 <= j < |terms| ==> TermHolds(terms[j], texts)
  }

  ghost predicate TermHolds(term: string, texts: seq<string>) {
    exists c :: 0 <= c < |texts| && Occurs(term, texts[c])
  }

  /** The indexed columns of normalized texts. */
  function Indexed(texts: seq<string>): (columns: Columns)
    ensures |columns| == |texts|
  {
    seq(|texts|, c requires 0 <= c < |texts| => Spaced(texts[c]))
  }

  lemma {:induction false} TokensOfJoined(text: string)
    requires IsPlain(text)
    ensures Tokens(Join(" ", Characters(text))) == Characters(text)
  {
    if |text| == 1 {
      assert TokensFrom([text[0]], "") == TokensFrom("", [text[0]]);
      assert Characters(text) == [[text[0]]];
    } else if |text| > 1 {
      var later := Join(" ", Characters(text[1..]));
      assert Characters(text)[1..] == Characters(text[1..]);
      var s := Join(" ", Characters(text));
      assert s == [text[0]] + " " + later;
      assert s[1..] == " " + later && s[1..][1..] == later;
      assert TokensFrom(s, "") == TokensFrom(s[1..], "" + [text[0]]);
      assert "" + [text[0]] == [text[0]];
      assert TokensFrom(s[1..], [text[0]]) == [[text[0]]] + TokensFrom(later, "");
      TokensOfJoined(text[1..]);
      assert [[text[0]]] + Characters(text[1..]) == Characters(text);
    }
  }

  lemma {:induction false} OccursPointwise(needle: string, text: string, position: nat)
    ensures OccursAt(needle, text, position) <==>
      position + |needle| <= |text| && forall i :: 0 <= i < |needle| ==> text[position + i] == needle[i]
  {
    if position + |needle| <= |text| {
      var part := text[position..position + |needle|];
      assert forall i :: 0 <= i < |needle| ==> part[i] == text[position + i];
    }
  }

  lemma {:induction false} PostingOfRow(row: nat, columns: Columns, column: nat, position: nat, token: string)
    ensures Posting(row, column, position, token) in RowPostings(row, columns) <==>
      column < |columns| && position < |Tokens(columns[column])| && Tokens(columns[column])[position] == token
  {
    hide Tokens;
  }

  /** Where the index has a posting for a one-character token. */
  lemma {:induction false} CharacterPosting(
      rows: map<nat, Columns>, postings: set<Posting>, row: nat, texts: seq<string>, column: nat, position: nat, c: char)
    requires InStep(rows, postings) && row in rows && rows[row] == Indexed(texts)
    requires forall k :: 0 <= k < |texts| ==> IsPlain(texts[k])
    ensures Posting(row, column, position, [c]) in postings <==>
      column < |texts| && position < |texts[column]| && texts[column][position] == c
  {
    hide Tokens, Join, IsPlain, RowPostings;
    PostingOfRow(row, rows[row], column, position, [c]);
    if column < |texts| {
      TokensOfJoined(texts[column]);
    }
  }

  lemma {:induction false} PhraseMeansSubstring(
      rows: map<nat, Columns>, postings: set<Posting>, row: nat, texts: seq<string>, term: string, column: nat, position: nat)
    requires InStep(rows, postings) && row in rows && rows[row] == Indexed(texts)
    requires forall k :: 0 <= k < |texts| ==> IsPlain(texts[k])
    requires term != "" && IsPlain(term)
    ensures PhraseAt(postings, row, column, position, Tokens(Spaced(term))) <==>
      column < |texts| && OccursAt(term, texts[column], position)
  {
    hide Tokens, Join, IsPlain, InStep, OccursAt;
    TokensOfJoined(term);
    var phrase := Characters(term);
    forall i | 0 <= i < |term|
      ensures Posting(row, column, position + i, phrase[i]) in postings <==>
        column < |texts| && position + i < |texts[column]| && texts[column][position + i] == term[i]
    {
      CharacterPosting(rows, postings, row, texts, column, position + i, term[i]);
    }
    if column < |texts| {
      OccursPointwise(term, texts[column], position);
    }
    if PhraseAt(postings, row, column, position, phrase) {
      assert Posting(row, column, position + (|term| - 1), phrase[|term| - 1]) in postings;
    }
  }

  lemma {:induction false} TermMatches(
      rows: map<nat, Columns>, postings: set<Posting>, row: nat, texts: seq<string>, term: string)
    requires InStep(rows, postings) && row in rows && rows[row] == Indexed(texts)
    requires forall k :: 0 <= k < |texts| ==> IsPlain(texts[k])
    requires term != "" && IsPlain(term)
    ensures Matches(postings, row, Phrase(Spaced(term))) <==> TermHolds(term, texts)
  {
    hide Join, IsPlain, InStep, OccursAt, PhraseAt;
    TokensOfJoined(term);
    hide Tokens;
    if column: nat, position: nat :| PhraseAt(postings, row, column, position, Tokens(Spaced(term))) {
      PhraseMeansSubstring(rows, postings, row, texts, term, column, position);
      assert Occurs(term, texts[column]);
    } else {
      forall c, position: nat | 0 <= c < |texts| ensures !OccursAt(term, texts[c], position) {
        PhraseMeansSubstring(rows, postings, row, texts, term, c, position);
      }
    }
  }

  lemma {:induction false} AllMatch(
      rows: map<nat, Columns>, postings: set<Posting>, row: nat, texts: seq<string>, left: Query, terms: seq<string>)
    requires InStep(rows, postings) && row in rows && rows[row] == Indexed(texts)
    requires forall k :: 0 <= k < |texts| ==> IsPlain(texts[k])
    requires forall j :: 0 <= j < |terms| ==> terms[j] != "" && IsPlain(terms[j])
    ensures Matches(postings, row, AllOf(left, terms)) <==> Matches(postings, row, left) && ClauseHolds(terms, texts)
    decreases |terms|
  {
    hide Spaced, IsPlain, InStep, TermHolds, PhraseAt;
    if terms != [] {
      TermMatches(rows, postings, row, texts, terms[0]);
      var first := Phrase(Spaced(terms[0]));
      AllMatch(rows, postings, row, texts, Both(left, first), terms[1..]);
      assert Matches(postings, row, Both(left, first)) <==> Matches(postings, row, left) && Matches(postings, row, first);
      ClauseFirst(terms, texts);
    }
  }

  lemma {:induction false} ClauseFirst(terms: seq<string>, texts: seq<string>)
    requires terms != []
    ensures ClauseHolds(terms, texts) <==> TermHolds(terms[0], texts) && ClauseHolds(terms[1..], texts)
  {
    hide TermHolds;
    assert forall j :: 0 < j < |terms| ==> terms[j] == terms[1..][j - 1];
  }

  lemma {:induction false} ClauseMatches(
      rows: map<nat, Columns>, postings: set<Posting>, row: nat, texts: seq<string>, terms: seq<string>)
    requires InStep(rows, postings) && row in rows && rows[row] == Indexed(texts)
    requires forall k :: 0 <= k < |texts| ==> IsPlain(texts[k])
    requires terms != [] && forall j :: 0 <= j < |terms| ==> terms[j] != "" && IsPlain(terms[j])
    ensures Matches(postings, row, ClauseQuery(terms)) <==> ClauseHolds(terms, texts)
  {
    hide Spaced, IsPlain, InStep, TermHolds, Matches, ClauseHolds;
    TermMatches(rows, postings, row, texts, terms[0]);
    AllMatch(rows, postings, row, texts, Phrase(Spaced(terms[0])), terms[1..]);
    ClauseFirst(terms, texts);
  }

  lemma {:induction false} AnyMatch(
      rows: map<nat, Columns>, postings: set<Posting>, row: nat, texts: seq<string>, left: Query, clauses: Clauses)
    requires InStep(rows, postings) && row in rows && rows[row] == Indexed(texts)
    requires forall k :: 0 <= k < |texts| ==> IsPlain(texts[k])
    requires forall i :: 0 <= i < |clauses| ==> clauses[i] != []
    requires forall i, j :: 0 <= i < |clauses| && 0 <= j < |clauses[i]| ==> clauses[i][j] != "" && IsPlain(clauses[i][j])
    ensures Matches(postings, row, AnyOf(left, clauses)) <==> Matches(postings, row, left) || SearchHolds(clauses, texts)
    decreases |clauses|
  {
    hide ClauseQuery, IsPlain, InStep, ClauseHolds, PhraseAt;
    if clauses != [] {
      ClauseMatches(rows, postings, row, texts, clauses[0]);
      var first := ClauseQuery(clauses[0]);
      AnyMatch(rows, postings, row, texts, Either(left, first), clauses[1..]);
      assert Matches(postings, row, Either(left, first)) <==> Matches(postings, row, left) || Matches(postings, row, first);
      SearchFirst(clauses, texts);
    }
  }

  lemma {:induction false} SearchFirst(clauses: Clauses, texts: seq<string>)
    requires clauses != []
    ensures SearchHolds(clauses, texts) <==> ClauseHolds(clauses[0], texts) || SearchHolds(clauses[1..], texts)
  {
    hide ClauseHolds;
    assert forall i :: 0 < i < |clauses| ==> clauses[i] == clauses[1..][i - 1];
    if SearchHolds(clauses[1..], texts) {
      var i :| 0 <= i < |clauses[1..]| && ClauseHolds(clauses[1..][i], texts);
      assert clauses[i + 1] == clauses[1..][i];
    }
  }

  /** Search means substring: with the index in step with its rows, evaluating the compiled query text finds
    * exactly the rows in which some clause has all its terms as contiguous substrings, each within one column. */
  lemma {:induction false} SearchMeansSubstring(
      rows: map<nat, Columns>, postings: set<Posting>, row: nat, texts: seq<string>, clauses: Clauses)
    requires InStep(rows, postings) && row in rows && rows[row] == Indexed(texts)
    requires forall k :: 0 <= k < |texts| ==> IsPlain(texts[k])
    requires WellFormed(clauses)
    ensures MatchesText(postings, row, ExpressionFts(clauses)) <==> SearchHolds(clauses, texts)
  {
    hide ClauseQuery, IsPlain, InStep, ClauseHolds, Matches, ParseQuery, ExpressionFts, SearchHolds;
    CompiledTextParses(clauses);
    ClauseMatches(rows, postings, row, texts, clauses[0]);
    AnyMatch(rows, postings, row, texts, ClauseQuery(clauses[0]), clauses[1..]);
    SearchFirst(clauses, texts);
  }

  /** A row that is gone matches nothing. */
  lemma {:induction false} DeletedRowNeverMatches(rows: map<nat, Columns>, postings: set<Posting>, row: nat, query: Query)
    requires InStep(rows, postings) && row !in rows
    ensures !Matches(postings, row, query)
  {
    hide RowPostings, Tokens;
    match query
    case Phrase(text) =>
      forall column: nat, position: nat
        ensures Tokens(text) != [] ==> !PhraseAt(postings, row, column, position, Tokens(text))
      {
        if Tokens(text) != [] {
          assert Posting(row, column, position + 0, Tokens(text)[0]) !in postings;
        }
      }
    case Both(left, right) => DeletedRowNeverMatches(rows, postings, row, left);
    case Either(left, right) =>
      DeletedRowNeverMatches(rows, postings, row, left);
      DeletedRowNeverMatches(rows, postings, row, right);
  }
}
