/** A search from the words typed to the rows found: parsing, compiling and matching together
  * (src/search_db/text.rs, src/search_db/query.rs). */
module Search {
  import opened Expressions
  import opened FtsIndex
  import opened FtsQuery

  /** Normalization keeps alphanumeric characters only. */
  ghost predicate NormalizesPlain(normalize: string -> string) {
    forall text :: IsPlain(normalize(text))
  }

  lemma {:induction false} ParsedIsWellFormed(normalize: string -> string, words: seq<string>)
    requires GroupsOk(normalize, Operands(words)) && NormalizesPlain(normalize)
    ensures WellFormed(Expression(normalize, Operands(words)))
  {
    hide IsPlain, Operands, GroupsOk;
    ParsedIsNonempty(normalize, words);
    var groups := Operands(words);
    var clauses := Expression(normalize, groups);
    forall i, j | 0 <= i < |clauses| && 0 <= j < |clauses[i]| ensures IsPlain(clauses[i][j]) {
      assert clauses[i][j] == normalize(Concat(groups[i][j]));
    }
  }

  function Normalized(normalize: string -> string, texts: seq<string>): (normalized: seq<string>)
    ensures |normalized| == |texts|
  {
    seq(|texts|, i requires 0 <= i < |texts| => normalize(texts[i]))
  }

  /** An operand is found when its words, run together and normalized, occur within one normalized text. */
  ghost predicate OperandFound(normalize: string -> string, operand: seq<string>, texts: seq<string>) {
    exists term, c :: IsTerm(normalize, operand, term) && 0 <= c < |texts| && Occurs(term, normalize(texts[c]))
  }

  ghost predicate AllFound(normalize: string -> string, operands: seq<seq<string>>, texts: seq<string>) {
    forall j :: 0 <= j < |operands| ==> OperandFound(normalize, operands[j], texts)
  }

  /** What the words ask for: every operand of some OR-separated part is found. */
  ghost predicate AskedFor(normalize: string -> string, words: seq<string>, texts: seq<string>) {
    exists i :: 0 <= i < |Operands(words)| && AllFound(normalize, Operands(words)[i], texts)
  }

  lemma {:induction false} OperandMeansTerm(normalize: string -> string, operand: seq<string>, texts: seq<string>)
    ensures TermHolds(normalize(Concat(operand)), Normalized(normalize, texts)) <==> OperandFound(normalize, operand, texts)
  {
    hide Occurs, Concat, RunTogether;
    var term := normalize(Concat(operand));
    ConcatRunsTogether(operand);
    assert IsTerm(normalize, operand, term);
    if other, c :| IsTerm(normalize, operand, other) && 0 <= c < |texts| && Occurs(other, normalize(texts[c])) {
      var text :| RunTogether(operand, text) && other == normalize(text);
      RunTogetherOnce(operand, text);
      assert Occurs(term, Normalized(normalize, texts)[c]);
    }
  }

  lemma {:induction false} OperandsMeanClause(normalize: string -> string, operands: seq<seq<string>>, texts: seq<string>)
    ensures ClauseHolds(Terms(normalize, operands), Normalized(normalize, texts)) <==> AllFound(normalize, operands, texts)
  {
    hide TermHolds, OperandFound, Concat;
    forall j | 0 <= j < |operands|
      ensures TermHolds(Terms(normalize, operands)[j], Normalized(normalize, texts))
        <==> OperandFound(normalize, operands[j], texts)
    {
      OperandMeansTerm(normalize, operands[j], texts);
    }
  }

  /** A search finds what its words ask for: when the words parse, the compiled query matches a row exactly when
    * the row's texts, as they were before normalization and indexing, are what the grammar of the words asks for. */
  lemma {:induction false} SearchFindsWhatIsAsked(
      normalize: string -> string, words: seq<string>,
      rows: map<nat, Columns>, postings: set<Posting>, row: nat, texts: seq<string>)
    requires NormalizesPlain(normalize) && GroupsOk(normalize, Operands(words))
    requires InStep(rows, postings) && row in rows && rows[row] == Indexed(Normalized(normalize, texts))
    ensures MatchesText(postings, row, ExpressionFts(Expression(normalize, Operands(words))))
      <==> AskedFor(normalize, words, texts)
  {
    hide InStep, MatchesText, ExpressionFts, WellFormed, IsPlain, ClauseHolds, AllFound, Operands, Terms;
    var groups, normalized := Operands(words), Normalized(normalize, texts);
    ParsedIsWellFormed(normalize, words);
    SearchMeansSubstring(rows, postings, row, normalized, Expression(normalize, groups));
    forall i | 0 <= i < |groups|
      ensures ClauseHolds(Expression(normalize, groups)[i], normalized) <==> AllFound(normalize, groups[i], texts)
    {
      OperandsMeanClause(normalize, groups[i], texts);
    }
  }
}
