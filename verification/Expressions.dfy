/** The boolean search expression parser (src/search_db/text.rs), against a grammar: split the words at OR, each
  * part at AND, and concatenate and normalize what is between the operators. */
module Expressions {
  import opened Wrappers

  datatype ParseError = ExpectedTerm | NoAlphanumericTerm | EmptyQuery | ExpectedTermAfterOperator

  /** OR-separated clauses of AND-separated normalized terms. */
  type Clauses = seq<seq<string>>

  function AsciiLower(c: char): char {
    if 'A' <= c <= 'Z' then c - 'A' + 'a' else c
  }

  predicate EqualsIgnoringCase(word: string, lower: string) {
    |word| == |lower| && forall i :: 0 <= i < |word| ==> AsciiLower(word[i]) == lower[i]
  }

  predicate IsAnd(word: string) {
    EqualsIgnoringCase(word, "and")
  }

  predicate IsOr(word: string) {
    EqualsIgnoringCase(word, "or")
  }

  // ---------------------------------------------------------------- the grammar

  function Concat(parts: seq<string>): string {
    if parts == [] then "" else Concat(parts[..|parts| - 1]) + parts[|parts| - 1]
  }

  /** The maximal runs of words between separators; there is one more run than there are separators. */
  function Split(words: seq<string>, separates: string -> bool): (runs: seq<seq<string>>)
    ensures runs != []
  {
    if words == [] then [[]]
    else
      var before := Split(words[..|words| - 1], separates);
      var word := words[|words| - 1];
      if separates(word) then before + [[]] else before[|before| - 1 := before[|before| - 1] + [word]]
  }

  /** OR-separated clauses of AND-separated operands, each a run of words. */
  function Operands(words: seq<string>): (groups: seq<seq<seq<string>>>)
    ensures |groups| == |Split(words, IsOr)|
  {
    var clauses := Split(words, IsOr);
    seq(|clauses|, i requires 0 <= i < |clauses| => Split(clauses[i], IsAnd))
  }

  predicate OperandOk(normalize: string -> string, operand: seq<string>) {
    operand != [] && normalize(Concat(operand)) != ""
  }

  predicate OperandsOk(normalize: string -> string, operands: seq<seq<string>>) {
    forall i :: 0 <= i < |operands| ==> OperandOk(normalize, operands[i])
  }

  predicate GroupsOk(normalize: string -> string, groups: seq<seq<seq<string>>>) {
    forall i :: 0 <= i < |groups| ==> OperandsOk(normalize, groups[i])
  }

  function Terms(normalize: string -> string, operands: seq<seq<string>>): (terms: seq<string>)
    ensures |terms| == |operands|
  {
    seq(|operands|, i requires 0 <= i < |operands| => normalize(Concat(operands[i])))
  }

  function Expression(normalize: string -> string, groups: seq<seq<seq<string>>>): (clauses: Clauses)
    ensures |clauses| == |groups|
  {
    seq(|groups|, i requires 0 <= i < |groups| => Terms(normalize, groups[i]))
  }

  // ---------------------------------------------------------------- the grammar from outside

  /** The operators are the eight spellings of AND and the four of OR. */
  lemma {:induction false} OperatorSpellings(word: string)
    ensures IsAnd(word) <==> word in {"AND", "ANd", "AnD", "And", "aND", "aNd", "anD", "and"}
    ensures IsOr(word) <==> word in {"OR", "Or", "oR", "or"}
  {
    if |word| == 3 {
      assert word == [word[0], word[1], word[2]];
    } else if |word| == 2 {
      assert word == [word[0], word[1]];
    }
  }

  /** Where word `i` begins when the words are run together. */
  function Offset(words: seq<string>, i: nat): nat
    requires i <= |words|
  {
    if i == 0 then 0 else Offset(words, i - 1) + |words[i - 1]|
  }

  /** `text` is the words in reading order with nothing between them. */
  ghost predicate RunTogether(words: seq<string>, text: string) {
    && |text| == Offset(words, |words|)
    && forall i: nat :: i < |words| ==> WordAt(words, i, text)
  }

  ghost predicate WordAt(words: seq<string>, i: nat, text: string)
    requires i < |words|
  {
    var start := Offset(words, i);
    start + |words[i]| <= |text| && text[start..start + |words[i]|] == words[i]
  }

  lemma {:induction false} OffsetOfPrefix(words: seq<string>, n: nat, i: nat)
    requires i <= n <= |words|
    ensures Offset(words[..n], i) == Offset(words, i)
  {
    if i > 0 {
      OffsetOfPrefix(words, n, i - 1);
    }
  }

  lemma {:induction false} OffsetsAscend(words: seq<string>, i: nat, j: nat)
    requires i <= j <= |words|
    ensures Offset(words, i) <= Offset(words, j)
  {
    if i < j {
      OffsetsAscend(words, i, j - 1);
    }
  }

  /** The words before word `n` stand alike in the whole text and in its beginning. */
  lemma {:induction false} WordInBeginning(words: seq<string>, n: nat, i: nat, head: string, text: string)
    requires i < n <= |words| && |head| == Offset(words, n) && head <= text
    ensures WordAt(words[..n], i, head) <==> WordAt(words, i, text)
  {
    OffsetOfPrefix(words, n, i);
    OffsetsAscend(words, i + 1, n);
    var (start, end) := (Offset(words, i), Offset(words, i) + |words[i]|);
    assert head == text[..|head|];
    assert end <= |head| ==> text[..|head|][start..end] == text[start..end];
  }

  /** Concatenated, the words stand in reading order with nothing between them. */
  lemma {:induction false} ConcatRunsTogether(words: seq<string>)
    ensures RunTogether(words, Concat(words))
  {
    if words != [] {
      hide WordAt;
      var (n, text) := (|words| - 1, Concat(words));
      var (init, head) := (words[..n], Concat(words[..n]));
      ConcatRunsTogether(init);
      OffsetOfPrefix(words, n, n);
      forall i: nat | i < |words| ensures WordAt(words, i, text) {
        if i < n {
          WordInBeginning(words, n, i, head, text);
        } else {
          LastWord(words, head);
        }
      }
    }
  }

  lemma {:induction false} LastWord(words: seq<string>, head: string)
    requires words != [] && |head| == Offset(words, |words| - 1)
    ensures WordAt(words, |words| - 1, head + words[|words| - 1])
  {
  }

  /** There is only one such text. */
  lemma {:induction false} RunTogetherOnce(words: seq<string>, text: string)
    requires RunTogether(words, text)
    ensures text == Concat(words)
  {
    if words != [] {
      var n := |words| - 1;
      assert WordAt(words, n, text);
      var (init, head) := (words[..n], text[..Offset(words, n)]);
      assert text == head + text[Offset(words, n)..Offset(words, n) + |words[n]|];
      hide WordAt;
      OffsetOfPrefix(words, n, n);
      forall i: nat | i < n ensures WordAt(init, i, head) {
        WordInBeginning(words, n, i, head, text);
      }
      RunTogetherOnce(init, head);
    }
  }

  /** `runs` is what is left of `words` between the words that separate, which are those at `cuts`. */
  ghost predicate SplitsAt(words: seq<string>, separates: string -> bool, cuts: seq<nat>, runs: seq<seq<string>>) {
    && |runs| == |cuts| + 1
    && (forall c :: 0 <= c < |cuts| ==> cuts[c] < |words|)
    && (forall c, d :: 0 <= c < d < |cuts| ==> cuts[c] < cuts[d])
    && (forall k: nat :: k < |words| ==> (separates(words[k]) <==> k in cuts))
    && forall i :: 0 <= i < |runs| ==> RunAt(words, cuts, i, runs[i])
  }

  /** The run after cut `i - 1` and before cut `i`. */
  ghost predicate RunAt(words: seq<string>, cuts: seq<nat>, i: nat, run: seq<string>) {
    i <= |cuts| &&
      var start := if i == 0 then 0 else cuts[i - 1] + 1;
      var end := if i == |cuts| then |words| else cuts[i];
      start <= end <= |words| && run == words[start..end]
  }

  lemma {:induction false} SplitExact(words: seq<string>, separates: string -> bool) returns (cuts: seq<nat>)
    ensures SplitsAt(words, separates, cuts, Split(words, separates))
  {
    cuts := [];
    if words != [] {
      var n := |words| - 1;
      var before := SplitExact(words[..n], separates);
      cuts := if separates(words[n]) then before + [n] else before;
      SplitOneMore(words, separates, before, Split(words[..n], separates));
    }
  }

  lemma {:induction false} SplitOneMore(
      words: seq<string>, separates: string -> bool, before: seq<nat>, runs: seq<seq<string>>)
    requires words != [] && SplitsAt(words[..|words| - 1], separates, before, runs)
    ensures var (n, last) := (|words| - 1, |runs| - 1);
      if separates(words[n]) then SplitsAt(words, separates, before + [n], runs + [[]])
      else SplitsAt(words, separates, before, runs[last := runs[last] + [words[n]]])
  {
    hide RunAt;
    var (n, last) := (|words| - 1, |runs| - 1);
    var cuts := if separates(words[n]) then before + [n] else before;
    var runs' := if separates(words[n]) then runs + [[]] else runs[last := runs[last] + [words[n]]];
    forall k: nat | k < |words| ensures separates(words[k]) <==> k in cuts {
      assert k < n ==> words[..n][k] == words[k];
    }
    forall i | 0 <= i < |runs'| ensures RunAt(words, cuts, i, runs'[i]) {
      if i < |runs| {
        RunOneMore(words, before, cuts, i, runs[i], runs'[i]);
      } else {
        LastRun(words, cuts);
      }
    }
  }

  lemma {:induction false} LastRun(words: seq<string>, cuts: seq<nat>)
    requires cuts != [] && cuts[|cuts| - 1] + 1 == |words|
    ensures RunAt(words, cuts, |cuts|, [])
  {
  }

  lemma {:induction false} SliceOfPrefix(words: seq<string>, n: nat, start: nat, end: nat)
    requires start <= end <= n <= |words|
    ensures words[..n][start..end] == words[start..end]
  {
    assert forall k :: 0 <= k < end - start ==> words[..n][start..end][k] == words[start..end][k];
  }

  lemma {:induction false} RunOneMore(
      words: seq<string>, before: seq<nat>, cuts: seq<nat>, i: nat, run: seq<string>, run': seq<string>)
    requires words != [] && RunAt(words[..|words| - 1], before, i, run)
    requires cuts == before || cuts == before + [|words| - 1]
    requires run' == if cuts == before && i == |before| then run + [words[|words| - 1]] else run
    ensures RunAt(words, cuts, i, run')
  {
    var n := |words| - 1;
    var start := if i == 0 then 0 else before[i - 1] + 1;
    var end := if i == |before| then n else before[i];
    SliceOfPrefix(words, n, start, end);
    assert words[start..n] + [words[n]] == words[start..];
  }

  ghost predicate CutAt(words: seq<string>, separates: string -> bool, runs: seq<seq<string>>) {
    exists cuts :: SplitsAt(words, separates, cuts, runs)
  }

  /** The grammar: the words are cut at every OR, and each part at every AND. */
  lemma {:induction false} OperandsExact(words: seq<string>) returns (parts: seq<seq<string>>)
    ensures CutAt(words, IsOr, parts) && |Operands(words)| == |parts|
    ensures forall i :: 0 <= i < |parts| ==> CutAt(parts[i], IsAnd, Operands(words)[i])
  {
    hide SplitsAt, Split, IsAnd, IsOr;
    parts := Split(words, IsOr);
    var ors := SplitExact(words, IsOr);
    forall i | 0 <= i < |parts| ensures CutAt(parts[i], IsAnd, Operands(words)[i]) {
      var ands := SplitExact(parts[i], IsAnd);
    }
  }

  /** A term is the normalization of its operand's words run together. */
  ghost predicate IsTerm(normalize: string -> string, operand: seq<string>, term: string) {
    exists text :: RunTogether(operand, text) && term == normalize(text)
  }

  /** Every operand has become its term, clause by clause and in order. */
  ghost predicate TermsRead(normalize: string -> string, groups: seq<seq<seq<string>>>, clauses: Clauses) {
    && |clauses| == |groups|
    && (forall i :: 0 <= i < |groups| ==> |clauses[i]| == |groups[i]|)
    && forall i, j :: 0 <= i < |groups| && 0 <= j < |groups[i]| ==> IsTerm(normalize, groups[i][j], clauses[i][j])
  }

  lemma {:induction false} ExpressionReads(normalize: string -> string, groups: seq<seq<seq<string>>>)
    ensures TermsRead(normalize, groups, Expression(normalize, groups))
  {
    hide Concat, RunTogether;
    forall i, j | 0 <= i < |groups| && 0 <= j < |groups[i]|
      ensures IsTerm(normalize, groups[i][j], Expression(normalize, groups)[i][j])
    {
      ConcatRunsTogether(groups[i][j]);
    }
  }

  // ---------------------------------------------------------------- one more word

  function Last<T>(s: seq<T>): T
    requires s != []
  {
    s[|s| - 1]
  }

  function Init<T>(s: seq<T>): seq<T>
    requires s != []
  {
    s[..|s| - 1]
  }

  lemma {:induction false} SplitSnoc(words: seq<string>, word: string, separates: string -> bool)
    ensures Split(words + [word], separates) ==
      var before := Split(words, separates);
      if separates(word) then before + [[]] else Init(before) + [Last(before) + [word]]
  {
    assert (words + [word])[..|words|] == words;
  }

  lemma {:induction false} SplitNothing(separates: string -> bool)
    ensures Split([], separates) == [[]]
  {
  }

  lemma {:induction false} AndIsNotOr(word: string)
    ensures !(IsAnd(word) && IsOr(word))
  {
  }

  function AddWord(groups: seq<seq<seq<string>>>, word: string): seq<seq<seq<string>>>
    requires groups != [] && Last(groups) != []
  {
    var clause := Last(groups);
    if IsOr(word) then groups + [[[]]]
    else if IsAnd(word) then Init(groups) + [clause + [[]]]
    else Init(groups) + [Init(clause) + [Last(clause) + [word]]]
  }

  lemma {:induction false} OperandsSnoc(words: seq<string>, word: string)
    ensures Last(Operands(words)) != []
    ensures Operands(words + [word]) == AddWord(Operands(words), word)
  {
    hide IsAnd, IsOr, Split;
    SplitSnoc(words, word, IsOr);
    AndIsNotOr(word);
    var clauses := Split(words, IsOr);
    SplitSnoc(Last(clauses), word, IsAnd);
    if IsOr(word) {
      SplitNothing(IsAnd);
      assert Operands(words + [word]) == Operands(words) + [[[]]];
    } else {
      assert Operands(words + [word]) == Init(Operands(words)) + [Split(Last(clauses) + [word], IsAnd)];
    }
  }

  // ---------------------------------------------------------------- the parser

  /** Every operand but the last one is complete. */
  ghost predicate FinishedOk(normalize: string -> string, groups: seq<seq<seq<string>>>)
    requires groups != [] && Last(groups) != []
  {
    GroupsOk(normalize, Init(groups)) && OperandsOk(normalize, Init(Last(groups)))
  }

  lemma {:induction false} FinishedStaysBad(normalize: string -> string, words: seq<string>, k: nat)
    requires k <= |words| && Last(Operands(words[..k])) != [] && !FinishedOk(normalize, Operands(words[..k]))
    ensures !GroupsOk(normalize, Operands(words))
  {
    FinishedBadFrom(normalize, words, k);
    var groups := Operands(words);
    if GroupsOk(normalize, groups) {
      assert FinishedOk(normalize, groups);
    }
  }

  lemma {:induction false} FinishedBadFrom(normalize: string -> string, words: seq<string>, k: nat)
    requires k <= |words| && Last(Operands(words[..k])) != [] && !FinishedOk(normalize, Operands(words[..k]))
    ensures Last(Operands(words)) != [] && !FinishedOk(normalize, Operands(words))
  {
    if k == |words| {
      assert words[..k] == words;
    } else {
      var n := |words| - 1;
      assert words[..n][..k] == words[..k] && words[..n] + [words[n]] == words;
      FinishedBadFrom(normalize, words[..n], k);
      OperandsSnoc(words[..n], words[n]);
      OperandsSnoc(words, words[n]);
      AddWordKeepsBad(normalize, Operands(words[..n]), words[n]);
    }
  }

  lemma {:induction false} AddWordKeepsBad(normalize: string -> string, groups: seq<seq<seq<string>>>, word: string)
    requires groups != [] && Last(groups) != [] && !FinishedOk(normalize, groups)
    ensures var after := AddWord(groups, word);
      after != [] && Last(after) != [] && !FinishedOk(normalize, after)
  {
    hide OperandOk;
    var after, clause := AddWord(groups, word), Last(groups);
    if i :| 0 <= i < |groups| - 1 && !OperandsOk(normalize, groups[i]) {
      assert Init(after)[i] == groups[i];
    } else {
      var j :| 0 <= j < |clause| - 1 && !OperandOk(normalize, clause[j]);
      if IsOr(word) {
        assert Init(after)[|groups| - 1] == clause;
      } else {
        assert Init(Last(after))[j] == clause[j];
      }
    }
  }

  /** What the parser has built after reading words whose grammar is `groups`. */
  ghost predicate Built(
      normalize: string -> string, groups: seq<seq<seq<string>>>, clauses: Clauses, clause: seq<string>, parts: seq<string>)
  {
    && groups != [] && Last(groups) != []
    && clauses == Expression(normalize, Init(groups))
    && clause == Terms(normalize, Init(Last(groups)))
    && parts == Last(Last(groups))
    && FinishedOk(normalize, groups)
  }

  lemma {:induction false} BuiltWord(
      normalize: string -> string, groups: seq<seq<seq<string>>>, clauses: Clauses, clause: seq<string>, parts: seq<string>,
      word: string)
    requires Built(normalize, groups, clauses, clause, parts) && !IsAnd(word) && !IsOr(word)
    ensures Built(normalize, AddWord(groups, word), clauses, clause, parts + [word])
  {
    hide OperandOk;
    var after := AddWord(groups, word);
    assert Init(after) == Init(groups) && Init(Last(after)) == Init(Last(groups));
  }

  lemma {:induction false} BuiltAnd(
      normalize: string -> string, groups: seq<seq<seq<string>>>, clauses: Clauses, clause: seq<string>, parts: seq<string>,
      word: string)
    requires Built(normalize, groups, clauses, clause, parts) && IsAnd(word) && OperandOk(normalize, parts)
    ensures Built(normalize, AddWord(groups, word), clauses, clause + [normalize(Concat(parts))], [])
  {
    hide OperandOk, Concat;
    AndIsNotOr(word);
    var after := AddWord(groups, word);
    assert Init(after) == Init(groups) && Init(Last(after)) == Last(groups) == Init(Last(groups)) + [parts];
  }

  lemma {:induction false} BuiltOr(
      normalize: string -> string, groups: seq<seq<seq<string>>>, clauses: Clauses, clause: seq<string>, parts: seq<string>,
      word: string)
    requires Built(normalize, groups, clauses, clause, parts) && IsOr(word) && OperandOk(normalize, parts)
    ensures Built(normalize, AddWord(groups, word), clauses + [clause + [normalize(Concat(parts))]], [], [])
  {
    hide OperandOk, Concat;
    var after := AddWord(groups, word);
    assert Init(after) == groups == Init(groups) + [Last(groups)];
    assert Last(groups) == Init(Last(groups)) + [parts];
    assert Init(Last(after)) == [];
    assert Terms(normalize, Last(groups)) == clause + [normalize(Concat(parts))];
  }

  lemma {:induction false} BuiltAll(
      normalize: string -> string, groups: seq<seq<seq<string>>>, clauses: Clauses, clause: seq<string>, parts: seq<string>)
    requires Built(normalize, groups, clauses, clause, parts)
    ensures GroupsOk(normalize, groups) <==> OperandOk(normalize, parts)
    ensures Expression(normalize, groups) == clauses + [clause + [normalize(Concat(parts))]]
  {
    hide OperandOk, Concat;
    assert groups == Init(groups) + [Last(groups)];
    assert Last(groups) == Init(Last(groups)) + [parts];
    assert Terms(normalize, Last(groups)) == clause + [normalize(Concat(parts))];
    if OperandOk(normalize, parts) {
      assert OperandsOk(normalize, Last(groups));
      forall i | 0 <= i < |groups| ensures OperandsOk(normalize, groups[i]) {
        assert i < |groups| - 1 ==> groups[i] == Init(groups)[i];
      }
    } else {
      assert !OperandsOk(normalize, Last(groups)) by {
        assert Last(groups)[|Last(groups)| - 1] == parts;
      }
    }
  }

  /** The first operand that is not ok, met at the next operator, spoils the whole expression. */
  lemma {:induction false} SpoiledBy(normalize: string -> string, words: seq<string>, k: nat, parts: seq<string>)
    requires k < |words| && (IsAnd(words[k]) || IsOr(words[k]))
    requires Last(Operands(words[..k])) != [] && parts == Last(Last(Operands(words[..k]))) && !OperandOk(normalize, parts)
    ensures !GroupsOk(normalize, Operands(words))
  {
    hide OperandOk, GroupsOk;
    var groups, word := Operands(words[..k]), words[k];
    OperandsSnoc(words[..k], word);
    OperandsSnoc(words[..k + 1], word);
    assert words[..k] + [word] == words[..k + 1];
    AddOperatorSpoils(normalize, groups, word, parts);
    FinishedStaysBad(normalize, words, k + 1);
  }

  lemma {:induction false} AddOperatorSpoils(
      normalize: string -> string, groups: seq<seq<seq<string>>>, word: string, parts: seq<string>)
    requires groups != [] && Last(groups) != [] && parts == Last(Last(groups)) && !OperandOk(normalize, parts)
    requires IsAnd(word) || IsOr(word)
    ensures Last(AddWord(groups, word)) != [] && !FinishedOk(normalize, AddWord(groups, word))
  {
    hide OperandOk;
    var after, n := AddWord(groups, word), |Last(groups)| - 1;
    if IsOr(word) {
      assert Init(after)[|groups| - 1][n] == parts;
    } else {
      assert Init(Last(after))[n] == parts;
    }
  }

  /** The operand read up to word `k` ends there without being complete, and it is the first such operand. */
  ghost predicate FailsAt(normalize: string -> string, words: seq<string>, k: nat, error: ParseError) {
    && k <= |words|
    && Last(Operands(words[..k])) != []
    && FinishedOk(normalize, Operands(words[..k]))
    && var operand := Last(Last(Operands(words[..k])));
    && !OperandOk(normalize, operand)
    && if k < |words| then
         (IsAnd(words[k]) || IsOr(words[k])) && error == if operand == [] then ExpectedTerm else NoAlphanumericTerm
       else
         error == if words == [] then EmptyQuery else if operand == [] then ExpectedTermAfterOperator else NoAlphanumericTerm
  }

  lemma {:induction false} OperandEmptyIff(words: seq<string>)
    ensures Last(Operands(words)) != []
    ensures Last(Last(Operands(words))) == [] <==> words == [] || IsAnd(Last(words)) || IsOr(Last(words))
  {
    hide IsAnd, IsOr;
    if words == [] {
      NoOperands();
    } else {
      var init := Init(words);
      OperandEmptyIff(init);
      assert init + [Last(words)] == words;
      OperandsSnoc(init, Last(words));
    }
  }

  lemma {:induction false} NoOperands()
    ensures Operands([]) == [[[]]]
  {
  }

  /** Which error it is can be told from the words around: nothing typed, an operator where a term is due, an operator
    * at the end, or words before the operator or the end that normalize to nothing. */
  lemma {:induction false} ErrorMeans(normalize: string -> string, words: seq<string>, k: nat, error: ParseError)
    requires FailsAt(normalize, words, k, error)
    ensures error == EmptyQuery <==> words == []
    ensures error == ExpectedTerm <==> k < |words| && (k == 0 || IsAnd(words[k - 1]) || IsOr(words[k - 1]))
    ensures error == ExpectedTermAfterOperator <==>
      k == |words| && words != [] && (IsAnd(Last(words)) || IsOr(Last(words)))
    ensures k < |words| ==> IsAnd(words[k]) || IsOr(words[k])
    ensures error == NoAlphanumericTerm ==>
      var operand := Last(Last(Operands(words[..k])));
      operand != [] && exists text :: RunTogether(operand, text) && normalize(text) == ""
  {
    hide FinishedOk, Operands, IsAnd, IsOr, Concat, RunTogether;
    OperandEmptyIff(words[..k]);
    ConcatRunsTogether(Last(Last(Operands(words[..k]))));
    assert k > 0 ==> Last(words[..k]) == words[k - 1];
  }

  /** An expression fails in one place only, and so with one error only. */
  lemma {:induction false} FailsOnce(
      normalize: string -> string, words: seq<string>, k: nat, e: ParseError, l: nat, f: ParseError)
    requires FailsAt(normalize, words, k, e) && FailsAt(normalize, words, l, f)
    ensures k == l && e == f
  {
    hide OperandOk, GroupsOk, OperandsOk, FinishedOk;
    if k < l {
      FailsNoLater(normalize, words, k, l);
    } else if l < k {
      FailsNoLater(normalize, words, l, k);
    }
  }

  lemma {:induction false} FailsNoLater(normalize: string -> string, words: seq<string>, k: nat, l: nat)
    requires k < l <= |words| && (IsAnd(words[k]) || IsOr(words[k]))
    requires Last(Operands(words[..k])) != [] && !OperandOk(normalize, Last(Last(Operands(words[..k]))))
    ensures Last(Operands(words[..l])) != [] && !FinishedOk(normalize, Operands(words[..l]))
  {
    hide OperandOk, GroupsOk, OperandsOk, FinishedOk, Operands;
    var before, word := words[..k], words[k];
    assert words[..l][..k + 1] == before + [word];
    OperandsSnoc(before, word);
    AddOperatorSpoils(normalize, Operands(before), word, Last(Last(Operands(before))));
    FinishedBadFrom(normalize, words[..l], k + 1);
  }

  /** Parses `words`, the whitespace-separated words of a search expression. */
  method ParseSearchExpression(normalize: string -> string, words: seq<string>) returns (result: Result<Clauses, ParseError>)
    ensures result.Ok? <==> GroupsOk(normalize, Operands(words))
    ensures result.Ok? ==> result.value == Expression(normalize, Operands(words))
    ensures result.Ok? ==> TermsRead(normalize, Operands(words), result.value)
    ensures result.Err? ==> exists k :: FailsAt(normalize, words, k, result.error)
  {
    hide OperandOk, GroupsOk, OperandsOk, Operands, Expression, Terms, Built, FinishedOk, AddWord, Concat, IsAnd, IsOr,
      TermsRead;
    var clauses: Clauses := [];
    var clause: seq<string> := [];
    var termParts: seq<string> := [];
    var expectingTerm := true;
    StartBuilt(normalize);
    for k := 0 to |words|
      invariant Built(normalize, Operands(words[..k]), clauses, clause, termParts)
      invariant expectingTerm <==> termParts == []
      invariant k > 0 && expectingTerm ==> clauses != [] || clause != []
      invariant k == 0 ==> clauses == [] && clause == [] && termParts == []
    {
      var word := words[k];
      var term := normalize(Concat(termParts));
      AndIsNotOr(word);
      OperandsSnoc(words[..k], word);
      assert words[..k] + [word] == words[..k + 1];
      OperandMeaning(normalize, Operands(words[..k]), clauses, clause, termParts);
      if !IsAnd(word) && !IsOr(word) {
        BuiltWord(normalize, Operands(words[..k]), clauses, clause, termParts, word);
        termParts := termParts + [word];
        expectingTerm := false;
      } else if expectingTerm {
        SpoiledBy(normalize, words, k, termParts);
        assert FailsAt(normalize, words, k, ExpectedTerm);
        return Err(ExpectedTerm);
      } else if term == "" {
        SpoiledBy(normalize, words, k, termParts);
        assert FailsAt(normalize, words, k, NoAlphanumericTerm);
        return Err(NoAlphanumericTerm);
      } else if IsAnd(word) {
        BuiltAnd(normalize, Operands(words[..k]), clauses, clause, termParts, word);
        clause, termParts := clause + [term], [];
        expectingTerm := true;
      } else {
        BuiltOr(normalize, Operands(words[..k]), clauses, clause, termParts, word);
        clauses, clause, termParts := clauses + [clause + [term]], [], [];
        expectingTerm := true;
      }
    }
    assert words[..|words|] == words;
    BuiltAll(normalize, Operands(words), clauses, clause, termParts);
    OperandMeaning(normalize, Operands(words), clauses, clause, termParts);
    if expectingTerm {
      result := Err(if clauses == [] && clause == [] then EmptyQuery else ExpectedTermAfterOperator);
      assert FailsAt(normalize, words, |words|, result.error);
      return;
    }
    var term := normalize(Concat(termParts));
    if term == "" {
      assert FailsAt(normalize, words, |words|, NoAlphanumericTerm);
      return Err(NoAlphanumericTerm);
    }
    ExpressionReads(normalize, Operands(words));
    return Ok(clauses + [clause + [term]]);
  }

  lemma {:induction false} StartBuilt(normalize: string -> string)
    ensures forall words: seq<string> :: Built(normalize, Operands(words[..0]), [], [], [])
  {
    forall words: seq<string> ensures Built(normalize, Operands(words[..0]), [], [], []) {
      assert words[..0] == [];
    }
  }

  lemma {:induction false} OperandMeaning(
      normalize: string -> string, groups: seq<seq<seq<string>>>, clauses: Clauses, clause: seq<string>, parts: seq<string>)
    requires Built(normalize, groups, clauses, clause, parts)
    ensures OperandOk(normalize, parts) <==> parts != [] && normalize(Concat(parts)) != ""
    ensures groups != [] && Last(groups) != [] && parts == Last(Last(groups)) && FinishedOk(normalize, groups)
  {
    hide Concat;
  }

  /** A parsed expression has at least one clause, no clause is empty, and no term is. */
  lemma {:induction false} ParsedIsNonempty(normalize: string -> string, words: seq<string>)
    requires GroupsOk(normalize, Operands(words))
    ensures var e := Expression(normalize, Operands(words));
      && e != []
      && (forall i :: 0 <= i < |e| ==> e[i] != [])
      && (forall i, j :: 0 <= i < |e| && 0 <= j < |e[i]| ==> e[i][j] != "")
  {
    hide Concat, IsAnd, IsOr;
    var groups := Operands(words);
    forall i, j | 0 <= i < |groups| && 0 <= j < |groups[i]|
      ensures Expression(normalize, groups)[i][j] != ""
    {
      assert OperandOk(normalize, groups[i][j]);
    }
  }
}
