/** The FTS5 query text compiled from a search expression (src/search_db/query.rs), and how FTS5 reads it back:
  * strings in double quotes, AND binding tighter than OR, both associating to the left, and parentheses. */
module FtsQuery {
  import Expressions
  import opened Wrappers

  type Clauses = Expressions.Clauses

  function Join(separator: string, parts: seq<string>): string {
    if parts == [] then ""
    else if |parts| == 1 then parts[0]
    else parts[0] + separator + Join(separator, parts[1..])
  }

  function Characters(text: string): seq<string> {
    seq(|text|, i requires 0 <= i < |text| => [text[i]])
  }

  /** One token per character, as the indexed text has it too. */
  function Spaced(text: string): string {
    Join(" ", Characters(text))
  }

  function FtsPhrase(term: string): string {
    "\"" + Spaced(term) + "\""
  }

  function Phrases(terms: seq<string>): seq<string> {
    seq(|terms|, i requires 0 <= i < |terms| => FtsPhrase(terms[i]))
  }

  function ClauseFts(terms: seq<string>): string {
    var query := Join(" AND ", Phrases(terms));
    if |terms| > 1 then "(" + query + ")" else query
  }

  function ExpressionFts(clauses: Clauses): string {
    Join(" OR ", seq(|clauses|, i requires 0 <= i < |clauses| => ClauseFts(clauses[i])))
  }

  // ---------------------------------------------------------------- reading query text

  datatype Token = Open | Close | And | Or | Quoted(text: string)

  predicate IsBareword(c: char) {
    'a' <= c <= 'z' || 'A' <= c <= 'Z' || '0' <= c <= '9' || c == '_' || c >= 128 as char
  }

  /** Length of the run of bareword characters `s` begins with. */
  function BarewordLength(s: string): (n: nat)
    ensures n <= |s|
  {
    if s == "" || !IsBareword(s[0]) then 0 else BarewordLength(s[1..]) + 1
  }

  /** The contents of the quoted string that `s` continues, and how many characters it takes up to and including
    * its closing quote; a doubled quote stands for one. */
  function QuotedText(s: string): (r: Option<(string, nat)>)
    ensures r.Some? ==> 0 < r.value.1 <= |s|
  {
    if s == "" then None
    else if s[0] == '"' then
      if |s| > 1 && s[1] == '"' then
        var rest := QuotedText(s[2..]);
        if rest.None? then None else Some(("\"" + rest.value.0, rest.value.1 + 2))
      else Some(("", 1))
    else
      var rest := QuotedText(s[1..]);
      if rest.None? then None else Some(([s[0]] + rest.value.0, rest.value.1 + 1))
  }

  /** The tokens of a query; `None` for text outside the part of the syntax modelled here. */
  function Lex(s: string): Option<seq<Token>>
    decreases |s|
  {
    if s == "" then Some([])
    else if s[0] == ' ' then Lex(s[1..])
    else if s[0] == '(' then Prepend(Open, Lex(s[1..]))
    else if s[0] == ')' then Prepend(Close, Lex(s[1..]))
    else if s[0] == '"' then
      var quoted := QuotedText(s[1..]);
      if quoted.None? then None else Prepend(Quoted(quoted.value.0), Lex(s[1 + quoted.value.1..]))
    else
      var n := BarewordLength(s);
      if n == 3 && s[..3] == "AND" then Prepend(And, Lex(s[3..]))
      else if n == 2 && s[..2] == "OR" then Prepend(Or, Lex(s[2..]))
      else None
  }

  function Prepend(token: Token, rest: Option<seq<Token>>): Option<seq<Token>> {
    if rest.None? then None else Some([token] + rest.value)
  }

  datatype Query = Phrase(text: string) | Both(left: Query, right: Query) | Either(left: Query, right: Query)

  type Parsed = Option<(Query, seq<Token>)>

  function ParsePrimary(tokens: seq<Token>): (r: Parsed)
    ensures r.Some? ==> |r.value.1| < |tokens|
    decreases |tokens|, 0
  {
    if tokens == [] then None
    else if tokens[0].Quoted? then Some((Phrase(tokens[0].text), tokens[1..]))
    else if tokens[0].Open? then
      var inner := ParseOr(tokens[1..]);
      if inner.Some? && inner.value.1 != [] && inner.value.1[0].Close? then Some((inner.value.0, inner.value.1[1..])) else None
    else None
  }

  function ParseAnd(tokens: seq<Token>): (r: Parsed)
    ensures r.Some? ==> |r.value.1| < |tokens|
    decreases |tokens|, 1
  {
    var first := ParsePrimary(tokens);
    if first.None? then None else MoreAnds(first.value.0, first.value.1)
  }

  function MoreAnds(left: Query, tokens: seq<Token>): (r: Parsed)
    ensures r.Some? ==> |r.value.1| <= |tokens|
    decreases |tokens|, 2
  {
    if tokens == [] || !tokens[0].And? then Some((left, tokens))
    else
      var next := ParsePrimary(tokens[1..]);
      if next.None? then None else MoreAnds(Both(left, next.value.0), next.value.1)
  }

  function ParseOr(tokens: seq<Token>): (r: Parsed)
    ensures r.Some? ==> |r.value.1| < |tokens|
    decreases |tokens|, 3
  {
    var first := ParseAnd(tokens);
    if first.None? then None else MoreOrs(first.value.0, first.value.1)
  }

  function MoreOrs(left: Query, tokens: seq<Token>): (r: Parsed)
    ensures r.Some? ==> |r.value.1| <= |tokens|
    decreases |tokens|, 4
  {
    if tokens == [] || !tokens[0].Or? then Some((left, tokens))
    else
      var next := ParseAnd(tokens[1..]);
      if next.None? then None else MoreOrs(Either(left, next.value.0), next.value.1)
  }

  /** A whole query: nothing may be left over. */
  function ParseQuery(text: string): Option<Query> {
    var tokens := Lex(text);
    if tokens.None? then None
    else
      var parsed := ParseOr(tokens.value);
      if parsed.Some? && parsed.value.1 == [] then Some(parsed.value.0) else None
  }

  // ---------------------------------------------------------------- what the compiled text reads as

  /** Normalized text: no character needs quoting or separates tokens. */
  predicate IsPlain(text: string) {
    forall i :: 0 <= i < |text| ==> text[i] != ' ' && text[i] != '"'
  }

  ghost predicate WellFormed(clauses: Clauses) {
    && clauses != []
    && (forall i :: 0 <= i < |clauses| ==> clauses[i] != [])
    && (forall i, j :: 0 <= i < |clauses| && 0 <= j < |clauses[i]| ==> clauses[i][j] != "" && IsPlain(clauses[i][j]))
  }

  function TermTokens(terms: seq<string>): seq<Token> {
    if terms == [] then []
    else if |terms| == 1 then [Quoted(Spaced(terms[0]))]
    else [Quoted(Spaced(terms[0])), And] + TermTokens(terms[1..])
  }

  function ClauseTokens(terms: seq<string>): seq<Token> {
    if |terms| > 1 then [Open] + TermTokens(terms) + [Close] else TermTokens(terms)
  }

  function ExpressionTokens(clauses: Clauses): seq<Token> {
    if clauses == [] then []
    else if |clauses| == 1 then ClauseTokens(clauses[0])
    else ClauseTokens(clauses[0]) + [Or] + ExpressionTokens(clauses[1..])
  }

  /** Text that a quoted string or a bareword can be followed by without running on. */
  predicate Breaks(rest: string) {
    rest != "" ==> rest[0] != '"' && !IsBareword(rest[0])
  }

  ghost predicate NoQuote(text: string) {
    forall i :: 0 <= i < |text| ==> text[i] != '"'
  }

  lemma {:induction false} QuotedReads(text: string, rest: string)
    requires NoQuote(text) && Breaks(rest)
    ensures QuotedText(text + "\"" + rest) == Some((text, |text| + 1))
  {
    var s := text + "\"" + rest;
    if text != "" {
      QuotedReads(text[1..], rest);
      assert s[1..] == text[1..] + "\"" + rest;
      assert s[0] == text[0] && [text[0]] + text[1..] == text;
    } else {
      assert s == "\"" + rest;
      assert |s| > 1 ==> s[1] == rest[0];
    }
  }

  lemma {:induction false} JoinNoQuote(parts: seq<string>)
    requires forall i :: 0 <= i < |parts| ==> NoQuote(parts[i])
    ensures NoQuote(Join(" ", parts))
  {
    if |parts| > 1 {
      JoinNoQuote(parts[1..]);
    }
  }

  lemma {:induction false} LexPhrase(term: string, rest: string)
    requires IsPlain(term) && Breaks(rest)
    ensures Lex(FtsPhrase(term) + rest) == Prepend(Quoted(Spaced(term)), Lex(rest))
  {
    hide Lex, Spaced;
    JoinNoQuoteSpaced(term);
    QuotedReads(Spaced(term), rest);
    var s := FtsPhrase(term) + rest;
    assert s[1..] == Spaced(term) + "\"" + rest;
    assert s[1 + (|Spaced(term)| + 1)..] == rest;
    LexQuoted(s);
  }

  lemma {:induction false} JoinNoQuoteSpaced(term: string)
    requires IsPlain(term)
    ensures NoQuote(Spaced(term))
  {
    JoinNoQuote(Characters(term));
  }

  lemma {:induction false} LexQuoted(s: string)
    requires s != "" && s[0] == '"' && QuotedText(s[1..]).Some?
    ensures var quoted := QuotedText(s[1..]).value;
      Lex(s) == Prepend(Quoted(quoted.0), Lex(s[1 + quoted.1..]))
  {
  }

  lemma {:induction false} LexOperator(word: string, rest: string)
    requires word == "AND" || word == "OR"
    ensures Lex(" " + word + " " + rest) == Prepend(if word == "AND" then And else Or, Lex(rest))
  {
    var s := " " + word + " " + rest;
    assert s[1..] == word + " " + rest;
    BarewordStops(word, rest);
    assert (word + " " + rest)[..|word|] == word;
    assert (word + " " + rest)[|word|..] == " " + rest;
    LexBareword(word + " " + rest, |word|);
    assert (" " + rest)[1..] == rest;
  }

  lemma {:induction false} LexBareword(s: string, n: nat)
    requires s != "" && IsBareword(s[0]) && n == BarewordLength(s)
    ensures n == 3 && s[..3] == "AND" ==> Lex(s) == Prepend(And, Lex(s[3..]))
    ensures n == 2 && s[..2] == "OR" ==> Lex(s) == Prepend(Or, Lex(s[2..]))
  {
  }

  lemma {:induction false} BarewordStops(word: string, rest: string)
    requires forall i :: 0 <= i < |word| ==> IsBareword(word[i])
    ensures BarewordLength(word + " " + rest) == |word|
  {
    if word != "" {
      BarewordStops(word[1..], rest);
      assert (word + " " + rest)[1..] == word[1..] + " " + rest;
    } else {
      assert word + " " + rest == " " + rest;
    }
  }

  lemma {:induction false} LexChar(c: char, rest: string)
    requires c == '(' || c == ')'
    ensures Lex([c] + rest) == Prepend(if c == '(' then Open else Close, Lex(rest))
  {
    assert ([c] + rest)[1..] == rest;
  }

  function Append(tokens: seq<Token>, rest: Option<seq<Token>>): Option<seq<Token>> {
    if rest.None? then None else Some(tokens + rest.value)
  }

  lemma {:induction false} PrependAppend(token: Token, tokens: seq<Token>, rest: Option<seq<Token>>)
    ensures Prepend(token, Append(tokens, rest)) == Append([token] + tokens, rest)
    ensures Prepend(token, rest) == Append([token], rest)
  {
    if rest.Some? {
      assert [token] + (tokens + rest.value) == ([token] + tokens) + rest.value;
    }
  }

  ghost predicate PlainTerms(terms: seq<string>) {
    forall i :: 0 <= i < |terms| ==> IsPlain(terms[i])
  }

  lemma {:induction false} LexTerms(terms: seq<string>, rest: string)
    requires terms != [] && PlainTerms(terms) && Breaks(rest)
    ensures Lex(Join(" AND ", Phrases(terms)) + rest) == Append(TermTokens(terms), Lex(rest))
  {
    hide Lex, FtsPhrase, Spaced, IsPlain;
    if |terms| == 1 {
      LexPhrase(terms[0], rest);
      PrependAppend(Quoted(Spaced(terms[0])), [], Lex(rest));
    } else {
      var later := Join(" AND ", Phrases(terms[1..]));
      assert Phrases(terms)[1..] == Phrases(terms[1..]);
      assert Join(" AND ", Phrases(terms)) + rest == FtsPhrase(terms[0]) + (" AND " + (later + rest));
      assert " " + "AND" + " " + (later + rest) == " AND " + (later + rest);
      LexPhrase(terms[0], " AND " + (later + rest));
      LexOperator("AND", later + rest);
      LexTerms(terms[1..], rest);
      PrependAppend(And, TermTokens(terms[1..]), Lex(rest));
      PrependAppend(Quoted(Spaced(terms[0])), [And] + TermTokens(terms[1..]), Lex(rest));
      assert [Quoted(Spaced(terms[0]))] + ([And] + TermTokens(terms[1..])) == TermTokens(terms);
    }
  }

  lemma {:induction false} LexClause(terms: seq<string>, rest: string)
    requires terms != [] && PlainTerms(terms) && Breaks(rest)
    ensures Lex(ClauseFts(terms) + rest) == Append(ClauseTokens(terms), Lex(rest))
  {
    hide Lex, FtsPhrase, Spaced, Phrases, IsPlain, TermTokens;
    if |terms| > 1 {
      var query := Join(" AND ", Phrases(terms));
      assert ClauseFts(terms) + rest == ['('] + (query + ([')'] + rest));
      LexChar('(', query + ([')'] + rest));
      LexTerms(terms, [')'] + rest);
      LexChar(')', rest);
      PrependAppend(Close, [], Lex(rest));
      AppendAppend(TermTokens(terms), [Close], Lex(rest));
      PrependAppend(Open, TermTokens(terms) + [Close], Lex(rest));
      assert [Open] + (TermTokens(terms) + [Close]) == ClauseTokens(terms);
    } else {
      LexTerms(terms, rest);
    }
  }

  lemma {:induction false} AppendAppend(a: seq<Token>, b: seq<Token>, rest: Option<seq<Token>>)
    ensures Append(a, Append(b, rest)) == Append(a + b, rest)
  {
    if rest.Some? {
      assert a + (b + rest.value) == a + b + rest.value;
    }
  }

  function ClauseTexts(clauses: Clauses): seq<string> {
    seq(|clauses|, i requires 0 <= i < |clauses| => ClauseFts(clauses[i]))
  }

  lemma {:induction false} LexExpression(clauses: Clauses)
    requires WellFormed(clauses)
    ensures Lex(ExpressionFts(clauses)) == Some(ExpressionTokens(clauses))
  {
    hide Lex, ClauseFts, ClauseTokens, IsPlain;
    assert PlainTerms(clauses[0]);
    assert Lex("") == Some([]) by {
      LexEmpty();
    }
    if |clauses| == 1 {
      LexClause(clauses[0], "");
      assert ClauseFts(clauses[0]) + "" == ExpressionFts(clauses);
      assert ClauseTokens(clauses[0]) + [] == ExpressionTokens(clauses);
    } else {
      var later := ExpressionFts(clauses[1..]);
      assert ClauseTexts(clauses)[1..] == ClauseTexts(clauses[1..]);
      assert ExpressionFts(clauses) == ClauseFts(clauses[0]) + (" OR " + later);
      assert " " + "OR" + " " + later == " OR " + later;
      LexClause(clauses[0], " OR " + later);
      LexOperator("OR", later);
      LexExpression(clauses[1..]);
      assert ClauseTokens(clauses[0]) + ([Or] + ExpressionTokens(clauses[1..])) == ExpressionTokens(clauses);
    }
  }

  lemma {:induction false} LexEmpty()
    ensures Lex("") == Some([])
  {
  }

  // ---------------------------------------------------------------- parsing the tokens back

  function AllOf(left: Query, terms: seq<string>): Query
    decreases |terms|
  {
    if terms == [] then left else AllOf(Both(left, Phrase(Spaced(terms[0]))), terms[1..])
  }

  function ClauseQuery(terms: seq<string>): Query
    requires terms != []
  {
    AllOf(Phrase(Spaced(terms[0])), terms[1..])
  }

  function AnyOf(left: Query, clauses: Clauses): Query
    decreases |clauses|
  {
    if clauses == [] then left
    else AnyOf(Either(left, if clauses[0] == [] then left else ClauseQuery(clauses[0])), clauses[1..])
  }

  function ExpressionQuery(clauses: Clauses): Query
    requires clauses != [] && clauses[0] != []
  {
    AnyOf(ClauseQuery(clauses[0]), clauses[1..])
  }

  predicate StopsAnds(rest: seq<Token>) {
    rest == [] || !rest[0].And?
  }

  lemma {:induction false} ParsesPhrase(text: string, rest: seq<Token>)
    ensures ParsePrimary([Quoted(text)] + rest) == Some((Phrase(text), rest))
  {
    assert ([Quoted(text)] + rest)[1..] == rest;
  }

  lemma {:induction false} OneMoreAnd(left: Query, tokens: seq<Token>)
    requires tokens != [] && tokens[0].And? && ParsePrimary(tokens[1..]).Some?
    ensures var next := ParsePrimary(tokens[1..]).value;
      MoreAnds(left, tokens) == MoreAnds(Both(left, next.0), next.1)
  {
  }

  lemma {:induction false} NoMoreAnds(left: Query, rest: seq<Token>)
    requires StopsAnds(rest)
    ensures MoreAnds(left, rest) == Some((left, rest))
  {
  }

  function AndTokens(terms: seq<string>): seq<Token> {
    if terms == [] then [] else [And] + TermTokens(terms)
  }

  lemma {:induction false} NoAndTokens()
    ensures AndTokens([]) == []
  {
  }

  lemma {:induction false} TermTokensSplit(terms: seq<string>)
    requires terms != []
    ensures TermTokens(terms) == [Quoted(Spaced(terms[0]))] + AndTokens(terms[1..])
  {
    hide Spaced;
  }

  lemma {:induction false} FirstTermToken(terms: seq<string>, rest: seq<Token>)
    requires terms != []
    ensures TermTokens(terms) + rest == [Quoted(Spaced(terms[0]))] + (AndTokens(terms[1..]) + rest)
    ensures AndTokens(terms) + rest == [And] + (TermTokens(terms) + rest)
  {
    hide Spaced, TermTokens;
    TermTokensSplit(terms);
    Associative([Quoted(Spaced(terms[0]))], AndTokens(terms[1..]), rest);
    Associative([And], TermTokens(terms), rest);
  }

  lemma {:induction false} Associative(a: seq<Token>, b: seq<Token>, c: seq<Token>)
    ensures a + b + c == a + (b + c)
  {
  }

  lemma {:induction false} ParsesTerms(left: Query, terms: seq<string>, rest: seq<Token>)
    requires StopsAnds(rest)
    ensures MoreAnds(left, AndTokens(terms) + rest) == Some((AllOf(left, terms), rest))
    decreases |terms|
  {
    hide Spaced, MoreAnds, ParsePrimary, TermTokens, AndTokens;
    if terms == [] {
      assert AndTokens(terms) == [] by {
        NoAndTokens();
      }
      assert [] + rest == rest;
      NoMoreAnds(left, rest);
    } else {
      var tokens, later := AndTokens(terms) + rest, AndTokens(terms[1..]) + rest;
      FirstTermToken(terms, rest);
      ParsesPhrase(Spaced(terms[0]), later);
      OneMoreAnd(left, tokens);
      ParsesTerms(Both(left, Phrase(Spaced(terms[0]))), terms[1..], rest);
    }
  }

  lemma {:induction false} ParsesTermList(terms: seq<string>, rest: seq<Token>)
    requires terms != [] && StopsAnds(rest)
    ensures ParseAnd(TermTokens(terms) + rest) == Some((ClauseQuery(terms), rest))
  {
    hide Spaced, MoreAnds, ParsePrimary;
    var later := AndTokens(terms[1..]) + rest;
    FirstTermToken(terms, rest);
    ParsesPhrase(Spaced(terms[0]), later);
    ParsesTerms(Phrase(Spaced(terms[0])), terms[1..], rest);
  }

  lemma {:induction false} NoMoreOrs(left: Query, rest: seq<Token>)
    requires rest == [] || !rest[0].Or?
    ensures MoreOrs(left, rest) == Some((left, rest))
  {
  }

  lemma {:induction false} ParsesClause(terms: seq<string>, rest: seq<Token>)
    requires terms != [] && StopsAnds(rest)
    ensures ParseAnd(ClauseTokens(terms) + rest) == Some((ClauseQuery(terms), rest))
  {
    hide TermTokens, ClauseQuery, MoreAnds, MoreOrs;
    if |terms| > 1 {
      var inner := TermTokens(terms) + ([Close] + rest);
      var tokens := ClauseTokens(terms) + rest;
      assert tokens == [Open] + inner;
      assert tokens[1..] == inner;
      ParsesTermList(terms, [Close] + rest);
      NoMoreOrs(ClauseQuery(terms), [Close] + rest);
      assert ([Close] + rest)[1..] == rest;
      assert ParsePrimary(tokens) == Some((ClauseQuery(terms), rest));
      NoMoreAnds(ClauseQuery(terms), rest);
    } else {
      ParsesTermList(terms, rest);
    }
  }

  lemma {:induction false} ParsesClauses(left: Query, clauses: Clauses)
    requires forall i :: 0 <= i < |clauses| ==> clauses[i] != []
    ensures MoreOrs(left, if clauses == [] then [] else [Or] + ExpressionTokens(clauses)) == Some((AnyOf(left, clauses), []))
    decreases |clauses|
  {
    hide ClauseTokens, ClauseQuery, ParseAnd;
    if clauses != [] {
      var later := if clauses[1..] == [] then [] else [Or] + ExpressionTokens(clauses[1..]);
      assert ExpressionTokens(clauses) == ClauseTokens(clauses[0]) + later;
      assert ([Or] + ExpressionTokens(clauses))[1..] == ClauseTokens(clauses[0]) + later;
      ParsesClause(clauses[0], later);
      ParsesClauses(Either(left, ClauseQuery(clauses[0])), clauses[1..]);
    }
  }

  /** FTS5 reads the compiled text as exactly the intended expression. */
  lemma {:induction false} CompiledTextParses(clauses: Clauses)
    requires WellFormed(clauses)
    ensures ParseQuery(ExpressionFts(clauses)) == Some(ExpressionQuery(clauses))
  {
    hide Lex, ClauseTokens, ClauseQuery, MoreOrs, ParseAnd, IsPlain, ExpressionFts;
    LexExpression(clauses);
    var later := if clauses[1..] == [] then [] else [Or] + ExpressionTokens(clauses[1..]);
    assert ExpressionTokens(clauses) == ClauseTokens(clauses[0]) + later;
    ParsesClause(clauses[0], later);
    ParsesClauses(ClauseQuery(clauses[0]), clauses[1..]);
  }
}
