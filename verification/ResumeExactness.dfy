/** What the row of an indexed file says, in terms of the bytes of the file alone. */
module ResumeExactness {
  import opened IndexInvariant
  import opened IndexRuns
  import opened Lines
  import opened TextOrder
  import opened SearchTables

  ghost predicate EitAt(r: Reader, lines: seq<Bytes>, i: nat) {
    i < |lines| && RecordOf(r, lines[i]).EitPresent?
  }

  ghost predicate CaptionAt(r: Reader, lines: seq<Bytes>, i: nat) {
    i < |lines| && RecordOf(r, lines[i]).CaptionRecord?
  }

  /** The program is described by the last EIT present record. */
  lemma {:induction false} LastEitExact(r: Reader, lines: seq<Bytes>)
    ensures LastEit(r, lines).None? <==> forall i: nat :: !EitAt(r, lines, i)
    ensures LastEit(r, lines).Some? ==> exists i: nat ::
      EitAt(r, lines, i) && RecordOf(r, lines[i]).eit == LastEit(r, lines).value
      && forall j: nat :: i < j ==> !EitAt(r, lines, j)
  {
    if lines != [] {
      var n := |lines| - 1;
      var init := lines[..n];
      LastEitExact(r, init);
      assert forall i: nat :: i < n ==> (EitAt(r, init, i) <==> EitAt(r, lines, i));
      if EitAt(r, lines, n) {
        assert forall j: nat :: n < j ==> !EitAt(r, lines, j);
      } else if LastEit(r, init).Some? {
        var i: nat :| EitAt(r, init, i) && RecordOf(r, init[i]).eit == LastEit(r, init).value
          && forall j: nat :: i < j ==> !EitAt(r, init, j);
        assert EitAt(r, lines, i);
        forall j: nat | i < j ensures !EitAt(r, lines, j) {
          assert !EitAt(r, init, j);
        }
      } else {
        forall i: nat ensures !EitAt(r, lines, i) {
          assert i < n ==> !EitAt(r, init, i);
        }
      }
    }
  }

  ghost predicate AfterEit(r: Reader, lines: seq<Bytes>, i: nat) {
    exists m: nat :: m < i && EitAt(r, lines, m)
  }

  /** The caption rows are the caption lines after the first EIT present record, one row per line. */
  lemma {:induction false} CaptionRowsExact(r: Reader, lines: seq<Bytes>, lineNo: nat)
    ensures lineNo in CaptionRows(r, lines) <==>
      lineNo >= 1 && CaptionAt(r, lines, lineNo - 1) && AfterEit(r, lines, lineNo - 1)
    ensures lineNo in CaptionRows(r, lines) ==>
      var caption := RecordOf(r, lines[lineNo - 1]).caption;
      CaptionRows(r, lines)[lineNo] == CaptionLine(|Unlines(lines[..lineNo - 1])|, caption, r.indexText(caption.text))
  {
    hide RecordOf, Unlines;
    if lines != [] {
      var n := |lines| - 1;
      var init := lines[..n];
      CaptionRowsExact(r, init, lineNo);
      LastEitExact(r, init);
      assert forall i: nat :: i < n ==> (EitAt(r, init, i) <==> EitAt(r, lines, i));
      if lineNo == n + 1 {
        assert LastEit(r, init).Some? <==> AfterEit(r, lines, n);
      } else if 1 <= lineNo <= n {
        assert AfterEit(r, init, lineNo - 1) <==> AfterEit(r, lines, lineNo - 1);
        assert init[..lineNo - 1] == lines[..lineNo - 1];
      }
    }
  }

  /** The byte at which line `n` (counted from zero) starts: a line boundary with `n` newlines before it,
    * from which the line's own bytes follow. */
  lemma {:induction false} LineStart(content: Bytes, n: nat)
    requires n <= |CompleteLines(content)|
    ensures var start := |Unlines(CompleteLines(content)[..n])|;
      && start <= |content|
      && (start == 0 || content[start - 1] == NEWLINE)
      && NewlineCount(content[..start]) == n
      && (n < |CompleteLines(content)| ==>
            CompleteLines(content)[n] + [NEWLINE] <= content[start..])
  {
    var lines := CompleteLines(content);
    SplitJoins(content);
    UnlinesPrefix(lines, n);
    NewlineCountUnlines(lines[..n]);
    if n > 0 {
      UnlinesNext(lines, n - 1);
    }
    var start := |Unlines(lines[..n])|;
    assert content[..start] == Unlines(lines[..n]);
    if n < |lines| {
      NextLineFollows(content, lines, n);
    }
  }

  lemma {:induction false} NextLineFollows(content: Bytes, lines: seq<Bytes>, n: nat)
    requires n < |lines| && Unlines(lines) <= content
    ensures |Unlines(lines[..n])| <= |content|
    ensures lines[n] + [NEWLINE] <= content[|Unlines(lines[..n])|..]
  {
    UnlinesPrefix(lines, n + 1);
    UnlinesNext(lines, n);
    var start, line := |Unlines(lines[..n])|, lines[n] + [NEWLINE];
    assert Unlines(lines[..n + 1]) == Unlines(lines[..n]) + line;
    assert content[start..][..|line|] == line;
  }

  /** In every reachable state the row of a present indexed file resumes at a line boundary, counts the
    * newlines before it, and its program holds exactly the captions between the first EIT present record and
    * there, each with its true line number and start byte. */
  lemma {:induction false} RowIsExact(r: Reader, s: State, path: Path, lineNo: nat)
    requires Inv(r, s) && path in s.fs && path in s.tables.files && s.tables.files[path].status == Indexed
    ensures var (row, content) := (s.tables.files[path], s.fs[path]);
      && row.indexedOffset <= |content|
      && (row.indexedOffset == 0 || content[row.indexedOffset - 1] == NEWLINE)
      && NewlineCount(content[..row.indexedOffset]) == row.indexedLines <= |CompleteLines(content)|
      && var lines := CompleteLines(content)[..row.indexedLines];
      && (row.programId.Some? <==> exists i: nat :: EitAt(r, lines, i))
      && (row.programId.Some? ==>
            var rows := CaptionsOf(s.tables.captions, row.programId.value);
            (lineNo in rows <==> lineNo >= 1 && CaptionAt(r, lines, lineNo - 1) && AfterEit(r, lines, lineNo - 1))
            && (lineNo in rows ==>
                  && rows[lineNo].caption == RecordOf(r, lines[lineNo - 1]).caption
                  && rows[lineNo].byteOffset <= |content|
                  && NewlineCount(content[..rows[lineNo].byteOffset]) == lineNo - 1
                  && lines[lineNo - 1] + [NEWLINE] <= content[rows[lineNo].byteOffset..]))
  {
    hide Consistent, CompleteLines, Unlines, NewlineCount, LastEit, CaptionRows, EitAt, AfterEit;
    assert RowMatchesFile(r, s, path);
    var row, content := s.tables.files[path], s.fs[path];
    var lines := CompleteLines(content)[..row.indexedLines];
    LineStart(content, row.indexedLines);
    LastEitExact(r, lines);
    CaptionRowsExact(r, lines, lineNo);
    RowLineStart(r, content, row.indexedLines, lineNo);
  }

  lemma {:induction false} RowLineStart(r: Reader, content: Bytes, k: nat, lineNo: nat)
    requires k <= |CompleteLines(content)|
    ensures var lines := CompleteLines(content)[..k];
      1 <= lineNo <= |lines| ==>
        var start := |Unlines(lines[..lineNo - 1])|;
        && start <= |content| && NewlineCount(content[..start]) == lineNo - 1
        && lines[lineNo - 1] + [NEWLINE] <= content[start..]
  {
    hide CompleteLines, Unlines, NewlineCount;
    if 1 <= lineNo <= k {
      LineStart(content, lineNo - 1);
      assert CompleteLines(content)[..k][..lineNo - 1] == CompleteLines(content)[..lineNo - 1];
    }
  }
}
