/** The line buffer between an upstream HTTP body and the archive (src/stream.rs). */
module Stream {
  import opened Lines
  import opened Wrappers

  /** Upper bound on bytes buffered while waiting for a newline. */
  const MAX_LINE_BYTES: nat := 1024 * 1024

  /** A line as it is handed on: one trailing carriage return removed. */
  function StripCarriageReturn(line: Bytes): Bytes {
    if line != [] && line[|line| - 1] == CARRIAGE_RETURN then line[..|line| - 1] else line
  }

  /** A line that does not end in a carriage return is decoded as it is; of one that does, exactly that last byte is
    * missing. */
  predicate IsDecoded(decode: Bytes -> string, line: Bytes, text: string) {
    && (line == [] || line[|line| - 1] != 13 ==> text == decode(line))
    && (line != [] && line[|line| - 1] == 13 ==> text == decode(line[..|line| - 1]))
  }

  ghost predicate AllDecoded(decode: Bytes -> string, lines: seq<Bytes>, texts: seq<string>) {
    |texts| == |lines| && forall i :: 0 <= i < |lines| ==> IsDecoded(decode, lines[i], texts[i])
  }

  function Decoded(decode: Bytes -> string, lines: seq<Bytes>): (texts: seq<string>)
    ensures |texts| == |lines|
  {
    seq(|lines|, i requires 0 <= i < |lines| => decode(StripCarriageReturn(lines[i])))
  }

  lemma {:induction false} ScanByte(s: Bytes, start: nat, index: nat)
    requires start <= index < |s|
    requires Rest(s[..index]) == s[start..index]
    ensures s[index] == NEWLINE ==>
      CompleteLines(s[..index + 1]) == CompleteLines(s[..index]) + [s[start..index]] && Rest(s[..index + 1]) == []
    ensures s[index] != NEWLINE ==>
      CompleteLines(s[..index + 1]) == CompleteLines(s[..index]) && Rest(s[..index + 1]) == s[start..index + 1]
  {
    PushByte(s[..index], s[index]);
    assert s[..index + 1] == s[..index] + [s[index]];
    assert s[start..index + 1] == s[start..index] + [s[index]];
  }

  lemma {:induction false} DecodedEach(decode: Bytes -> string, lines: seq<Bytes>)
    ensures AllDecoded(decode, lines, Decoded(decode, lines))
  {
    forall i | 0 <= i < |lines| ensures IsDecoded(decode, lines[i], Decoded(decode, lines)[i]) {
      assert Decoded(decode, lines)[i] == decode(StripCarriageReturn(lines[i]));
    }
  }

  lemma {:induction false} DecodedPush(decode: Bytes -> string, lines: seq<Bytes>, line: Bytes)
    ensures Decoded(decode, lines + [line]) == Decoded(decode, lines) + [decode(StripCarriageReturn(line))]
  {
  }

  class LineBuffer {
    /** Lossy UTF-8 decoding, kept abstract. */
    const decode: Bytes -> string
    var pending: Bytes

    constructor (decode: Bytes -> string)
      ensures pending == [] && this.decode == decode
    {
      this.decode := decode;
      pending := [];
    }

    /** Appends `chunk` and drains every line it completes; fails when what is left is too long. */
    method PushChunk(chunk: Bytes) returns (result: Result<seq<string>, string>)
      modifies this
      ensures pending == Rest(old(pending) + chunk)
      ensures result.Ok? <==> |pending| <= 1_048_576
      ensures result.Ok? ==> result.value == Decoded(decode, CompleteLines(old(pending) + chunk))
      ensures result.Ok? ==> AllDecoded(decode, CompleteLines(old(pending) + chunk), result.value)
    {
      hide AllDecoded, CompleteLines;
      pending := pending + chunk;
      var lines: seq<string> := [];
      var lineStart := 0;
      EmptyFeed();
      assert pending[..0] == [];
      for index := 0 to |pending|
        invariant pending == old(pending) + chunk
        invariant lineStart <= index
        invariant Rest(pending[..index]) == pending[lineStart..index]
        invariant lines == Decoded(decode, CompleteLines(pending[..index]))
      {
        ScanByte(pending, lineStart, index);
        if pending[index] == NEWLINE {
          DecodedPush(decode, CompleteLines(pending[..index]), pending[lineStart..index]);
          lines := lines + [decode(StripCarriageReturn(pending[lineStart..index]))];
          lineStart := index + 1;
        }
      }
      assert pending[..|pending|] == pending;
      if lineStart > 0 {
        pending := pending[lineStart..];
      }
      if |pending| > MAX_LINE_BYTES {
        return Err("line too long without a newline");
      }
      DecodedEach(decode, CompleteLines(old(pending) + chunk));
      return Ok(lines);
    }
  }

  /** What feeding one chunk after another yields: the lines so far and the bytes still pending. */
  datatype Feed = Feed(lines: seq<Bytes>, pending: Bytes)

  function Push(pending: Bytes, chunk: Bytes): Result<Feed, string> {
    if |Rest(pending + chunk)| > MAX_LINE_BYTES then Err("line too long without a newline")
    else Ok(Feed(CompleteLines(pending + chunk), Rest(pending + chunk)))
  }

  function FeedAll(chunks: seq<Bytes>): Result<Feed, string> {
    if chunks == [] then Ok(Feed([], []))
    else
      var before := FeedAll(chunks[..|chunks| - 1]);
      if before.Err? then before
      else
        var now := Push(before.value.pending, chunks[|chunks| - 1]);
        if now.Err? then now else Ok(Feed(before.value.lines + now.value.lines, now.value.pending))
  }

  function Concat(chunks: seq<Bytes>): Bytes {
    if chunks == [] then [] else Concat(chunks[..|chunks| - 1]) + chunks[|chunks| - 1]
  }

  lemma {:induction false} EmptyFeed()
    ensures CompleteLines([]) == [] && Rest([]) == []
  {
  }

  /** How the upstream body is cut into chunks does not matter: successful pushes deliver exactly the
    * lines of the whole body and keep its unfinished tail. They succeed exactly when no chunk boundary
    * falls more than the limit behind the last newline. */
  lemma {:induction false} ChunkingInvariance(chunks: seq<Bytes>)
    ensures FeedAll(chunks).Ok? <==>
      forall k :: 0 <= k <= |chunks| ==> |Rest(Concat(chunks[..k]))| <= MAX_LINE_BYTES
    ensures FeedAll(chunks).Ok? ==>
      FeedAll(chunks).value == Feed(CompleteLines(Concat(chunks)), Rest(Concat(chunks)))
  {
    hide CompleteLines, Rest;
    if chunks != [] {
      var (n, init) := (|chunks| - 1, chunks[..|chunks| - 1]);
      ChunkingInvariance(init);
      SplitAppend(Concat(init), chunks[n]);
      assert chunks[..n + 1] == chunks;
      assert forall k :: 0 <= k <= n ==> init[..k] == chunks[..k];
      hide Concat;
    } else {
      EmptyFeed();
      assert forall k :: 0 <= k <= 0 ==> chunks[..k] == [];
    }
  }

  ghost predicate SegmentsFit(body: Bytes) {
    && (forall i :: 0 <= i < |CompleteLines(body)| ==> |CompleteLines(body)[i]| <= MAX_LINE_BYTES)
    && |Rest(body)| <= MAX_LINE_BYTES
  }

  lemma {:induction false} RestOfPrefixFits(a: Bytes, b: Bytes)
    requires SegmentsFit(a + b)
    ensures |Rest(a)| <= MAX_LINE_BYTES
  {
    SplitAppend(a, b);
    SplitJoins(a);
    var carried := Rest(a) + b;
    var i := FindNewline(carried);
    if i < |carried| {
      assert i >= |Rest(a)|;
      var k := |CompleteLines(a)|;
      assert CompleteLines(a + b)[k] == CompleteLines(carried)[0] == carried[..i];
    } else {
      assert Rest(carried) == carried;
    }
  }

  lemma {:induction false} ConcatPrefix(chunks: seq<Bytes>, k: nat)
    requires k <= |chunks|
    ensures Concat(chunks[..k]) <= Concat(chunks)
  {
    if k < |chunks| {
      var n := |chunks| - 1;
      ConcatPrefix(chunks[..n], k);
      assert chunks[..n][..k] == chunks[..k];
    } else {
      assert chunks[..k] == chunks;
    }
  }

  /** If every newline-separated segment fits the limit, no chunking of the body can fail. */
  lemma {:induction false} ShortSegmentsNeverFail(chunks: seq<Bytes>)
    requires SegmentsFit(Concat(chunks))
    ensures FeedAll(chunks).Ok?
  {
    ChunkingInvariance(chunks);
    forall k | 0 <= k <= |chunks|
      ensures |Rest(Concat(chunks[..k]))| <= MAX_LINE_BYTES
    {
      ConcatPrefix(chunks, k);
      var a, whole := Concat(chunks[..k]), Concat(chunks);
      assert a + whole[|a|..] == whole;
      RestOfPrefixFits(a, whole[|a|..]);
    }
  }

  lemma {:induction false} FirstChunkTooLong(cut: Bytes, later: Bytes)
    requires |Rest(cut)| > MAX_LINE_BYTES
    ensures Concat([cut, later]) == cut + later && FeedAll([cut, later]).Err?
  {
    var one: seq<Bytes> := [cut];
    assert one[..0] == [] && one[0] == cut;
    assert Concat(one) == Concat([]) + cut == cut;
    var both: seq<Bytes> := [cut, later];
    assert both[..1] == one;
    ChunkingInvariance(both);
  }

  lemma {:induction false} CutInsideLine(lines: seq<Bytes>, i: nat)
    requires i < |lines| && NewlineFree(lines)
    ensures Unlines(lines[..i]) + lines[i] <= Unlines(lines)
    ensures Rest(Unlines(lines[..i]) + lines[i]) == lines[i]
  {
    SplitUnique(lines[..i], lines[i]);
    UnlinesPrefix(lines, i + 1);
    UnlinesNext(lines, i);
  }

  /** Conversely, a body with an oversized segment is rejected under some chunking. */
  lemma {:induction false} LongSegmentCanFail(body: Bytes) returns (chunks: seq<Bytes>)
    requires !SegmentsFit(body)
    ensures Concat(chunks) == body && FeedAll(chunks).Err?
  {
    var lines, cut := CompleteLines(body), body;
    if |Rest(body)| <= MAX_LINE_BYTES {
      SplitJoins(body);
      var i :| 0 <= i < |lines| && |lines[i]| > MAX_LINE_BYTES;
      cut := Unlines(lines[..i]) + lines[i];
      CutInsideLine(lines, i);
    }
    chunks := [cut, body[|cut|..]];
    FirstChunkTooLong(cut, body[|cut|..]);
    assert cut + body[|cut|..] == body;
  }
}
