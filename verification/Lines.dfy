/** Splitting a byte string at newline bytes.
  * The archive reader, the upstream line buffer and the archive writer all rest on these facts. */
module Lines {
  newtype byte = b: int | 0 <= b < 256

  type Bytes = seq<byte>

  const NEWLINE: byte := 10
  const CARRIAGE_RETURN: byte := 13

  /** Position of the first newline, or `|s|` when there is none. */
  function FindNewline(s: Bytes): (i: nat)
    ensures i <= |s|
    ensures forall j :: 0 <= j < i ==> s[j] != NEWLINE
    ensures i < |s| ==> s[i] == NEWLINE
  {
    if s == [] || s[0] == NEWLINE then 0 else FindNewline(s[1..]) + 1
  }

  /** The newline-terminated lines of `s`, without their newline. */
  function CompleteLines(s: Bytes): seq<Bytes>
    decreases |s|
  {
    var i := FindNewline(s);
    if i == |s| then [] else [s[..i]] + CompleteLines(s[i + 1..])
  }

  /** What follows the last newline of `s`. */
  function Rest(s: Bytes): Bytes
    decreases |s|
  {
    var i := FindNewline(s);
    if i == |s| then s else Rest(s[i + 1..])
  }

  /** The file holding `lines`, one newline after each. */
  function Unlines(lines: seq<Bytes>): Bytes {
    if lines == [] then [] else Unlines(lines[..|lines| - 1]) + lines[|lines| - 1] + [NEWLINE]
  }

  /** Number of leading bytes of `s` that belong to complete lines. */
  function CompleteLength(s: Bytes): nat {
    |Unlines(CompleteLines(s))|
  }

  function NewlineCount(s: Bytes): nat {
    if s == [] then 0 else NewlineCount(s[..|s| - 1]) + if s[|s| - 1] == NEWLINE then 1 else 0
  }

  ghost predicate NewlineFree(lines: seq<Bytes>) {
    forall i :: 0 <= i < |lines| ==> NEWLINE !in lines[i]
  }

  lemma {:induction false} UnlinesOne(line: Bytes)
    ensures Unlines([line]) == line + [NEWLINE]
  {
    var one: seq<Bytes> := [line];
    assert one[..0] == [];
  }

  lemma {:induction false} UnlinesAppend(a: seq<Bytes>, b: seq<Bytes>)
    ensures Unlines(a + b) == Unlines(a) + Unlines(b)
  {
    if b == [] {
      assert a + b == a;
    } else {
      var init := b[..|b| - 1];
      assert (a + b)[..|a + b| - 1] == a + init;
      UnlinesAppend(a, init);
    }
  }

  lemma {:induction false} UnlinesNext(lines: seq<Bytes>, i: nat)
    requires i < |lines|
    ensures Unlines(lines[..i + 1]) == Unlines(lines[..i]) + lines[i] + [NEWLINE]
  {
    assert lines[..i + 1][..i] == lines[..i];
  }

  lemma {:induction false} UnlinesPrefix(lines: seq<Bytes>, i: nat)
    requires i <= |lines|
    ensures Unlines(lines[..i]) <= Unlines(lines)
  {
    assert lines[..i] + lines[i..] == lines;
    UnlinesAppend(lines[..i], lines[i..]);
  }

  lemma {:induction false} FindNewlineAt(line: Bytes, tail: Bytes)
    requires NEWLINE !in line
    ensures FindNewline(line + [NEWLINE] + tail) == |line|
  {
    var s := line + [NEWLINE] + tail;
    assert s[|line|] == NEWLINE;
    assert forall j :: 0 <= j < |line| ==> s[j] == line[j];
  }

  lemma {:induction false} UnlinesCons(line: Bytes, lines: seq<Bytes>)
    ensures Unlines([line] + lines) == line + [NEWLINE] + Unlines(lines)
  {
    UnlinesAppend([line], lines);
    UnlinesOne(line);
  }

  lemma {:induction false} JoinFirst(s: Bytes, i: nat, lines: seq<Bytes>, rest: Bytes)
    requires i < |s| && s[i] == NEWLINE
    requires Unlines(lines) + rest == s[i + 1..]
    ensures Unlines([s[..i]] + lines) + rest == s
  {
    UnlinesCons(s[..i], lines);
    assert s == s[..i] + [NEWLINE] + s[i + 1..];
    assert (s[..i] + [NEWLINE] + Unlines(lines)) + rest == s[..i] + [NEWLINE] + (Unlines(lines) + rest);
  }

  /** A byte string is its complete lines followed by a newline-free remainder. */
  lemma {:induction false} SplitJoins(s: Bytes)
    ensures Unlines(CompleteLines(s)) + Rest(s) == s
    ensures NEWLINE == 10 && NEWLINE !in Rest(s)
    ensures NewlineFree(CompleteLines(s))
    decreases |s|
  {
    var i := FindNewline(s);
    if i < |s| {
      SplitJoins(s[i + 1..]);
      JoinFirst(s, i, CompleteLines(s[i + 1..]), Rest(s[i + 1..]));
    }
  }

  lemma {:induction false} SplitFirst(line: Bytes, tail: Bytes)
    requires NEWLINE !in line
    ensures CompleteLines(line + [NEWLINE] + tail) == [line] + CompleteLines(tail)
    ensures Rest(line + [NEWLINE] + tail) == Rest(tail)
  {
    FindNewlineAt(line, tail);
    var s := line + [NEWLINE] + tail;
    assert s[..|line|] == line && s[|line| + 1..] == tail;
  }

  /** The split is the only one: any newline-free lines and remainder that join to `s` are its split. */
  lemma {:induction false} SplitUnique(lines: seq<Bytes>, rest: Bytes)
    requires NewlineFree(lines) && NEWLINE !in rest
    ensures CompleteLines(Unlines(lines) + rest) == lines
    ensures Rest(Unlines(lines) + rest) == rest
    decreases |lines|
  {
    if lines == [] {
      assert Unlines(lines) + rest == rest;
      assert FindNewline(rest) == |rest|;
    } else {
      var tail := lines[1..];
      assert [lines[0]] + tail == lines;
      UnlinesCons(lines[0], tail);
      assert Unlines(lines) + rest == lines[0] + [NEWLINE] + (Unlines(tail) + rest);
      SplitUnique(tail, rest);
      SplitFirst(lines[0], Unlines(tail) + rest);
    }
  }

  lemma {:induction false} JoinTwice(first: seq<Bytes>, carried: Bytes, b: Bytes, second: seq<Bytes>, rest: Bytes)
    requires Unlines(second) + rest == carried + b
    ensures Unlines(first + second) + rest == Unlines(first) + carried + b
  {
    UnlinesAppend(first, second);
    assert Unlines(first) + Unlines(second) + rest == Unlines(first) + (Unlines(second) + rest);
    assert Unlines(first) + carried + b == Unlines(first) + (carried + b);
  }

  /** Splitting in two steps, carrying the remainder over, is splitting at once. */
  lemma {:induction false} SplitAppend(a: Bytes, b: Bytes)
    ensures CompleteLines(a + b) == CompleteLines(a) + CompleteLines(Rest(a) + b)
    ensures Rest(a + b) == Rest(Rest(a) + b)
  {
    SplitJoins(a);
    SplitJoins(Rest(a) + b);
    var first, second := CompleteLines(a), CompleteLines(Rest(a) + b);
    JoinTwice(first, Rest(a), b, second, Rest(Rest(a) + b));
    SplitUnique(first + second, Rest(Rest(a) + b));
  }

  lemma {:induction false} PushByte(a: Bytes, b: byte)
    ensures b == NEWLINE ==> CompleteLines(a + [b]) == CompleteLines(a) + [Rest(a)] && Rest(a + [b]) == []
    ensures b != NEWLINE ==> CompleteLines(a + [b]) == CompleteLines(a) && Rest(a + [b]) == Rest(a) + [b]
  {
    SplitAppend(a, [b]);
    SplitJoins(a);
    if b == NEWLINE {
      SplitFirst(Rest(a), []);
      assert Rest(a) + [NEWLINE] + [] == Rest(a) + [b];
    } else {
      SplitUnique([], Rest(a) + [b]);
      assert Unlines([]) + (Rest(a) + [b]) == Rest(a) + [b];
    }
  }

  /** Reading on from a line boundary yields exactly the further lines. */
  lemma {:induction false} ResumeSplit(lines: seq<Bytes>, tail: Bytes)
    requires NewlineFree(lines)
    ensures CompleteLines(Unlines(lines) + tail) == lines + CompleteLines(tail)
    ensures Rest(Unlines(lines) + tail) == Rest(tail)
  {
    SplitUnique(lines, []);
    assert Unlines(lines) + [] == Unlines(lines);
    assert [] + tail == tail;
    SplitAppend(Unlines(lines), tail);
  }

  /** Appending to a file keeps its complete lines as a prefix. */
  lemma {:induction false} CompleteLinesGrow(a: Bytes, b: Bytes)
    requires a <= b
    ensures CompleteLines(a) <= CompleteLines(b)
    ensures CompleteLength(a) <= CompleteLength(b)
  {
    assert b == a + b[|a|..];
    SplitAppend(a, b[|a|..]);
    UnlinesAppend(CompleteLines(a), CompleteLines(Rest(a) + b[|a|..]));
  }

  lemma {:induction false} NewlineCountAppend(a: Bytes, b: Bytes)
    ensures NewlineCount(a + b) == NewlineCount(a) + NewlineCount(b)
  {
    if b == [] {
      assert a + b == a;
    } else {
      assert (a + b)[..|a + b| - 1] == a + b[..|b| - 1];
      NewlineCountAppend(a, b[..|b| - 1]);
    }
  }

  lemma {:induction false} NewlineCountNone(s: Bytes)
    requires NEWLINE !in s
    ensures NewlineCount(s) == 0
  {
    if s != [] {
      NewlineCountNone(s[..|s| - 1]);
    }
  }

  lemma {:induction false} NewlineCountUnlines(lines: seq<Bytes>)
    requires NewlineFree(lines)
    ensures NewlineCount(Unlines(lines)) == |lines|
  {
    if lines != [] {
      var n := |lines| - 1;
      NewlineCountUnlines(lines[..n]);
      NewlineCountNone(lines[n]);
      NewlineCountAppend(Unlines(lines[..n]), lines[n]);
      NewlineCountAppend(Unlines(lines[..n]) + lines[n], [NEWLINE]);
    }
  }
}
