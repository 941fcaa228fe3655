/** JSON Lines members: one serialized record per line, read back line by line. */
module Lines {
  import opened Outcomes
  import opened Bytes

  /** The serializer of one record and its reader, which may refuse a line. */
  datatype Codec<!R> = Codec(encode: R -> Bytes, decode: Bytes -> Option<R>)

  const NEWLINE: byte := 10
  const RETURN: byte := 13

  predicate Break(b: byte) {
    b == NEWLINE || b == RETURN
  }

  predicate Blank(line: Bytes) {
    forall b | b in line :: b == 32 || 9 <= b <= 13
  }

  /** Records survive serialization, and a serialized record is one line that is not blank. */
  ghost predicate Exact<R(!new)>(c: Codec<R>) {
    forall r :: c.decode(c.encode(r)) == Some(r) && !Blank(c.encode(r)) && NoBreak(c.encode(r))
  }

  predicate NoBreak(line: Bytes) {
    forall b | b in line :: !Break(b)
  }

  function Text<R>(c: Codec<R>, rs: seq<R>): Bytes {
    if rs == [] then [] else Text(c, rs[..|rs| - 1]) + c.encode(rs[|rs| - 1]) + [NEWLINE]
  }

  function Newlines(b: Bytes): nat {
    if b == [] then 0 else Newlines(b[..|b| - 1]) + if b[|b| - 1] == NEWLINE then 1 else 0
  }

  /** The text split at every line break; what follows the last break comes last, even when it is empty. */
  function Split(b: Bytes): (lines: seq<Bytes>)
    ensures |lines| > 0
  {
    if b == [] then [[]]
    else
      var before := Split(b[..|b| - 1]);
      var last := |before| - 1;
      if Break(b[|b| - 1]) then before + [[]] else before[..last] + [before[last] + [b[|b| - 1]]]
  }

  function Decoded<R>(c: Codec<R>, lines: seq<Bytes>): seq<Option<R>> {
    if lines == [] then []
    else
      var before := Decoded(c, lines[..|lines| - 1]);
      var line := lines[|lines| - 1];
      if Blank(line) then before else before + [c.decode(line)]
  }

  /** The records of a member, blank lines skipped; `None` stands for a line the reader refuses. */
  function Records<R>(c: Codec<R>, b: Bytes): seq<Option<R>> {
    Decoded(c, Split(b))
  }

  function Somes<R>(rs: seq<R>): (os: seq<Option<R>>)
    ensures |os| == |rs| && forall i | 0 <= i < |rs| :: os[i] == Some(rs[i])
  {
    seq(|rs|, i requires 0 <= i < |rs| => Some(rs[i]))
  }

  // ---- Counting ----

  lemma {:induction false} NewlinesAppend(a: Bytes, b: Bytes)
    ensures Newlines(a + b) == Newlines(a) + Newlines(b)
    decreases |b|
  {
    if b == [] {
      assert a + b == a;
    } else {
      var n := |b| - 1;
      assert (a + b)[..|a + b| - 1] == a + b[..n];
      NewlinesAppend(a, b[..n]);
    }
  }

  lemma {:induction false} NoBreakNoNewline(b: Bytes)
    requires NoBreak(b)
    ensures Newlines(b) == 0
    decreases |b|
  {
    if b != [] {
      assert b[|b| - 1] in b;
      NoBreakNoNewline(b[..|b| - 1]);
    }
  }

  /** A member has as many newlines as records. */
  lemma {:induction false} NewlinesAreRecords<R(!new)>(c: Codec<R>, rs: seq<R>)
    requires Exact(c)
    ensures Newlines(Text(c, rs)) == |rs|
    decreases |rs|
  {
    if rs != [] {
      var n := |rs| - 1;
      var before, line := Text(c, rs[..n]), c.encode(rs[n]);
      NewlinesAreRecords(c, rs[..n]);
      NoBreakNoNewline(line);
      NewlinesAppend(before, line);
      NewlinesAppend(before + line, [NEWLINE]);
      assert Newlines([NEWLINE]) == Newlines([]) + 1;
    }
  }

  // ---- Reading back ----

  /** Text without a break lengthens the last line. */
  lemma {:induction false} SplitRun(a: Bytes, run: Bytes)
    requires NoBreak(run)
    ensures var before := Split(a); Split(a + run) == before[..|before| - 1] + [before[|before| - 1] + run]
    decreases |run|
  {
    var before := Split(a);
    if run == [] {
      assert a + run == a;
      assert before[|before| - 1] + run == before[|before| - 1];
    } else {
      var n := |run| - 1;
      assert run[n] in run;
      assert (a + run)[..|a + run| - 1] == a + run[..n];
      SplitRun(a, run[..n]);
      assert before[|before| - 1] + run == before[|before| - 1] + run[..n] + [run[n]];
    }
  }

  lemma SplitLine(a: Bytes, line: Bytes)
    requires NoBreak(line)
    ensures var before := Split(a);
            Split(a + line + [NEWLINE]) == before[..|before| - 1] + [before[|before| - 1] + line, []]
  {
    var b := a + line + [NEWLINE];
    assert b[..|b| - 1] == a + line;
    SplitRun(a, line);
  }

  /** The lines of a member are its serialized records, with the empty remainder after the last newline. */
  lemma {:induction false} SplitText<R(!new)>(c: Codec<R>, rs: seq<R>)
    requires Exact(c)
    ensures |Split(Text(c, rs))| == |rs| + 1
    ensures forall i | 0 <= i < |rs| :: Split(Text(c, rs))[i] == c.encode(rs[i])
    ensures Split(Text(c, rs))[|rs|] == []
    decreases |rs|
  {
    if rs != [] {
      var n := |rs| - 1;
      SplitText(c, rs[..n]);
      SplitLine(Text(c, rs[..n]), c.encode(rs[n]));
    }
  }

  lemma {:induction false} DecodedLines<R(!new)>(c: Codec<R>, rs: seq<R>, lines: seq<Bytes>)
    requires Exact(c) && |lines| == |rs| && forall i | 0 <= i < |rs| :: lines[i] == c.encode(rs[i])
    ensures Decoded(c, lines) == Somes(rs)
    decreases |rs|
  {
    if rs != [] {
      var n := |rs| - 1;
      DecodedLines(c, rs[..n], lines[..n]);
    }
  }

  /** Reading a written member gives back its records. */
  lemma RecordsRoundTrip<R(!new)>(c: Codec<R>, rs: seq<R>)
    requires Exact(c)
    ensures Records(c, Text(c, rs)) == Somes(rs)
  {
    SplitText(c, rs);
    var lines := Split(Text(c, rs));
    assert Decoded(c, lines) == Decoded(c, lines[..|rs|]);
    DecodedLines(c, rs, lines[..|rs|]);
  }
}
