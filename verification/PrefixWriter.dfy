/** The line-prefixing writer of internal/docker/service.go, over an underlying writer that accepts every write. */
module PrefixWriter {
  import opened Basics
  import opened Listing

  type Bytes = seq<char>

  // ---- Lines of a byte stream -------------------------------------------------

  function Newline(s: Bytes): (i: nat)
    ensures i <= |s| && (i < |s| ==> s[i] == '\n') && forall k :: 0 <= k < i ==> s[k] != '\n'
  {
    if s == [] || s[0] == '\n' then 0
    else
      var i := Newline(s[1..]);
      assert forall k :: 0 < k < i + 1 ==> s[k] == s[1..][k - 1];
      i + 1
  }

  /** The complete lines, each with its newline. */
  function FullLines(s: Bytes): seq<Bytes> {
    var i := Newline(s);
    if i == |s| then [] else [s[..i + 1]] + FullLines(s[i + 1..])
  }

  /** What follows the last newline. */
  function Rest(s: Bytes): Bytes {
    var i := Newline(s);
    if i == |s| then s else Rest(s[i + 1..])
  }

  function Prefixed(prefix: Bytes, lines: seq<Bytes>): seq<Bytes> {
    if lines == [] then [] else [prefix + lines[0]] + Prefixed(prefix, lines[1..])
  }

  lemma {:induction false} NewlineAppend(a: Bytes, b: Bytes)
    ensures Newline(a + b) == if Newline(a) < |a| then Newline(a) else |a| + Newline(b)
  {
    if a == [] {
      assert a + b == b;
    } else {
      assert (a + b)[1..] == a[1..] + b;
      NewlineAppend(a[1..], b);
    }
  }

  /** Splitting the stream anywhere: the rest of the first part is carried into the second. */
  lemma {:induction false} LinesAppend(a: Bytes, b: Bytes)
    ensures FullLines(a + b) == FullLines(a) + FullLines(Rest(a) + b)
    ensures Rest(a + b) == Rest(Rest(a) + b)
    decreases |a|
  {
    if Newline(a) < |a| {
      var line, rest := TakeLine(a);
      LinesAppend(rest, b);
      FirstLine(line, rest);
      FirstLine(line, rest + b);
      AppendAssociative(line, rest, b);
      AppendAssociative([line], FullLines(rest), FullLines(Rest(rest) + b));
    } else {
      AppendNothing(FullLines(a + b));
    }
  }

  lemma {:induction false} PrefixedAppend(prefix: Bytes, a: seq<Bytes>, b: seq<Bytes>)
    ensures Prefixed(prefix, a + b) == Prefixed(prefix, a) + Prefixed(prefix, b)
  {
    if a == [] {
      assert a + b == b;
    } else {
      assert (a + b)[1..] == a[1..] + b;
      PrefixedAppend(prefix, a[1..], b);
    }
  }

  // ---- The writer -------------------------------------------------------------

  class Writer {
    const prefix: Bytes
    var buf: Bytes
    var out: seq<Bytes>   // the writes made to the underlying writer, in order

    constructor (prefix: Bytes)
      ensures this.prefix == prefix && buf == [] && out == []
    {
      this.prefix, buf, out := prefix, [], [];
    }

    /** Buffers what it is given and passes on every line completed by it. */
    method Write(p: Bytes) returns (n: nat)
      modifies this
      ensures n == |p|
      ensures out == old(out) + Prefixed(prefix, FullLines(old(buf) + p))
      ensures buf == Rest(old(buf) + p)
    {
      buf := buf + p;
      ghost var all := buf;
      while true
        invariant out + Prefixed(prefix, FullLines(buf)) == old(out) + Prefixed(prefix, FullLines(all))
        invariant Rest(buf) == Rest(all)
        decreases |buf|
      {
        var i := Newline(buf);
        if i == |buf| {
          break;
        }
        var line := buf[..i + 1];
        ghost var lines := FullLines(buf);
        assert lines == [line] + FullLines(buf[i + 1..]);
        buf := buf[i + 1..];
        out := out + [prefix + line];
        assert lines[1..] == FullLines(buf);
      }
      n := |p|;
    }

    /** Passes on a buffered partial line, completed with a newline. */
    method Flush()
      modifies this
      ensures buf == []
      ensures out == if old(buf) == [] then old(out) else old(out) + [prefix + old(buf) + ['\n']]
    {
      if |buf| > 0 {
        out := out + [prefix + (buf + ['\n'])];
        assert prefix + (buf + ['\n']) == prefix + buf + ['\n'];
        buf := [];
      }
    }
  }

  // ---- Any split equals the batch ----------------------------------------------

  /** The writer after a sequence of writes, starting empty. */
  datatype Written = Written(out: seq<Bytes>, buf: Bytes)

  function AfterWrite(prefix: Bytes, w: Written, p: Bytes): Written {
    Written(w.out + Prefixed(prefix, FullLines(w.buf + p)), Rest(w.buf + p))
  }

  function AfterWrites(prefix: Bytes, chunks: seq<Bytes>): Written {
    if chunks == [] then Written([], [])
    else AfterWrite(prefix, AfterWrites(prefix, chunks[..|chunks| - 1]), Last(chunks))
  }

  function Flushed(prefix: Bytes, w: Written): seq<Bytes> {
    if w.buf == [] then w.out else w.out + [prefix + w.buf + ['\n']]
  }

  /** Byte by byte: the prefix goes in front of the first byte and of every byte after a newline. */
  function Marked(prefix: Bytes, s: Bytes, lineStart: bool): Bytes {
    if s == [] then []
    else (if lineStart then prefix else []) + [s[0]] + Marked(prefix, s[1..], s[0] == '\n')
  }

  /** The batch reading of the whole stream: every line prefixed, an unfinished last line finished. */
  function Batch(prefix: Bytes, s: Bytes): Bytes {
    Marked(prefix, s, true) + Ending(s)
  }

  function Ending(s: Bytes): Bytes {
    if s != [] && Last(s) != '\n' then ['\n'] else []
  }

  lemma {:induction false} WritesAreLines(prefix: Bytes, chunks: seq<Bytes>)
    ensures AfterWrites(prefix, chunks) == Written(Prefixed(prefix, FullLines(Concat(chunks))), Rest(Concat(chunks)))
  {
    if chunks != [] {
      var front := chunks[..|chunks| - 1];
      WritesAreLines(prefix, front);
      LinesAppend(Concat(front), Last(chunks));
      PrefixedAppend(prefix, FullLines(Concat(front)), FullLines(Rest(Concat(front)) + Last(chunks)));
    }
  }

  /** Within one line there is nothing to mark but its start. */
  lemma {:induction false} MarkedLine(prefix: Bytes, line: Bytes, s: Bytes, lineStart: bool)
    requires forall k :: 0 <= k < |line| - 1 ==> line[k] != '\n'
    ensures line != [] ==>
              Marked(prefix, line + s, lineStart) ==
              (if lineStart then prefix else []) + line + Marked(prefix, s, Last(line) == '\n')
  {
    if |line| > 1 {
      assert (line + s)[1..] == line[1..] + s;
      MarkedLine(prefix, line[1..], s, false);
      assert Marked(prefix, line + s, lineStart) ==
             (if lineStart then prefix else []) + [line[0]] + ([] + line[1..] + Marked(prefix, s, Last(line) == '\n'));
      assert line == [line[0]] + line[1..];
    } else if |line| == 1 {
      assert line + s == [line[0]] + s;
    }
  }

  function FlushedLines(prefix: Bytes, s: Bytes): seq<Bytes> {
    Flushed(prefix, Written(Prefixed(prefix, FullLines(s)), Rest(s)))
  }

  /** The stream starts with this complete line. */
  ghost predicate Line(line: Bytes) {
    line != [] && Newline(line) == |line| - 1
  }

  lemma FirstLine(line: Bytes, rest: Bytes)
    requires Line(line)
    ensures FullLines(line + rest) == [line] + FullLines(rest) && Rest(line + rest) == Rest(rest)
  {
    var s := line + rest;
    NewlineAppend(line, rest);
    assert s[..|line|] == line && s[|line|..] == rest;
  }

  lemma PrefixedFirst(prefix: Bytes, line: Bytes, lines: seq<Bytes>)
    ensures Prefixed(prefix, [line] + lines) == [prefix + line] + Prefixed(prefix, lines)
  {
    assert ([line] + lines)[1..] == lines;
  }

  lemma FirstLineFlushed(prefix: Bytes, line: Bytes, rest: Bytes)
    requires Line(line)
    ensures FlushedLines(prefix, line + rest) == [prefix + line] + FlushedLines(prefix, rest)
  {
    FirstLine(line, rest);
    PrefixedFirst(prefix, line, FullLines(rest));
  }

  lemma FirstLineMarked(prefix: Bytes, line: Bytes, rest: Bytes)
    requires Line(line)
    ensures Batch(prefix, line + rest) == (prefix + line) + Batch(prefix, rest)
  {
    MarkedLine(prefix, line, rest, true);
    EndingOfRest(line, rest);
    var marked, ending := Marked(prefix, rest, true), Ending(rest);
    assert (prefix + line + marked) + ending == (prefix + line) + (marked + ending);
  }

  lemma EndingOfRest(line: Bytes, rest: Bytes)
    requires Line(line)
    ensures Ending(line + rest) == Ending(rest)
  {
    if rest == [] {
      assert line + rest == line;
    } else {
      assert Last(line + rest) == Last(rest);
    }
  }

  lemma PartialLineMarked(prefix: Bytes, s: Bytes)
    requires Newline(s) == |s|
    ensures Concat(FlushedLines(prefix, s)) == Batch(prefix, s)
  {
    if s != [] {
      MarkedLine(prefix, s, [], true);
      assert s + [] == s;
      var last := prefix + s + ['\n'];
      assert FlushedLines(prefix, s) == [last] && [last][..0] == [];
    }
  }

  lemma {:induction false} LinesAreMarked(prefix: Bytes, s: Bytes)
    ensures Concat(FlushedLines(prefix, s)) == Batch(prefix, s)
    decreases |s|
  {
    var i := Newline(s);
    if i == |s| {
      PartialLineMarked(prefix, s);
    } else {
      var line, rest := TakeLine(s);
      LinesAreMarked(prefix, rest);
      FirstLineFlushed(prefix, line, rest);
      FirstLineMarked(prefix, line, rest);
      ConcatAppend([prefix + line], FlushedLines(prefix, rest));
      ConcatOne(prefix + line);
    }
  }

  lemma TakeLine(s: Bytes) returns (line: Bytes, rest: Bytes)
    requires Newline(s) < |s|
    ensures Line(line) && s == line + rest
  {
    line, rest := s[..Newline(s) + 1], s[Newline(s) + 1..];
    assert s == line + rest;
    NewlineAppend(line, rest);
  }

  /** However the stream is split into writes, after the flush the output is the batch reading of the whole stream. */
  lemma ChunkingIrrelevant(prefix: Bytes, chunks: seq<Bytes>)
    ensures Concat(Flushed(prefix, AfterWrites(prefix, chunks))) == Batch(prefix, Concat(chunks))
  {
    WritesAreLines(prefix, chunks);
    LinesAreMarked(prefix, Concat(chunks));
  }

  /** One prefixed line: the prefix, then bytes without a newline, then a newline. */
  ghost predicate WholeLine(prefix: Bytes, w: Bytes) {
    && |w| > |prefix| && prefix <= w && Last(w) == '\n'
    && forall k :: |prefix| <= k < |w| - 1 ==> w[k] != '\n'
  }

  lemma {:induction false} LinesAreWhole(prefix: Bytes, s: Bytes)
    ensures forall w :: w in Prefixed(prefix, FullLines(s)) ==> WholeLine(prefix, w)
    ensures forall k :: 0 <= k < |Rest(s)| ==> Rest(s)[k] != '\n'
  {
    var i := Newline(s);
    if i < |s| {
      LinesAreWhole(prefix, s[i + 1..]);
      var lines := FullLines(s);
      assert lines[0] == s[..i + 1] && lines[1..] == FullLines(s[i + 1..]);
      assert WholeLine(prefix, prefix + lines[0]);
    }
  }

  /** Every write to the underlying writer, the flush's included, is one whole prefixed line. */
  lemma WritesAreWholeLines(prefix: Bytes, chunks: seq<Bytes>)
    ensures forall w :: w in Flushed(prefix, AfterWrites(prefix, chunks)) ==> WholeLine(prefix, w)
  {
    WritesAreLines(prefix, chunks);
    LinesAreWhole(prefix, Concat(chunks));
    var rest := Rest(Concat(chunks));
    if rest != [] {
      assert WholeLine(prefix, prefix + rest + ['\n']);
    }
  }
}
