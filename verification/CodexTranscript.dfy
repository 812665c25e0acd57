/**
 The Codex rollout adapter: a resumable parser of an append-only rollout that may be killed at any write.
 `Committed` is the reference, one clean pass; `DerivedTranscript` the adapter with its two files, proved
 to leave them as `Committed` says whatever the read sizes, the append schedule and the crash points.
 */
module CodexTranscript {
  import opened Basics
  import opened Lines

  type bytes = seq<byte>

  const CHUNK: nat := 1024 * 1024
  const MAX_LINE: nat := 4 * CHUNK

  /**
   The parser state after one record, and its rendered rows, or None when the record threw.  The normalizer
   may throw after it changed the parser state.
   */
  datatype Folded<P> = Folded(parser: P, rows: Option<seq<bytes>>)

  /** Parsing JSON, validating UTF-8 and normalizing a record are parameters. */
  datatype Engine<!P> = Engine(start: P, validUtf8: bytes -> bool, normalize: (bytes, nat, P) -> Folded<P>)

  /** What the complete lines read so far have produced. */
  datatype Acc<P> = Acc(parser: P, malformed: nat, out: bytes)

  /** `rows.join('\n')`. */
  function Join(rows: seq<bytes>): bytes
  {
    if rows == [] then [] else if |rows| == 1 then rows[0] else rows[0] + [NEWLINE] + Join(rows[1..])
  }

  /** Every row followed by a newline. */
  function Render(rows: seq<bytes>): bytes
  {
    if rows == [] then [] else rows[0] + [NEWLINE] + Render(rows[1..])
  }

  lemma {:induction false} JoinIsRender(rows: seq<bytes>)
    requires rows != []
    ensures Join(rows) + [NEWLINE] == Render(rows)
    decreases |rows|
  {
    if |rows| == 1 {
      assert Render(rows[1..]) == [];
    } else {
      JoinIsRender(rows[1..]);
      assert rows[0] + [NEWLINE] + Join(rows[1..]) + [NEWLINE] == rows[0] + [NEWLINE] + (Join(rows[1..]) + [NEWLINE]);
    }
  }

  lemma {:induction false} RenderAppends(a: seq<bytes>, b: seq<bytes>)
    ensures Render(a + b) == Render(a) + Render(b)
    decreases |a|
  {
    if a == [] {
      assert a + b == b;
    } else {
      RenderAppends(a[1..], b);
      assert (a + b)[1..] == a[1..] + b;
    }
  }

  lemma RenderOnto(out: bytes, a: seq<bytes>, b: seq<bytes>)
    ensures out + Render(a) + Render(b) == out + Render(a + b)
  {
    RenderAppends(a, b);
  }

  /** One complete line: overlong, not UTF-8 and throwing lines are counted and yield no row. */
  function FoldLine<P>(e: Engine<P>, acc: Acc<P>, line: bytes, pos: nat): Acc<P>
  {
    if |line| > MAX_LINE || !e.validUtf8(line) then acc.(malformed := acc.malformed + 1)
    else
      match e.normalize(line, pos, acc.parser)
      case Folded(p, None) => Acc(p, acc.malformed + 1, acc.out)
      case Folded(p, Some(rows)) => Acc(p, acc.malformed, acc.out + Render(rows))
  }

  function LineStep<P>(e: Engine<P>): Step<Acc<P>>
  {
    (acc: Acc<P>, line: bytes, pos: nat) => FoldLine(e, acc, line, pos)
  }

  function Complete<P>(e: Engine<P>, src: bytes): Acc<P>
  {
    FoldLines(LineStep(e), Acc(e.start, 0, []), 0, src)
  }

  /** The persisted part of a pass. */
  datatype Commit<P> = Commit(offset: nat, discarding: bool, parser: P, malformed: nat, out: bytes)

  /** One clean pass: the complete lines, and an unterminated tail already too long given up. */
  function Committed<P>(e: Engine<P>, src: bytes): (c: Commit<P>)
    ensures c.offset <= |src|
  {
    var acc, t := Complete(e, src), TailStart(src);
    if |src| - t > MAX_LINE then Commit(|src|, true, acc.parser, acc.malformed + 1, acc.out)
    else Commit(t, false, acc.parser, acc.malformed, acc.out)
  }

  /** A tail that is already a whole record: its rows are shown, and nothing of it is committed. */
  function Preview<P>(e: Engine<P>, src: bytes): Option<(P, seq<bytes>)>
  {
    var c := Committed(e, src);
    var tail := src[c.offset..];
    if tail == [] || !e.validUtf8(tail) then None
    else
      match e.normalize(tail, c.offset, c.parser)
      case Folded(_, None) => None
      case Folded(p, Some(rows)) => Some((p, rows))
  }

  function PreviewRows<P>(e: Engine<P>, src: bytes): bytes
  {
    match Preview(e, src) case None => [] case Some(pair) => Render(pair.1)
  }

  /** The transcript a finished run leaves. */
  function Transcript<P>(e: Engine<P>, src: bytes): bytes
  {
    Committed(e, src).out + PreviewRows(e, src)
  }

  // ---------- the reference pass, and what it says ----------

  /** `Committed` folds the lines of the whole rollout, cut at its newlines, from first to last. */
  lemma CommittedIsOnePass<P>(e: Engine<P>, src: bytes)
    ensures var acc := FoldSegments(LineStep(e), Acc(e.start, 0, []), 0, CompleteLines(src));
            var c := Committed(e, src);
            && (c.parser, c.out) == (acc.parser, acc.out)
            && c.malformed == acc.malformed + (if c.discarding then 1 else 0)
  {
    FoldLinesIsFoldSegments(LineStep(e), Acc(e.start, 0, []), 0, src);
  }

  function CountOverlong(lines: seq<bytes>): nat
  {
    if lines == [] then 0 else (if |lines[0]| > MAX_LINE then 1 else 0) + CountOverlong(lines[1..])
  }

  /** The same fold over the lines that are not overlong; positions stay those of the file. */
  function FoldShort<P>(e: Engine<P>, acc: Acc<P>, base: nat, lines: seq<bytes>): Acc<P>
    decreases |lines|
  {
    if lines == [] then acc
    else
      var next := if |lines[0]| > MAX_LINE then acc else FoldLine(e, acc, lines[0], base);
      FoldShort(e, next, base + |lines[0]| + 1, lines[1..])
  }

  lemma {:induction false} FoldShortShiftsMalformed<P>(e: Engine<P>, acc: Acc<P>, more: nat, base: nat, lines: seq<bytes>)
    ensures var r := FoldShort(e, acc, base, lines);
            FoldShort(e, acc.(malformed := acc.malformed + more), base, lines) == r.(malformed := r.malformed + more)
    decreases |lines|
  {
    if lines != [] {
      var next := if |lines[0]| > MAX_LINE then acc else FoldLine(e, acc, lines[0], base);
      FoldShortShiftsMalformed(e, next, more, base + |lines[0]| + 1, lines[1..]);
    }
  }

  lemma {:induction false} OverlongSegments<P>(e: Engine<P>, acc: Acc<P>, base: nat, lines: seq<bytes>)
    ensures var r := FoldShort(e, acc, base, lines);
            FoldSegments(LineStep(e), acc, base, lines) == r.(malformed := r.malformed + CountOverlong(lines))
    decreases |lines|
  {
    if lines != [] {
      var next := FoldLine(e, acc, lines[0], base);
      OverlongSegments(e, next, base + |lines[0]| + 1, lines[1..]);
      if |lines[0]| > MAX_LINE {
        FoldShortShiftsMalformed(e, acc, 1, base + |lines[0]| + 1, lines[1..]);
      }
    }
  }

  lemma {:induction false} CountOverlongSnoc(lines: seq<bytes>, last: bytes)
    ensures CountOverlong(lines + [last]) == CountOverlong(lines) + (if |last| > MAX_LINE then 1 else 0)
    decreases |lines|
  {
    if lines == [] {
      assert lines + [last] == [last];
      assert [last][1..] == [];
    } else {
      CountOverlongSnoc(lines[1..], last);
      assert (lines + [last])[1..] == lines[1..] + [last];
    }
  }

  /**
   Every line longer than MAX_LINE, the unterminated one included, is counted malformed exactly once
   and has no other effect: parser state and rows are those of the pass that skips it.
   */
  lemma OverlongCountedOnce<P>(e: Engine<P>, src: bytes)
    ensures var c := Committed(e, src);
            var short := FoldShort(e, Acc(e.start, 0, []), 0, CompleteLines(src));
            && (c.parser, c.out) == (short.parser, short.out)
            && c.malformed == short.malformed + CountOverlong(CompleteLines(src) + [Tail(src)])
  {
    CommittedIsOnePass(e, src);
    OverlongSegments(e, Acc(e.start, 0, []), 0, CompleteLines(src));
    CountOverlongSnoc(CompleteLines(src), Tail(src));
  }

  /** Reading further only adds rows. */
  lemma {:induction false} RowsOnlyGrow<P>(e: Engine<P>, src: bytes, n: nat)
    requires n <= |src|
    ensures Complete(e, src[..n]).out <= Complete(e, src).out
    decreases |src|
  {
    if n == |src| {
      assert src[..n] == src;
    } else {
      var p := src[..|src| - 1];
      RowsOnlyGrow(e, p, n);
      assert p[..n] == src[..n];
    }
  }

  // ---------- what one line does ----------

  /** Short enough and UTF-8. */
  predicate Readable<P>(e: Engine<P>, line: bytes)
  {
    |line| <= MAX_LINE && e.validUtf8(line)
  }

  /** Where line `i` begins in the file. */
  function Offset(lines: seq<bytes>, i: nat): nat
    requires i <= |lines|
  {
    |Unlines(lines[..i])|
  }

  /** Line `i` meets the parser state the lines before it left, and leaves its own; one that cannot be read is passed by. */
  ghost predicate Taken<P>(e: Engine<P>, lines: seq<bytes>, ps: seq<P>, rows: seq<Option<seq<bytes>>>, i: nat)
    requires i < |lines| == |rows| && |ps| == |lines| + 1
  {
    if Readable(e, lines[i]) then Folded(ps[i + 1], rows[i]) == e.normalize(lines[i], Offset(lines, i), ps[i])
    else ps[i + 1] == ps[i] && rows[i] == None
  }

  ghost predicate InTurn<P>(e: Engine<P>, lines: seq<bytes>, ps: seq<P>, rows: seq<Option<seq<bytes>>>)
  {
    && |ps| == |lines| + 1 && |rows| == |lines| && ps[0] == e.start
    && forall i | 0 <= i < |lines| :: Taken(e, lines, ps, rows, i)
  }

  /** The lines that yielded no rows: overlong, not UTF-8, or thrown at. */
  ghost function Failures(rows: seq<Option<seq<bytes>>>): set<nat>
  {
    set i: nat | i < |rows| && rows[i].None?
  }

  /** All rows, line after line. */
  function Shown(rows: seq<Option<seq<bytes>>>): seq<bytes>
  {
    if rows == [] then []
    else
      var last := rows[|rows| - 1];
      Shown(rows[..|rows| - 1]) + (if last.Some? then last.value else [])
  }

  lemma OneMoreTaken<P>(e: Engine<P>, lines: seq<bytes>, ps: seq<P>, rows: seq<Option<seq<bytes>>>,
                        line: bytes, p: P, r: Option<seq<bytes>>)
    requires InTurn(e, lines, ps, rows)
    requires if Readable(e, line) then Folded(p, r) == e.normalize(line, |Unlines(lines)|, ps[|lines|]) else p == ps[|lines|] && r == None
    ensures InTurn(e, lines + [line], ps + [p], rows + [r])
  {
    var more, ps', rows' := lines + [line], ps + [p], rows + [r];
    forall i | 0 <= i < |more| ensures Taken(e, more, ps', rows', i) {
      if i < |lines| {
        assert more[..i] == lines[..i];
        assert Taken(e, lines, ps, rows, i);
      } else {
        assert more[..i] == lines;
      }
    }
  }

  lemma OneMoreShown(rows: seq<Option<seq<bytes>>>, r: Option<seq<bytes>>)
    ensures Render(Shown(rows + [r])) == Render(Shown(rows)) + (if r.Some? then Render(r.value) else [])
    ensures |Failures(rows + [r])| == |Failures(rows)| + (if r.None? then 1 else 0)
  {
    assert (rows + [r])[..|rows|] == rows;
    if r.Some? {
      RenderAppends(Shown(rows), r.value);
      assert Failures(rows + [r]) == Failures(rows);
    } else {
      assert Shown(rows) + [] == Shown(rows);
      assert Failures(rows + [r]) == Failures(rows) + {|rows|};
    }
  }

  lemma {:induction false} CompleteInTurn<P>(e: Engine<P>, src: bytes) returns (ps: seq<P>, rows: seq<Option<seq<bytes>>>)
    ensures InTurn(e, CompleteLines(src), ps, rows)
    ensures Complete(e, src) == Acc(ps[|ps| - 1], |Failures(rows)|, Render(Shown(rows)))
    decreases |src|
  {
    if src == [] {
      ps, rows := [e.start], [];
      assert Failures(rows) == {};
    } else {
      var front := src[..|src| - 1];
      ps, rows := CompleteInTurn(e, front);
      if src[|src| - 1] == NEWLINE {
        var line, last := Tail(front), ps[|ps| - 1];
        OffsetOfTail(front);
        var f := if Readable(e, line) then e.normalize(line, TailStart(front), last) else Folded(last, None);
        OneMoreTaken(e, CompleteLines(front), ps, rows, line, f.parser, f.rows);
        OneMoreShown(rows, f.rows);
        ps, rows := ps + [f.parser], rows + [f.rows];
      }
    }
  }

  /**
   What one pass over a rollout comes to, line by line.  The parser goes from line to line through those that
   can be read; the transcript has the rows of those that did not throw, in their order; every other line is
   counted, and so is a tail that is too long.  The preview is the tail, met with the parser the lines left.
   */
  lemma EveryLineInTurn<P>(e: Engine<P>, src: bytes) returns (ps: seq<P>, rows: seq<Option<seq<bytes>>>)
    ensures InTurn(e, CompleteLines(src), ps, rows)
    ensures var c, tail, last := Committed(e, src), Tail(src), ps[|ps| - 1];
            && c.parser == last && c.out == Render(Shown(rows))
            && c.malformed == |Failures(rows)| + (if |tail| > MAX_LINE then 1 else 0)
            && (c.discarding <==> |tail| > MAX_LINE)
            && c.offset == (if |tail| > MAX_LINE then |src| else |src| - |tail|)
            && (if tail == [] || !Readable(e, tail) then Preview(e, src) == None
                else var f := e.normalize(tail, |src| - |tail|, last);
                     Preview(e, src) == match f.rows case None => None case Some(shown) => Some((f.parser, shown)))
  {
    ps, rows := CompleteInTurn(e, src);
  }

  // ---------- the adapter ----------

  /** cursor.json.  The anchor is a hash of the bytes before the offset, kept here as those bytes. */
  datatype Cursor<P> = Cursor(
    ino: int, offset: nat, sourceSize: nat, mtime: int, outputBytes: nat, anchor: bytes,
    parser: P, malformed: nat, discarding: bool, preview: Option<P>)

  /** What happens: the rollout grows (or is only touched), its transcript is asked for, or that file is removed. */
  datatype Event = Grow(more: bytes, mtime: int) | Call | Remove

  function SourceAfter(src: bytes, events: seq<Event>): bytes
    decreases |events|
  {
    if events == [] then src
    else SourceAfter(match events[0] case Grow(more, _) => src + more case _ => src, events[1..])
  }

  function Initial<P>(e: Engine<P>, ino: int): Cursor<P>
  {
    Cursor(ino, 0, 0, 0, 0, [], e.start, 0, false, None)
  }

  function Anchor(src: bytes, offset: nat): bytes
    requires offset <= |src|
  {
    src[offset - Min(256, offset)..offset]
  }

  /** Growth leaves the bytes before an offset alone. */
  lemma AnchorStays(src: bytes, n: nat, offset: nat)
    ensures offset <= n <= |src| ==> Anchor(src[..n], offset) == Anchor(src, offset)
  {
  }

  /** The cursor's parser side is that of a clean pass over `src`. */
  ghost predicate At<P>(e: Engine<P>, c: Cursor<P>, src: bytes)
  {
    var k := Committed(e, src);
    (c.offset, c.discarding, c.parser, c.malformed) == (k.offset, k.discarding, k.parser, k.malformed)
  }

  /** The cursor as a run finished on `src` persists it. */
  ghost predicate Records<P>(e: Engine<P>, c: Cursor<P>, src: bytes)
  {
    && At(e, c, src)
    && c.sourceSize == |src|
    && c.outputBytes == |Committed(e, src).out|
    && c.anchor == Anchor(src, c.offset)
    && c.preview == (match Preview(e, src) case None => None case Some(pair) => Some(pair.0))
  }

  /** `truncateSync`: cut, or pad with zero bytes when the file is shorter. */
  function Truncate(s: bytes, n: nat): (r: bytes)
    ensures |r| == n
    ensures n <= |s| ==> r == s[..n]
  {
    if n <= |s| then s[..n] else s + seq(n - |s|, _ => 0)
  }

  /** Cutting or padding to `ob` bytes what agrees with a text free of zero bytes, and going on from there. */
  lemma PaddingShows(o: bytes, full: bytes, ob: nat)
    requires ob <= |full| && 0 !in full && o[..Min(|o|, ob)] <= full
    ensures Truncate(o, ob) + full[ob..] == full <==> ob <= |o|
  {
    if ob <= |o| {
      assert full == full[..ob] + full[ob..];
    } else {
      assert (Truncate(o, ob) + full[ob..])[|o|] == 0;
      assert full[|o|] in full;
    }
  }

  ghost predicate NoZero(rows: seq<bytes>)
  {
    forall r | r in rows :: 0 !in r
  }

  /** Rendered rows are JSON text, which holds no zero byte. */
  ghost predicate PlainRows<P(!new)>(e: Engine<P>)
  {
    forall line, pos, p :: match e.normalize(line, pos, p).rows case None => true case Some(rows) => NoZero(rows)
  }

  lemma {:induction false} RenderHasNoZero(rows: seq<bytes>)
    requires NoZero(rows)
    ensures 0 !in Render(rows)
    decreases |rows|
  {
    if rows != [] {
      RenderHasNoZero(rows[1..]);
      assert rows[0] in rows;
    }
  }

  lemma FoldHasNoZero<P(!new)>(e: Engine<P>, acc: Acc<P>, line: bytes, pos: nat)
    requires PlainRows(e) && 0 !in acc.out
    ensures 0 !in FoldLine(e, acc, line, pos).out
  {
    var f := e.normalize(line, pos, acc.parser);
    if f.rows.Some? {
      assert NoZero(f.rows.value);
      RenderHasNoZero(f.rows.value);
    }
  }

  lemma {:induction false} CompleteHasNoZero<P(!new)>(e: Engine<P>, src: bytes)
    requires PlainRows(e)
    ensures 0 !in Complete(e, src).out
    decreases |src|
  {
    if src != [] {
      var p := src[..|src| - 1];
      CompleteHasNoZero(e, p);
      FoldHasNoZero(e, Complete(e, p), Tail(p), TailStart(p));
    }
  }

  lemma TranscriptHasNoZero<P(!new)>(e: Engine<P>, src: bytes)
    requires PlainRows(e)
    ensures 0 !in Transcript(e, src)
  {
    CompleteHasNoZero(e, src);
    if Preview(e, src).Some? {
      var c := Committed(e, src);
      var rows := e.normalize(src[c.offset..], c.offset, c.parser).rows.value;
      assert NoZero(rows);
      RenderHasNoZero(rows);
    }
  }

  /** Where the inner loop stands: all of `src[..p]` is consumed, `p` a line start unless discarding. */
  ghost predicate Consumed<P>(e: Engine<P>, c: Cursor<P>, out: bytes, src: bytes, p: nat)
    requires p <= |src|
  {
    var acc, t := Complete(e, src[..p]), TailStart(src[..p]);
    && c.offset == p
    && c.parser == acc.parser
    && out == acc.out
    && if c.discarding then c.malformed == acc.malformed + 1 && p - t > MAX_LINE
       else c.malformed == acc.malformed && t == p
  }

  /** Between two reads: the carry is what follows the cursor, and the cursor is a clean pass's. */
  ghost predicate BetweenReads<P>(e: Engine<P>, c: Cursor<P>, carry: bytes, src: bytes, readAt: nat)
    requires readAt <= |src|
  {
    && At(e, c, src[..readAt])
    && c.offset <= readAt
    && carry == src[c.offset..readAt]
  }

  /** A cursor found on disk is a clean pass's over what it has consumed. */
  lemma ResumePoint<P>(e: Engine<P>, c: Cursor<P>, src: bytes, n: nat)
    requires n <= |src| && At(e, c, src[..n])
    ensures c.offset <= n && BetweenReads(e, c, [], src, c.offset)
    ensures Committed(e, src[..c.offset]).out == Committed(e, src[..n]).out
  {
    if c.discarding {
      assert c.offset == n;
    } else {
      assert src[..n][..c.offset] == src[..c.offset];
      FoldWithoutNewline(LineStep(e), Acc(e.start, 0, []), 0, src[..n], c.offset);
    }
  }

  /** The line that starts where everything before it is consumed. */
  lemma LineConsumed<P>(e: Engine<P>, c: Cursor<P>, out: bytes, src: bytes, end: nat)
    requires c.offset <= end < |src| && src[end] == NEWLINE && NoNewline(src, c.offset, end)
    requires Consumed(e, c, out, src, c.offset)
    ensures var p := c.offset;
            var next := Complete(e, src[..end + 1]);
            && TailStart(src[..end + 1]) == end + 1
            && (!c.discarding ==> next == FoldLine(e, Acc(c.parser, c.malformed, out), src[p..end], p))
            && (c.discarding ==> next == Acc(c.parser, c.malformed, out))
  {
    var p := c.offset;
    var t := TailStart(src[..p]);
    assert src[..p][..t] == src[..t];
    assert src[..p][t..] == src[t..p];
    FoldWithoutNewline(LineStep(e), Acc(e.start, 0, []), 0, src[..p], t);
    assert src[t..end] == src[t..p] + src[p..end];
    FoldOneMore(LineStep(e), Acc(e.start, 0, []), src, t, end);
  }

  /** No newline left before `readAt`: the unread rest is the carry, or too long and given up. */
  lemma RestConsumed<P>(e: Engine<P>, c: Cursor<P>, out: bytes, src: bytes, readAt: nat)
    requires c.offset <= readAt <= |src| && NoNewline(src, c.offset, readAt)
    requires Consumed(e, c, out, src, c.offset)
    ensures var k := Committed(e, src[..readAt]);
            var rest := readAt - c.offset;
            && k.out == out && k.parser == c.parser
            && if c.discarding || rest > MAX_LINE
               then k.offset == readAt && k.discarding && k.malformed == c.malformed + (if c.discarding then 0 else 1)
               else k.offset == c.offset && !k.discarding && k.malformed == c.malformed
  {
    var p := c.offset;
    var u := src[..readAt];
    assert u[..p] == src[..p];
    assert u[p..] == src[p..readAt];
    FoldWithoutNewline(LineStep(e), Acc(e.start, 0, []), 0, u, p);
  }

  lemma Subrange(s: bytes, lo: nat, hi: nat, i: nat, j: nat)
    requires lo <= hi <= |s| && i <= j <= hi - lo
    ensures s[lo..hi][i..j] == s[lo + i..lo + j]
  {
    var a, b := s[lo..hi][i..j], s[lo + i..lo + j];
    assert forall k | 0 <= k < |a| :: a[k] == b[k];
  }

  /** How many bytes one read returns: at least one before the end of the file, at most what was asked. */
  method ReadSize(asked: nat) returns (n: nat)
    requires asked > 0
    ensures 1 <= n <= asked
  {
    n :| 1 <= n <= asked;
  }

  /** `carry.indexOf(10, start)`, the length standing for "none". */
  method FindNewline(s: bytes, start: nat) returns (k: nat)
    requires start <= |s|
    ensures start <= k <= |s| && NoNewline(s, start, k)
    ensures k < |s| ==> s[k] == NEWLINE
  {
    k := start;
    while k < |s| && s[k] != NEWLINE
      invariant start <= k <= |s| && NoNewline(s, start, k)
    {
      k := k + 1;
    }
  }

  /** One complete line of `src`, at the cursor: every branch it can take, and the rows it yields. */
  method TakeLine<P>(e: Engine<P>, c: Cursor<P>, line: bytes, ghost src: bytes, ghost out: bytes)
      returns (next: Cursor<P>, rows: seq<bytes>)
    requires c.offset + |line| < |src| && line == src[c.offset..c.offset + |line|]
    requires NoNewline(line, 0, |line|) && src[c.offset + |line|] == NEWLINE
    requires Consumed(e, c, out, src, c.offset)
    ensures next.offset == c.offset + |line| + 1
    ensures Consumed(e, next, out + Render(rows), src, next.offset)
    ensures (next.ino, next.outputBytes) == (c.ino, c.outputBytes)
  {
    LineConsumed(e, c, out, src, c.offset + |line|);
    assert out + Render([]) == out;
    next, rows := c.(offset := c.offset + |line| + 1), [];
    if c.discarding {
      next := next.(discarding := false);
    } else if |line| > MAX_LINE {
      next := next.(malformed := c.malformed + 1);
    } else if !e.validUtf8(line) {
      next := next.(malformed := c.malformed + 1);
    } else {
      match e.normalize(line, c.offset, c.parser)
      case Folded(p, None) =>
        next := next.(parser := p, malformed := c.malformed + 1);
      case Folded(p, Some(more)) =>
        next := next.(parser := p);
        rows := more;
    }
  }

  /** `full` is the carry and the new chunk, the bytes of `src` from `base`; its next line ends at `end`. */
  method TakeNext<P>(e: Engine<P>, c: Cursor<P>, full: bytes, start: nat, end: nat, rows: seq<bytes>,
                     ghost src: bytes, ghost base: nat, ghost out0: bytes)
      returns (next: Cursor<P>, rows': seq<bytes>)
    requires start <= end < |full| && full[end] == NEWLINE && NoNewline(full, start, end)
    requires base + |full| <= |src| && full == src[base..base + |full|]
    requires c.offset == base + start && Consumed(e, c, out0 + Render(rows), src, c.offset)
    ensures next.offset == base + end + 1
    ensures Consumed(e, next, out0 + Render(rows'), src, next.offset)
    ensures (next.ino, next.outputBytes) == (c.ino, c.outputBytes)
  {
    Subrange(src, base, base + |full|, start, end);
    var more;
    next, more := TakeLine(e, c, full[start..end], src, out0 + Render(rows));
    RenderOnto(out0, rows, more);
    rows' := rows + more;
  }

  /** The inner loop: take every complete line out of the buffer. */
  method TakeLines<P>(e: Engine<P>, c0: Cursor<P>, full: bytes, ghost src: bytes, ghost base: nat, ghost out0: bytes)
      returns (c: Cursor<P>, rows: seq<bytes>, start: nat)
    requires base + |full| <= |src| && full == src[base..base + |full|]
    requires c0.offset == base && Consumed(e, c0, out0, src, c0.offset)
    ensures start <= |full| && NoNewline(full, start, |full|) && c.offset == base + start
    ensures Consumed(e, c, out0 + Render(rows), src, c.offset)
    ensures (c.ino, c.outputBytes) == (c0.ino, c0.outputBytes)
  {
    c, rows, start := c0, [], 0;
    assert out0 + Render([]) == out0;
    var end := FindNewline(full, start);
    while end < |full|
      invariant start <= end <= |full| && NoNewline(full, start, end)
      invariant end < |full| ==> full[end] == NEWLINE
      invariant c.offset == base + start
      invariant Consumed(e, c, out0 + Render(rows), src, c.offset)
      invariant (c.ino, c.outputBytes) == (c0.ino, c0.outputBytes)
      decreases |full| - start
    {
      c, rows := TakeNext(e, c, full, start, end, rows, src, base, out0);
      start := end + 1;
      end := FindNewline(full, start);
    }
  }

  /** The transcript is what was kept and part of what a clean pass writes after it. */
  ghost predicate Torn(output: Option<bytes>, kept: bytes, full: bytes, from: nat)
  {
    exists m :: from <= m <= |full| && output == Some(kept + full[from..m])
  }

  lemma TornIsFront(output: Option<bytes>, full: bytes)
    requires Torn(output, [], full, 0)
    ensures output.Some? && output.value <= full
  {
    var m :| 0 <= m <= |full| && output == Some([] + full[0..m]);
    assert output.value == full[..m];
  }

  lemma FrontIsCommitted(o: bytes, out: bytes, rest: bytes, n: nat)
    requires n <= |out| && n <= |o| && o[..n] == out[..n]
    ensures o[..n] == (out + rest)[..n] && o[..n] + (out + rest)[n..] == out + rest
  {
    assert (out + rest)[..n] == out[..n];
  }

  lemma FrontOfFront(o: bytes, out: bytes, rest: bytes, n: nat)
    requires o <= out + rest && n <= |out|
    ensures o[..Min(|o|, n)] <= out
  {
    var k := Min(|o|, n);
    assert o[..k] == (out + rest)[..k] == out[..k];
  }

  lemma TailWritten(kept: bytes, full: bytes, rest: bytes, from: nat, m: nat)
    requires from <= |full| && m <= |rest|
    ensures (full + rest)[from..|full| + m] == full[from..] + rest[..m]
    ensures Torn(Some(kept + full[from..] + rest[..m]), kept, full + rest, from)
    ensures m == |rest| ==> kept + full[from..] + rest[..m] == kept + (full + rest)[from..]
  {
    assert kept + full[from..] + rest[..m] == kept + (full + rest)[from..|full| + m];
  }

  lemma TornLater(output: Option<bytes>, kept: bytes, full: bytes, rest: bytes, from: nat)
    requires Torn(output, kept, full, from)
    ensures Torn(output, kept, full + rest, from)
  {
    var m :| from <= m <= |full| && output == Some(kept + full[from..m]);
    assert (full + rest)[from..m] == full[from..m];
  }

  lemma StretchWritten(full: bytes, from: nat, upTo: nat, chunk: bytes, n: nat)
    requires from <= upTo <= |full| && n <= |chunk| && full[..upTo] + chunk <= full
    ensures upTo + |chunk| <= |full| && full[from..upTo] + chunk[..n] == full[from..upTo + n]
  {
    var a, b := full[from..upTo] + chunk[..n], full[from..upTo + n];
    forall k | 0 <= k < |a| ensures a[k] == b[k] {
      assert full[from + k] == (full[..upTo] + chunk)[from + k];
    }
  }

  lemma AtIgnoresOutput<P>(e: Engine<P>, c: Cursor<P>, carry: bytes, src: bytes, readAt: nat, n: nat)
    ensures readAt <= |src| && BetweenReads(e, c, carry, src, readAt) ==>
              BetweenReads(e, c.(outputBytes := n), carry, src, readAt)
  {
  }

  lemma GrowBuffer(src: bytes, from: nat, readAt: nat, n: nat)
    ensures from <= readAt && readAt + n <= |src| ==> src[from..readAt] + src[readAt..readAt + n] == src[from..readAt + n]
  {
  }

  lemma RestOfBuffer(src: bytes, base: nat, buffer: bytes, start: nat)
    requires base + |buffer| <= |src| && buffer == src[base..base + |buffer|]
    requires start <= |buffer| && NoNewline(buffer, start, |buffer|)
    ensures buffer[start..] == src[base + start..base + |buffer|] && NoNewline(buffer[start..], 0, |buffer| - start)
  {
    Subrange(src, base, base + |buffer|, start, |buffer|);
  }

  /** The rest of a chunk, when already too long, is dropped, and counted the first time. */
  method GiveUpOverlong<P>(e: Engine<P>, c0: Cursor<P>, carry0: bytes, ghost src: bytes, ghost readAt: nat, ghost out: bytes)
      returns (c: Cursor<P>, carry: bytes)
    requires c0.offset <= readAt <= |src| && carry0 == src[c0.offset..readAt] && NoNewline(carry0, 0, |carry0|)
    requires Consumed(e, c0, out, src, c0.offset)
    ensures BetweenReads(e, c, carry, src, readAt)
    ensures Committed(e, src[..readAt]).out == out
    ensures (c.ino, c.outputBytes) == (c0.ino, c0.outputBytes)
  {
    assert forall i | 0 <= i < |carry0| :: carry0[i] == src[c0.offset + i];
    RestConsumed(e, c0, out, src, readAt);
    c, carry := c0, carry0;
    if |carry| > MAX_LINE || c.discarding {
      if !c.discarding {
        c := c.(malformed := c.malformed + 1);
      }
      c := c.(discarding := true, offset := c.offset + |carry|);
      carry := [];
    }
  }

  /** What follows the last newline of a buffer that stands at `base`. */
  method TakeRest<P>(e: Engine<P>, c0: Cursor<P>, buffer: bytes, start: nat, ghost src: bytes, ghost base: nat, ghost out: bytes)
      returns (c: Cursor<P>, carry: bytes)
    requires base + |buffer| <= |src| && buffer == src[base..base + |buffer|]
    requires start <= |buffer| && NoNewline(buffer, start, |buffer|) && c0.offset == base + start
    requires Consumed(e, c0, out, src, c0.offset)
    ensures BetweenReads(e, c, carry, src, base + |buffer|)
    ensures Committed(e, src[..base + |buffer|]).out == out
    ensures (c.ino, c.outputBytes) == (c0.ino, c0.outputBytes)
  {
    RestOfBuffer(src, base, buffer, start);
    c, carry := GiveUpOverlong(e, c0, buffer[start..], src, base + |buffer|, out);
  }

  /** The lines of a buffer, then its rest. */
  method TakeChunk<P>(e: Engine<P>, c0: Cursor<P>, buffer: bytes, ghost src: bytes, ghost out: bytes)
      returns (c: Cursor<P>, carry: bytes, rows: seq<bytes>)
    requires c0.offset + |buffer| <= |src| && buffer == src[c0.offset..c0.offset + |buffer|]
    requires Consumed(e, c0, out, src, c0.offset)
    ensures BetweenReads(e, c, carry, src, c0.offset + |buffer|)
    ensures Committed(e, src[..c0.offset + |buffer|]).out == out + Render(rows)
    ensures (c.ino, c.outputBytes) == (c0.ino, c0.outputBytes)
  {
    var start;
    c, rows, start := TakeLines(e, c0, buffer, src, c0.offset, out);
    c, carry := TakeRest(e, c, buffer, start, src, c0.offset, out + Render(rows));
  }

  /** What two reads leave between them is what the inner loop starts from. */
  lemma StartOfChunk<P>(e: Engine<P>, c: Cursor<P>, src: bytes, readAt: nat)
    requires readAt <= |src| && At(e, c, src[..readAt])
    ensures c.offset <= readAt && Consumed(e, c, Committed(e, src[..readAt]).out, src, c.offset)
  {
    if !c.discarding {
      assert src[..readAt][..c.offset] == src[..c.offset];
      FoldWithoutNewline(LineStep(e), Acc(e.start, 0, []), 0, src[..readAt], c.offset);
    }
  }

  /** One read: the carry grows by `n` bytes, its complete lines are taken, and an overlong rest given up. */
  method ReadChunk<P>(e: Engine<P>, src: bytes, c0: Cursor<P>, carry0: bytes, readAt: nat, n: nat)
      returns (c: Cursor<P>, carry: bytes, rows: seq<bytes>)
    requires readAt + n <= |src| && BetweenReads(e, c0, carry0, src, readAt)
    ensures BetweenReads(e, c, carry, src, readAt + n)
    ensures Committed(e, src[..readAt + n]).out == Committed(e, src[..readAt]).out + Render(rows)
    ensures (c.ino, c.outputBytes) == (c0.ino, c0.outputBytes)
  {
    var buffer := carry0 + src[readAt..readAt + n];
    ghost var out := Committed(e, src[..readAt]).out;
    GrowBuffer(src, c0.offset, readAt, n);
    StartOfChunk(e, c0, src, readAt);
    c, carry, rows := TakeChunk(e, c0, buffer, src, out);
  }

  /** The derived transcript of one rollout: events.jsonl, cursor.json, and the process that writes them. */
  class DerivedTranscript<P(!new)> {
    const e: Engine<P>
    var output: Option<bytes>
    var saved: Option<Cursor<P>>

    constructor (e: Engine<P>)
      ensures this.e == e && output == None && saved == None
    {
      this.e := e;
      output, saved := None, None;
    }

    /** Nothing changed since the last finished run: its transcript is returned as it stands. */
    predicate Unchanged(src: bytes, mtime: int, ino: int)
      reads this
    {
      saved.Some? && output.Some? &&
      var c := saved.value;
      c.ino == ino && c.sourceSize == |src| && c.mtime == mtime
    }

    /** The run starts over: no cursor, or one that does not fit the rollout any more. */
    predicate Resets(src: bytes, mtime: int, ino: int)
      reads this
    {
      saved.None? ||
      var c := saved.value;
      || c.ino != ino
      || c.offset > |src|
      || (c.offset != 0 && c.anchor != Anchor(src, c.offset))
      || output.None?
      || (c.sourceSize == |src| && c.mtime != mtime)
    }

    /** The cursor on disk was left by a run over a prefix of this rollout. */
    ghost predicate OnTrack(src: bytes)
      reads this
    {
      saved.Some? ==> saved.value.sourceSize <= |src| && Records(e, saved.value, src[..saved.value.sourceSize])
    }

    /** The first `outputBytes` bytes of the transcript are the rendering of what the cursor covers. */
    ghost predicate Backed(src: bytes)
      reads this
    {
      OnTrack(src) && (saved.Some? && output.Some? ==>
        var c := saved.value;
        c.outputBytes <= |output.value| &&
        output.value[..c.outputBytes] == Committed(e, src[..c.sourceSize]).out)
    }

    /** A finished run's files: cursor, transcript and preview of one clean pass over `src`. */
    ghost predicate Clean(src: bytes)
      reads this
    {
      && saved.Some? && Records(e, saved.value, src)
      && output == Some(Transcript(e, src))
    }

    /** Append to the transcript, or die having written any part of the chunk. */
    method Append(chunk: bytes) returns (alive: bool, written: nat)
      requires output.Some?
      modifies this`output
      ensures written <= |chunk| && output == Some(old(output.value) + chunk[..written])
      ensures alive ==> written == |chunk|
    {
      alive, written := true, |chunk|;
      if * {
        alive := false;
        written :| 0 <= written <= |chunk|;
      }
      output := Some(output.value + chunk[..written]);
    }

    /**
     After reading up to `readAt`: the cursor is a clean pass's, and the transcript is `kept` and then
     what a clean pass renders from its byte `from` on.
     */
    ghost predicate Progress(src: bytes, c: Cursor<P>, carry: bytes, readAt: nat, kept: bytes, from: nat)
      reads this
    {
      var full := Committed(e, src).out;
      && readAt <= |src| && BetweenReads(e, c, carry, src, readAt)
      && from <= c.outputBytes <= |full|
      && full[..c.outputBytes] == Committed(e, src[..readAt]).out
      && output == Some(kept + full[from..c.outputBytes])
    }

    /** Write the rows of one chunk, if there are any. */
    method AppendRows(rows: seq<bytes>, ghost kept: bytes, ghost full: bytes, ghost from: nat, ghost upTo: nat)
        returns (grown: nat, alive: bool)
      requires from <= upTo <= |full| && output == Some(kept + full[from..upTo])
      requires full[..upTo] + Render(rows) <= full
      modifies this`output
      ensures grown == |Render(rows)| && upTo + grown <= |full|
      ensures alive ==> output == Some(kept + full[from..upTo + grown])
      ensures !alive ==> Torn(output, kept, full, from)
    {
      grown, alive := 0, true;
      if rows != [] {
        var chunk := Join(rows) + [NEWLINE];
        JoinIsRender(rows);
        grown := |chunk|;
        var written;
        alive, written := Append(chunk);
        StretchWritten(full, from, upTo, chunk, written);
        assert kept + full[from..upTo] + chunk[..written] == kept + full[from..upTo + written];
      }
    }

    /** One read, its lines, and their rows on disk. */
    method ReadOnce(src: bytes, c0: Cursor<P>, carry0: bytes, readAt0: nat, ghost kept: bytes, ghost from: nat)
        returns (c: Cursor<P>, carry: bytes, readAt: nat, alive: bool)
      requires readAt0 < |src| && Progress(src, c0, carry0, readAt0, kept, from)
      modifies this`output
      ensures c.ino == c0.ino && readAt > readAt0
      ensures alive ==> Progress(src, c, carry, readAt, kept, from)
      ensures !alive ==> Torn(output, kept, Committed(e, src).out, from)
    {
      ghost var full := Committed(e, src).out;
      var n := ReadSize(Min(CHUNK, |src| - readAt0));
      var rows, grown;
      c, carry, rows := ReadChunk(e, src, c0, carry0, readAt0, n);
      readAt := readAt0 + n;
      RowsOnlyGrow(e, src, readAt);
      grown, alive := AppendRows(rows, kept, full, from, c.outputBytes);
      AtIgnoresOutput(e, c, carry, src, readAt, c.outputBytes + grown);
      c := c.(outputBytes := c.outputBytes + grown);
    }

    /**
     The chunk loop over `src`, in reads of any size.  `kept` is the transcript when the loop starts and
     `from` the length of the rendering it stands for: the loop appends exactly what a clean pass renders
     after that, and stops inside it when it dies.
     */
    method ReadAll(src: bytes, c0: Cursor<P>, ghost kept: bytes, ghost from: nat)
        returns (c: Cursor<P>, carry: bytes, alive: bool)
      requires Progress(src, c0, [], c0.offset, kept, from)
      modifies this`output
      ensures c.ino == c0.ino
      ensures alive ==> Progress(src, c, carry, |src|, kept, from)
      ensures !alive ==> Torn(output, kept, Committed(e, src).out, from)
    {
      c, carry, alive := c0, [], true;
      var readAt := c0.offset;
      while readAt < |src|
        invariant Progress(src, c, carry, readAt, kept, from)
        invariant c.ino == c0.ino
        decreases |src| - readAt
      {
        c, carry, readAt, alive := ReadOnce(src, c, carry, readAt, kept, from);
        if !alive {
          return;
        }
      }
    }

    /** The tail, shown when it is a whole record; the cursor keeps its parser state aside. */
    method ShowTail(src: bytes, c0: Cursor<P>, carry: bytes, ghost kept: bytes, ghost from: nat)
        returns (c: Cursor<P>, alive: bool)
      requires Progress(src, c0, carry, |src|, kept, from)
      modifies this`output
      ensures c == c0.(preview := match Preview(e, src) case None => None case Some(pair) => Some(pair.0))
      ensures alive ==> output == Some(kept + Transcript(e, src)[from..])
      ensures !alive ==> Torn(output, kept, Transcript(e, src), from)
    {
      assert src[..|src|] == src;
      ghost var full, rest := Committed(e, src).out, PreviewRows(e, src);
      assert full[..c0.outputBytes] == full;
      assert full[from..c0.outputBytes] == full[from..];
      assert kept + full[from..] + [] == kept + full[from..];
      c, alive := c0.(preview := None), true;
      ghost var m := 0;
      if carry != [] && !c.discarding && e.validUtf8(carry) {
        match e.normalize(carry, c.offset, c.parser)
        case Folded(_, None) =>
        case Folded(p, Some(rows)) =>
          if rows != [] {
            JoinIsRender(rows);
            var written;
            alive, written := Append(Join(rows) + [NEWLINE]);
            m := written;
          }
          c := c.(preview := Some(p));
      }
      assert rest[..0] == [];
      assert output == Some(kept + full[from..] + rest[..m]);
      assert alive ==> rest[..m] == rest;
      TailWritten(kept, full, rest, from, m);
    }

    /** cursor.json, published by one rename after everything else. */
    method Publish(src: bytes, mtime: int, c: Cursor<P>)
      requires c.offset <= |src|
      modifies this`saved
      ensures saved == Some(c.(sourceSize := |src|, mtime := mtime, anchor := Anchor(src, c.offset)))
    {
      saved := Some(c.(sourceSize := |src|, mtime := mtime, anchor := Anchor(src, c.offset)));
    }

    /** The transcript the run builds on: what its cursor covers. */
    function Kept(src: bytes, mtime: int, ino: int): bytes
      reads this
    {
      if Resets(src, mtime, ino) then [] else Truncate(output.value, saved.value.outputBytes)
    }

    function KeptFor(src: bytes, mtime: int, ino: int): nat
      reads this
    {
      if Resets(src, mtime, ino) then 0 else saved.value.outputBytes
    }

    /** The cursor a run starts from. */
    method Start(src: bytes, mtime: int, ino: int) returns (c: Cursor<P>)
      requires Resets(src, mtime, ino) || OnTrack(src)
      ensures c.outputBytes == KeptFor(src, mtime, ino) && c.ino == ino
      ensures c.offset <= |src| && BetweenReads(e, c, [], src, c.offset)
      ensures c.outputBytes <= |Committed(e, src).out|
      ensures Committed(e, src).out[..c.outputBytes] == Committed(e, src[..c.offset]).out
    {
      if Resets(src, mtime, ino) {
        c := Initial(e, ino);
        assert src[..0] == [];
      } else {
        c := saved.value.(preview := None);
        ghost var n := saved.value.sourceSize;
        ResumePoint(e, c, src, n);
        RowsOnlyGrow(e, src, n);
      }
    }

    /** Choose the cursor and cut the transcript back to it, creating the file if need be. */
    method Rewind(src: bytes, mtime: int, ino: int) returns (c: Cursor<P>)
      requires Resets(src, mtime, ino) || OnTrack(src)
      modifies this`output
      ensures Progress(src, c, [], c.offset, old(Kept(src, mtime, ino)), old(KeptFor(src, mtime, ino)))
      ensures c.ino == ino
    {
      c := Start(src, mtime, ino);
      ghost var kept := Kept(src, mtime, ino);
      output := Some(if output.None? then [] else Truncate(output.value, c.outputBytes));
      ghost var full := Committed(e, src).out;
      assert kept + full[c.outputBytes..c.outputBytes] == kept;
    }

    /** Everything a run writes to the transcript. */
    method Write(src: bytes, c0: Cursor<P>, ghost kept: bytes, ghost from: nat) returns (c: Cursor<P>, alive: bool)
      requires Progress(src, c0, [], c0.offset, kept, from)
      modifies this`output
      ensures c.ino == c0.ino
      ensures alive ==> At(e, c, src) && c.offset <= |src| && c.outputBytes == |Committed(e, src).out|
      ensures alive ==> c.preview == match Preview(e, src) case None => None case Some(pair) => Some(pair.0)
      ensures alive ==> output == Some(kept + Transcript(e, src)[from..])
      ensures !alive ==> Torn(output, kept, Transcript(e, src), from)
    {
      var carry;
      c, carry, alive := ReadAll(src, c0, kept, from);
      if !alive {
        TornLater(output, kept, Committed(e, src).out, PreviewRows(e, src), from);
        return;
      }
      assert src[..|src|] == src;
      c, alive := ShowTail(src, c, carry, kept, from);
    }

    /** The cursor never counts more than a clean pass has rendered. */
    lemma CountsNoMore(src: bytes)
      requires OnTrack(src) && saved.Some?
      ensures saved.value.outputBytes <= |Committed(e, src).out|
      ensures Committed(e, src[..saved.value.sourceSize]).out == Committed(e, src).out[..saved.value.outputBytes]
    {
      RowsOnlyGrow(e, src, saved.value.sourceSize);
    }

    /** What a run keeps is the clean transcript's beginning, when it starts over or is backed. */
    lemma KeptIsClean(src: bytes, mtime: int, ino: int)
      requires Resets(src, mtime, ino) || OnTrack(src)
      ensures KeptFor(src, mtime, ino) <= |Committed(e, src).out| <= |Transcript(e, src)|
      ensures var from := KeptFor(src, mtime, ino);
              Resets(src, mtime, ino) || Backed(src) ==>
                Kept(src, mtime, ino) == Transcript(e, src)[..from] &&
                Kept(src, mtime, ino) + Transcript(e, src)[from..] == Transcript(e, src)
    {
      if !Resets(src, mtime, ino) {
        CountsNoMore(src);
        if Backed(src) {
          FrontIsCommitted(output.value, Committed(e, src).out, PreviewRows(e, src), saved.value.outputBytes);
        }
      } else {
        assert [] == Transcript(e, src)[..0];
      }
    }

    /** A call that finds something to do: start over or resume, read, show the tail, publish; or die on the way. */
    method Rerun(src: bytes, mtime: int, ino: int) returns (finished: bool)
      requires Resets(src, mtime, ino) || OnTrack(src)
      modifies this
      ensures old(KeptFor(src, mtime, ino)) <= |Transcript(e, src)|
      ensures finished ==>
        && saved.Some? && Records(e, saved.value, src) && (saved.value.mtime, saved.value.ino) == (mtime, ino)
        && output == Some(old(Kept(src, mtime, ino)) + Transcript(e, src)[old(KeptFor(src, mtime, ino))..])
      ensures !finished ==> saved == old(saved)
      ensures !finished ==> output == old(output) ||
                            Torn(output, old(Kept(src, mtime, ino)), Transcript(e, src), old(KeptFor(src, mtime, ino)))
    {
      finished := false;
      ghost var kept, from := Kept(src, mtime, ino), KeptFor(src, mtime, ino);
      KeptIsClean(src, mtime, ino);
      if * {
        return;
      }
      var c := Rewind(src, mtime, ino);
      var alive;
      c, alive := Write(src, c, kept, from);
      if !alive {
        return;
      }
      if * {
        assert Transcript(e, src)[from..|Transcript(e, src)|] == Transcript(e, src)[from..];
        return;
      }
      Publish(src, mtime, c);
      finished := true;
    }

    /** What a resuming call kept stays in front, so it still backs the cursor. */
    lemma TornIsBacked(src: bytes, kept: bytes)
      requires OnTrack(src) && saved.Some? && |kept| == saved.value.outputBytes
      requires kept == Committed(e, src[..saved.value.sourceSize]).out && Torn(output, kept, Transcript(e, src), |kept|)
      ensures Backed(src)
    {
      var m :| |kept| <= m <= |Transcript(e, src)| && output == Some(kept + Transcript(e, src)[|kept|..m]);
    }

    /**
     One call on the rollout `src`, which may die at any write.

     A finished call that starts over, or resumes on a transcript that backs its cursor, leaves the
     files of one clean pass, whatever the sizes of its reads.  A finished call that resumes on any
     transcript leaves that one cut or padded to the committed length, then the rest of the clean one.
     A call that dies leaves the cursor alone and the transcript untouched or torn somewhere after
     what it kept; so a resuming call that dies leaves the cursor backed.
     */
    method Refresh(src: bytes, mtime: int, ino: int) returns (finished: bool)
      requires Unchanged(src, mtime, ino) || Resets(src, mtime, ino) || OnTrack(src)
      modifies this
      ensures old(Unchanged(src, mtime, ino)) ==> finished && output == old(output) && saved == old(saved)
      ensures finished && !old(Unchanged(src, mtime, ino)) ==>
        && saved.Some? && Records(e, saved.value, src) && (saved.value.mtime, saved.value.ino) == (mtime, ino)
        && old(KeptFor(src, mtime, ino)) <= |Transcript(e, src)|
        && output == Some(old(Kept(src, mtime, ino)) + Transcript(e, src)[old(KeptFor(src, mtime, ino))..])
      ensures finished && !old(Unchanged(src, mtime, ino)) && old(Resets(src, mtime, ino) || Backed(src)) ==> Clean(src)
      ensures !finished ==> saved == old(saved)
      ensures !finished ==> output == old(output) ||
                            Torn(output, old(Kept(src, mtime, ino)), Transcript(e, src), old(KeptFor(src, mtime, ino)))
      ensures !finished && !old(Resets(src, mtime, ino)) && old(Backed(src)) ==> Backed(src)
    {
      if Unchanged(src, mtime, ino) {
        return true;
      }
      KeptIsClean(src, mtime, ino);
      ghost var kept := Kept(src, mtime, ino);
      ghost var resumes := !Resets(src, mtime, ino) && Backed(src);
      finished := Rerun(src, mtime, ino);
      if !finished && resumes && output != old(output) {
        TornIsBacked(src, kept);
      }
    }

    /** Backed, and a cursor that covers the whole rollout belongs to a clean transcript. */
    ghost predicate Sound(src: bytes)
      reads this
    {
      Backed(src) && (saved.Some? && saved.value.sourceSize == |src| ==> Clean(src))
    }

    lemma SoundAfterGrowth(src: bytes, more: bytes)
      requires Sound(src)
      ensures Sound(src + more)
    {
      if saved.Some? {
        var n := saved.value.sourceSize;
        assert (src + more)[..n] == src[..n];
        if n == |src + more| {
          assert src + more == src;
        }
      }
    }

    /** Sound, with the transcript and the cursor of this very rollout. */
    ghost predicate Served(src: bytes, ino: int)
      reads this
    {
      Sound(src) && (saved.Some? ==> output.Some? && saved.value.ino == ino)
    }

    /** The rollout has not been touched without growing since the cursor was written. */
    ghost predicate Untouched(src: bytes, mtime: int)
      reads this
    {
      saved.Some? && saved.value.sourceSize == |src| ==> saved.value.mtime == mtime
    }

    lemma ServedAfterGrowth(src: bytes, more: bytes, mtime: int, ino: int)
      requires Served(src, ino) && more != []
      ensures Served(src + more, ino) && Untouched(src + more, mtime)
    {
      SoundAfterGrowth(src, more);
    }

    lemma CleanIsSound(src: bytes)
      requires Clean(src)
      ensures Sound(src)
    {
      assert src[..|src|] == src;
    }

    lemma ServedResumes(src: bytes, mtime: int, ino: int)
      requires Served(src, ino) && Untouched(src, mtime) && saved.Some?
      ensures !Resets(src, mtime, ino)
    {
      var c := saved.value;
      assert OnTrack(src) && Records(e, c, src[..c.sourceSize]);
      assert At(e, c, src[..c.sourceSize]);
      AnchorStays(src, c.sourceSize, c.offset);
    }

    // ----- after a run that started over and died -----

    /**
     What the transcript holds of the bytes the cursor counts is right, and when the cursor covers the whole
     rollout, everything it holds.  A run that starts over and dies leaves no more than that.
     */
    ghost predicate Agrees(src: bytes)
      reads this
    {
      OnTrack(src) && (saved.Some? && output.Some? ==>
        var c, o := saved.value, output.value;
        && o[..Min(|o|, c.outputBytes)] <= Committed(e, src).out
        && (c.sourceSize == |src| ==> o <= Transcript(e, src)))
    }

    /** The call will find less than it counts on: than the cursor says, or, where nothing changed, than there is. */
    predicate Short(src: bytes, mtime: int, ino: int)
      reads this
    {
      if Unchanged(src, mtime, ino) then |output.value| < |Transcript(e, src)|
      else !Resets(src, mtime, ino) && |output.value| < saved.value.outputBytes
    }

    lemma AgreesAfterGrowth(src: bytes, more: bytes)
      requires Agrees(src)
      ensures Agrees(src + more)
    {
      if saved.Some? {
        var n := saved.value.sourceSize;
        assert (src + more)[..n] == src[..n];
        assert (src + more)[..|src|] == src;
        RowsOnlyGrow(e, src + more, |src|);
        if n == |src + more| {
          assert src + more == src;
        }
      }
    }

    /** A run that started over and died leaves an agreeing transcript. */
    lemma TornAgrees(src: bytes)
      requires OnTrack(src) && Torn(output, [], Transcript(e, src), 0)
      ensures Agrees(src)
    {
      TornIsFront(output, Transcript(e, src));
      if saved.Some? {
        CountsNoMore(src);
        FrontOfFront(output.value, Committed(e, src).out, PreviewRows(e, src), saved.value.outputBytes);
      }
    }

    lemma BackedAgrees(src: bytes)
      requires Backed(src) && (saved.Some? ==> saved.value.sourceSize != |src|)
      ensures Agrees(src)
    {
      if saved.Some? && output.Some? {
        CountsNoMore(src);
      }
    }

    lemma CleanAgrees(src: bytes)
      requires Clean(src)
      ensures Agrees(src)
    {
      assert src[..|src|] == src;
      assert output.value[..saved.value.outputBytes] == Committed(e, src).out;
    }

    /** A resuming call has something to read. */
    lemma ResumesOnGrowth(src: bytes, mtime: int, ino: int)
      requires !Unchanged(src, mtime, ino) && !Resets(src, mtime, ino)
      ensures saved.value.sourceSize != |src|
    {
    }

    /** Where nothing changed, an agreeing transcript that is not short is the clean one. */
    lemma WholeIsClean(src: bytes, mtime: int, ino: int)
      requires Agrees(src) && Unchanged(src, mtime, ino)
      ensures Clean(src) <==> !Short(src, mtime, ino)
    {
      assert src[..saved.value.sourceSize] == src;
      var o, full := output.value, Transcript(e, src);
      assert |o| == |full| ==> o == full[..|o|] == full;
    }

    /** Where the call resumes, one that is not short backs its cursor. */
    lemma LongIsBacked(src: bytes, mtime: int, ino: int)
      requires Agrees(src) && saved.Some? && output.Some? && saved.value.outputBytes <= |output.value|
      ensures Backed(src)
    {
      CountsNoMore(src);
      var ob := saved.value.outputBytes;
      assert output.value[..ob] == Committed(e, src).out[..ob];
    }

    /**
     The exact condition.  A call that resumes on what a run that died left ends with the clean transcript
     exactly when that still has the bytes the cursor counts, which a caller can see before the call.
     */
    lemma ResumesCleanExactly(src: bytes, mtime: int, ino: int)
      requires Agrees(src) && !Resets(src, mtime, ino) && PlainRows(e)
      ensures KeptFor(src, mtime, ino) <= |Transcript(e, src)|
      ensures Kept(src, mtime, ino) + Transcript(e, src)[KeptFor(src, mtime, ino)..] == Transcript(e, src)
         <==> saved.value.outputBytes <= |output.value|
    {
      CountsNoMore(src);
      TranscriptHasNoZero(e, src);
      PaddingShows(output.value, Transcript(e, src), saved.value.outputBytes);
    }

    lemma ServedIsLong(src: bytes, mtime: int, ino: int)
      requires Served(src, ino) && Untouched(src, mtime)
      ensures !Short(src, mtime, ino) && (saved.Some? ==> !Resets(src, mtime, ino))
    {
      if saved.Some? {
        ServedResumes(src, mtime, ino);
      }
    }

    /** A call that finds nothing changed. */
    method CallUnchanged(src: bytes, mtime: int, ino: int) returns (finished: bool)
      requires Agrees(src) && Unchanged(src, mtime, ino)
      modifies this
      ensures finished && Agrees(src) && (Clean(src) <==> !old(Short(src, mtime, ino)))
      ensures old(Served(src, ino) && Untouched(src, mtime)) ==> Served(src, ino) && Untouched(src, mtime)
    {
      WholeIsClean(src, mtime, ino);
      finished := Refresh(src, mtime, ino);
    }

    /** A call that starts over. */
    method CallAfresh(src: bytes, mtime: int, ino: int) returns (finished: bool)
      requires Agrees(src) && !Unchanged(src, mtime, ino) && Resets(src, mtime, ino)
      modifies this
      ensures Agrees(src) && (finished ==> Clean(src))
      ensures old(saved.None?) ==> Served(src, ino) && Untouched(src, mtime)
    {
      finished := Refresh(src, mtime, ino);
      if finished {
        CleanAgrees(src);
        CleanIsSound(src);
      } else if Torn(output, [], Transcript(e, src), 0) {
        TornAgrees(src);
      }
    }

    /** A call that resumes. */
    method CallResuming(src: bytes, mtime: int, ino: int) returns (finished: bool)
      requires Agrees(src) && !Unchanged(src, mtime, ino) && !Resets(src, mtime, ino)
      modifies this
      ensures !old(Short(src, mtime, ino)) ==> Agrees(src) && (finished ==> Clean(src))
      ensures !old(Short(src, mtime, ino)) && old(Served(src, ino)) ==> Served(src, ino) && Untouched(src, mtime)
      ensures old(Short(src, mtime, ino)) && finished && PlainRows(e) ==> !Clean(src)
    {
      ResumesOnGrowth(src, mtime, ino);
      ghost var short := Short(src, mtime, ino);
      if !short {
        LongIsBacked(src, mtime, ino);
      } else if PlainRows(e) {
        ResumesCleanExactly(src, mtime, ino);
      }
      finished := Refresh(src, mtime, ino);
      if !short && finished {
        CleanAgrees(src);
        CleanIsSound(src);
      } else if !short {
        BackedAgrees(src);
      }
    }

    /** One call of a schedule: the files agree after it, and are clean when it finished, unless it found the transcript short. */
    method CallOnce(src: bytes, mtime: int, ino: int) returns (finished: bool, short: bool)
      requires Agrees(src)
      modifies this
      ensures short == old(Short(src, mtime, ino))
      ensures !short ==> Agrees(src) && (finished ==> Clean(src))
      ensures short && finished && PlainRows(e) ==> !Clean(src)
      ensures old(Served(src, ino) && Untouched(src, mtime)) ==> !short && Served(src, ino) && Untouched(src, mtime)
    {
      short := Short(src, mtime, ino);
      if Served(src, ino) && Untouched(src, mtime) {
        ServedIsLong(src, mtime, ino);
      }
      if Unchanged(src, mtime, ino) {
        finished := CallUnchanged(src, mtime, ino);
      } else if Resets(src, mtime, ino) {
        finished := CallAfresh(src, mtime, ino);
      } else {
        finished := CallResuming(src, mtime, ino);
      }
    }

    /**
     Any schedule of growth, touches, calls and removals of the transcript, each call reading in chunks of
     any size and dying wherever it likes, starting over or not.  Until a call finds the transcript short,
     the files agree, and whenever the last call finished they are those of one clean pass over the rollout.
     The call that finds it short, if it finishes, leaves another transcript.  A rollout that is never
     touched without growing, and whose transcript is not removed, meets no such call.
     */
    method Run(src0: bytes, events: seq<Event>, mtime0: int, ino: int)
        returns (src: bytes, finished: bool, lost: bool, ghost seen: bytes)
      requires saved == None
      modifies this
      ensures src == SourceAfter(src0, events)
      ensures !lost ==> Agrees(src) && (finished ==> Clean(src))
      ensures lost && finished && PlainRows(e) ==> !Clean(seen)
      ensures (forall ev | ev in events :: !ev.Remove? && (ev.Grow? ==> ev.more != [])) ==> !lost
    {
      src, finished, lost, seen := src0, false, false, src0;
      var mtime, i := mtime0, 0;
      ghost var growing := forall ev | ev in events :: !ev.Remove? && (ev.Grow? ==> ev.more != []);
      while i < |events|
        invariant 0 <= i <= |events|
        invariant SourceAfter(src0, events) == SourceAfter(src, events[i..])
        invariant Agrees(src) && (finished ==> Clean(src))
        invariant growing ==> Served(src, ino) && Untouched(src, mtime)
        decreases |events| - i
      {
        assert events[i..][1..] == events[i + 1..];
        match events[i] {
          case Grow(more, t) =>
            AgreesAfterGrowth(src, more);
            if growing {
              ServedAfterGrowth(src, more, t, ino);
            }
            src, mtime, finished := src + more, t, false;
          case Remove =>
            output, finished := None, false;
          case Call =>
            finished, lost := CallOnce(src, mtime, ino);
            if lost {
              seen := src;
              src := SourceAfter(src, events[i + 1..]);
              return;
            }
        }
        i := i + 1;
      }
    }
  }

  // ---------- such a crash ----------

  /** An engine that shows every line as it is. */
  function Echo(): Engine<bool>
  {
    Engine(false, (line: bytes) => true, (line: bytes, pos: nat, p: bool) => Folded(p, Some([line])))
  }

  /** Two rows, of which the second comes later. */
  const ROW: bytes := [97, 10]
  const ROWS: bytes := [97, 10, 98, 10]

  /** What a finished run on the first row, last changed at 1, persists. */
  const AFTER_ROW: Cursor<bool> := Cursor(1, 2, 2, 1, 2, ROW, false, 0, false, None)

  lemma EchoRow(src: bytes, start: nat, end: nat)
    requires start <= end < |src| && src[end] == NEWLINE && NoNewline(src, start, end) && TailStart(src[..start]) == start
    requires |src| <= MAX_LINE
    ensures Complete(Echo(), src[..end + 1]) ==
            Acc(Complete(Echo(), src[..start]).parser, Complete(Echo(), src[..start]).malformed,
                Complete(Echo(), src[..start]).out + (src[start..end] + [NEWLINE]))
    ensures TailStart(src[..end + 1]) == end + 1
  {
    FoldOneMore(LineStep(Echo()), Acc(false, 0, []), src, start, end);
    var line := src[start..end];
    var rows: seq<bytes> := [line];
    assert rows[1..] == [];
    assert Render(rows) == line + [NEWLINE];
  }

  lemma EchoExample()
    ensures Complete(Echo(), ROW) == Acc(false, 0, ROW) && TailStart(ROW) == 2
    ensures Complete(Echo(), ROWS) == Acc(false, 0, ROWS) && TailStart(ROWS) == 4
  {
    assert ROWS[..0] == [] && ROWS[..2] == ROW && ROWS[..4] == ROWS;
    assert ROWS[0..1] == [97] && ROWS[2..3] == [98];
    EchoRow(ROWS, 0, 1);
    EchoRow(ROWS, 2, 3);
  }

  lemma EchoTranscript(src: bytes)
    requires TailStart(src) == |src|
    ensures Committed(Echo(), src).offset == |src| && !Committed(Echo(), src).discarding
    ensures Preview(Echo(), src) == None && Transcript(Echo(), src) == Complete(Echo(), src).out
  {
    assert src[|src|..] == [];
  }

  lemma RowsAreRows()
    ensures Anchor(ROW, 2) == ROW && ROWS[..2] == ROW && ROW + [98, 10] == ROWS && ROWS[2..] == [98, 10]
  {
  }

  lemma EchoRecords()
    ensures Records(Echo(), AFTER_ROW, ROW) && Transcript(Echo(), ROW) == ROW && Transcript(Echo(), ROWS) == ROWS
    ensures ROWS[..2] == ROW && ROW + [98, 10] == ROWS && ROWS[2..] == [98, 10]
  {
    EchoExample();
    EchoTranscript(ROW);
    EchoTranscript(ROWS);
    RowsAreRows();
  }

  lemma EmptyIsTorn(full: bytes)
    ensures Torn(Some([]), [], full, 0)
  {
    var none: bytes := [];
    assert none == none + full[0..0];
  }

  lemma ExampleAfresh(t: DerivedTranscript<bool>)
    requires t.e == Echo() && t.saved == Some(AFTER_ROW) && t.output == Some([])
    ensures Records(t.e, AFTER_ROW, ROW) && Transcript(t.e, ROW) == ROW
    ensures t.Resets(ROW, 2, 1) && Torn(t.output, [], Transcript(t.e, ROW), 0) && t.Agrees(ROW)
  {
    EchoRecords();
    EmptyIsTorn(Transcript(t.e, ROW));
    assert ROW[..2] == ROW;
    t.TornAgrees(ROW);
  }

  lemma ExampleResumes(t: DerivedTranscript<bool>)
    requires t.e == Echo() && t.saved == Some(AFTER_ROW) && t.output == Some([])
    ensures !t.Unchanged(ROWS, 3, 1) && !t.Resets(ROWS, 3, 1) && t.Short(ROWS, 3, 1)
    ensures t.KeptFor(ROWS, 3, 1) == 2 && t.Kept(ROWS, 3, 1) == [0, 0]
  {
    assert Anchor(ROWS, 2) == ROW;
    assert Truncate([], 2) == [0, 0];
  }

  /**
   A rollout of one row was parsed, then touched; the run that starts over dies right after it emptied the
   transcript, whose cursor still counts two bytes.  The rollout grows by a row, and the next run resumes:
   padding stands where the first row was.
   */
  lemma ResetCrashExample(t: DerivedTranscript<bool>)
    requires t.e == Echo() && t.saved == Some(AFTER_ROW) && t.output == Some([])
    ensures Records(t.e, AFTER_ROW, ROW) && Transcript(t.e, ROW) == ROW
    ensures t.Resets(ROW, 2, 1) && Torn(t.output, [], Transcript(t.e, ROW), 0) && t.Agrees(ROW)
    ensures ROW + [98, 10] == ROWS && t.Agrees(ROWS)
    ensures !t.Unchanged(ROWS, 3, 1) && !t.Resets(ROWS, 3, 1) && t.Short(ROWS, 3, 1)
    ensures t.KeptFor(ROWS, 3, 1) == 2 && Transcript(t.e, ROWS) == ROWS
    ensures t.Kept(ROWS, 3, 1) + Transcript(t.e, ROWS)[2..] == [0, 0, 98, 10] != Transcript(t.e, ROWS)
  {
    EchoRecords();
    ExampleAfresh(t);
    t.AgreesAfterGrowth(ROW, [98, 10]);
    ExampleResumes(t);
  }
}
