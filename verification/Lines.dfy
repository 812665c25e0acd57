/**
 Byte streams read as newline-terminated lines, and folds over their complete lines.

 The rollout adapter, the ask scanner and the quota exchange all advance over a growing stream one
 complete line at a time.

 - `CompleteLines` and `Tail` cut a stream at its newlines; `LinesAndTailAreTheText` says nothing is lost.
 - `FoldSegments` over `CompleteLines` is the reference reading, from the first line to the last.
 - `FoldLines` is the shape a loop follows that meets the newest byte last; `FoldLinesIsFoldSegments`
   shows that the two agree.
 - `LinesFromBoundary`, `LinesOfMore` and `UpToLastNewline` say what stays the same when a stream is read
   from a line boundary, grows, or is cut back to its last newline.
 */
module Lines {
  type byte = b: int | 0 <= b < 256

  const NEWLINE: byte := 10

  /** A line consumer: state, the line without its newline, and the line's offset in the file. */
  type Step<!A> = (A, seq<byte>, nat) -> A

  /** No newline among `s[lo..hi]`. */
  ghost predicate NoNewline(s: seq<byte>, lo: nat, hi: nat)
  {
    forall i | lo <= i < hi && i < |s| :: s[i] != NEWLINE
  }

  /** Where the unterminated tail begins: one past the last newline, or 0. */
  function TailStart(s: seq<byte>): (t: nat)
    ensures t <= |s|
    ensures NoNewline(s, t, |s|)
    ensures t > 0 ==> s[t - 1] == NEWLINE
  {
    if s == [] then 0
    else if s[|s| - 1] == NEWLINE then |s|
    else TailStart(s[..|s| - 1])
  }

  /** The unterminated tail, possibly empty. */
  function Tail(s: seq<byte>): seq<byte>
  {
    s[TailStart(s)..]
  }

  /** Fold `step` over the complete lines of `s`, whose first byte sits at file offset `base`. */
  function FoldLines<A>(step: Step<A>, a: A, base: nat, s: seq<byte>): A
  {
    if s == [] then a
    else
      var p := s[..|s| - 1];
      var r := FoldLines(step, a, base, p);
      if s[|s| - 1] == NEWLINE then step(r, Tail(p), base + TailStart(p)) else r
  }

  /** The pieces that a newline ended, in order. */
  function CompleteLines(s: seq<byte>): seq<seq<byte>>
  {
    if s == [] then []
    else
      var p := s[..|s| - 1];
      if s[|s| - 1] == NEWLINE then CompleteLines(p) + [Tail(p)] else CompleteLines(p)
  }

  /** Every line followed by its newline. */
  function Unlines(lines: seq<seq<byte>>): seq<byte>
  {
    if lines == [] then [] else lines[0] + [NEWLINE] + Unlines(lines[1..])
  }

  /** Fold over pieces from first to last; each piece is followed by one newline in the file. */
  function FoldSegments<A>(step: Step<A>, a: A, base: nat, lines: seq<seq<byte>>): A
    decreases |lines|
  {
    if lines == [] then a
    else FoldSegments(step, step(a, lines[0], base), base + |lines[0]| + 1, lines[1..])
  }

  /** Bytes that hold no newline complete no line. */
  lemma {:induction false} FoldWithoutNewline<A>(step: Step<A>, a: A, base: nat, s: seq<byte>, n: nat)
    requires n <= |s| && NoNewline(s, n, |s|)
    ensures FoldLines(step, a, base, s) == FoldLines(step, a, base, s[..n])
    ensures TailStart(s) == TailStart(s[..n])
    decreases |s|
  {
    if n == |s| {
      assert s[..n] == s;
    } else {
      var p := s[..|s| - 1];
      assert p[..n] == s[..n];
      FoldWithoutNewline(step, a, base, p, n);
    }
  }

  /** One more complete line: everything up to `start`, then a line ended by the newline at `end`. */
  lemma {:induction false} FoldOneMore<A>(step: Step<A>, a: A, s: seq<byte>, start: nat, end: nat)
    requires start <= end < |s| && s[end] == NEWLINE && NoNewline(s, start, end)
    requires TailStart(s[..start]) == start
    ensures FoldLines(step, a, 0, s[..end + 1]) == step(FoldLines(step, a, 0, s[..start]), s[start..end], start)
    ensures TailStart(s[..end + 1]) == end + 1
  {
    var u := s[..end + 1];
    assert u[..|u| - 1] == s[..end];
    assert s[..end][start..] == s[start..end];
    assert s[..end][..start] == s[..start];
    FoldWithoutNewline(step, a, 0, s[..end], start);
  }

  lemma InitOfAppend(u: seq<byte>, v: seq<byte>)
    requires v != []
    ensures (u + v)[..|u + v| - 1] == u + v[..|v| - 1]
    ensures (u + v)[|u + v| - 1] == v[|v| - 1]
  {
  }

  lemma {:induction false} TailFromBoundary(u: seq<byte>, v: seq<byte>)
    requires TailStart(u) == |u|
    ensures TailStart(u + v) == |u| + TailStart(v)
    ensures Tail(u + v) == Tail(v)
    decreases |v|
  {
    if v == [] {
      assert u + v == u;
    } else {
      InitOfAppend(u, v);
      TailFromBoundary(u, v[..|v| - 1]);
    }
  }

  /** Nor do lines reach over it. */
  lemma {:induction false} LinesFromBoundary(u: seq<byte>, v: seq<byte>)
    requires TailStart(u) == |u|
    ensures CompleteLines(u + v) == CompleteLines(u) + CompleteLines(v)
    decreases |v|
  {
    if v == [] {
      assert u + v == u;
    } else {
      InitOfAppend(u, v);
      LinesFromBoundary(u, v[..|v| - 1]);
      TailFromBoundary(u, v[..|v| - 1]);
    }
  }

  lemma {:induction false} LinesEndAtBoundary(v: seq<byte>, k: nat)
    requires k == TailStart(v)
    ensures TailStart(v[..k]) == k && CompleteLines(v[..k]) == CompleteLines(v)
    decreases |v|
  {
    if k == |v| {
      assert v[..k] == v;
    } else {
      var p := v[..|v| - 1];
      LinesEndAtBoundary(p, k);
      assert p[..k] == v[..k];
    }
  }

  /** The complete lines of a text are those up to its last newline, where a new line begins. */
  lemma UpToLastNewline(v: seq<byte>)
    ensures var k := TailStart(v);
            TailStart(v[..k]) == k && CompleteLines(v[..k]) == CompleteLines(v) && Tail(v[..k]) == []
  {
    LinesEndAtBoundary(v, TailStart(v));
  }

  lemma Rejoin(u: seq<byte>, v: seq<byte>, k: nat)
    requires k <= |u|
    ensures u + v == u[..k] + (u[k..] + v)
  {
  }

  lemma BothFromBoundary(u: seq<byte>, v: seq<byte>)
    requires TailStart(u) == |u|
    ensures CompleteLines(u + v) == CompleteLines(u) + CompleteLines(v) && Tail(u + v) == Tail(v)
  {
    LinesFromBoundary(u, v);
    TailFromBoundary(u, v);
  }

  /** More bytes continue the tail. */
  lemma LinesOfMore(u: seq<byte>, v: seq<byte>)
    ensures CompleteLines(u + v) == CompleteLines(u) + CompleteLines(Tail(u) + v)
    ensures Tail(u + v) == Tail(Tail(u) + v)
  {
    UpToLastNewline(u);
    Rejoin(u, v, TailStart(u));
    BothFromBoundary(u[..TailStart(u)], Tail(u) + v);
  }

  lemma {:induction false} UnlinesSnoc(lines: seq<seq<byte>>, x: seq<byte>)
    ensures Unlines(lines + [x]) == Unlines(lines) + x + [NEWLINE]
    decreases |lines|
  {
    if lines == [] {
      assert [x][1..] == [];
    } else {
      assert (lines + [x])[1..] == lines[1..] + [x];
      UnlinesSnoc(lines[1..], x);
    }
  }

  /** The complete lines and the tail are the text. */
  lemma {:induction false} LinesAndTailAreTheText(s: seq<byte>)
    ensures Unlines(CompleteLines(s)) + Tail(s) == s
    decreases |s|
  {
    if s != [] {
      var p, b := s[..|s| - 1], s[|s| - 1];
      LinesAndTailAreTheText(p);
      assert s == p + [b];
      if b == NEWLINE {
        UnlinesSnoc(CompleteLines(p), Tail(p));
      }
    }
  }

  /** And only the newlines that end lines are newlines. */
  lemma {:induction false} LinesHoldNoNewline(s: seq<byte>)
    ensures forall l | l in CompleteLines(s) :: NoNewline(l, 0, |l|)
    decreases |s|
  {
    if s != [] {
      LinesHoldNoNewline(s[..|s| - 1]);
    }
  }

  lemma OffsetOfTail(s: seq<byte>)
    ensures |Unlines(CompleteLines(s))| == TailStart(s)
  {
    LinesAndTailAreTheText(s);
  }

  lemma {:induction false} FoldSegmentsSnoc<A>(step: Step<A>, a: A, base: nat, lines: seq<seq<byte>>, x: seq<byte>)
    ensures FoldSegments(step, a, base, lines + [x])
         == step(FoldSegments(step, a, base, lines), x, base + |Unlines(lines)|)
    decreases |lines|
  {
    if lines == [] {
      assert [x][1..] == [];
    } else {
      assert (lines + [x])[1..] == lines[1..] + [x];
      FoldSegmentsSnoc(step, step(a, lines[0], base), base + |lines[0]| + 1, lines[1..], x);
    }
  }

  /** The incremental fold is the fold over the lines of the whole text, first to last, at their offsets. */
  lemma {:induction false} FoldLinesIsFoldSegments<A>(step: Step<A>, a: A, base: nat, s: seq<byte>)
    ensures FoldLines(step, a, base, s) == FoldSegments(step, a, base, CompleteLines(s))
    decreases |s|
  {
    if s != [] {
      var p := s[..|s| - 1];
      FoldLinesIsFoldSegments(step, a, base, p);
      if s[|s| - 1] == NEWLINE {
        FoldSegmentsSnoc(step, a, base, CompleteLines(p), Tail(p));
        OffsetOfTail(p);
      }
    }
  }
}
