/**
 Token accounting in the rollout adapter: a bounded memory of usage ids, and the differencing of
 cumulative counters into per-event usage rows.
 */
module CodexUsage {
  import opened Basics

  // ---------- the bounded FIFO of ids ----------

  const SEEN_LIMIT: nat := 20000

  /** The ids a search of the bounded FIFO still finds, given every id it accepted. */
  function Window(accepted: seq<string>): seq<string>
  {
    if |accepted| > SEEN_LIMIT then accepted[|accepted| - SEEN_LIMIT..] else accepted
  }

  /** The ids accepted, by linear search of the window: the reference `Seen` is checked against. */
  function Accepted(keys: seq<string>): seq<string>
  {
    if keys == [] then []
    else
      var a, k := Accepted(keys[..|keys| - 1]), keys[|keys| - 1];
      if k in Window(a) then a else a + [k]
  }

  /** What that search answers to each id in turn: true for the ones it accepts. */
  function Answers(keys: seq<string>): seq<bool>
  {
    if keys == [] then []
    else
      var init := keys[..|keys| - 1];
      Answers(init) + [keys[|keys| - 1] !in Window(Accepted(init))]
  }

  function Elements(xs: seq<string>): set<string>
  {
    set k | k in xs
  }

  predicate Distinct(xs: seq<string>)
  {
    forall i, j | 0 <= i < j < |xs| :: xs[i] != xs[j]
  }

  lemma ElementsDropFirst(xs: seq<string>, i: nat)
    requires i < |xs| && Distinct(xs)
    ensures Elements(xs[i..]) - {xs[i]} == Elements(xs[i + 1..])
  {
    assert xs[i..] == [xs[i]] + xs[i + 1..];
  }

  /** Accepting one more id pushes at most the oldest one out. */
  lemma WindowSnoc(a: seq<string>, k: string)
    ensures Window(a + [k]) == Window(Window(a) + [k])
    ensures k !in Window(a) && Distinct(Window(a)) ==> Distinct(Window(a + [k]))
  {
    var w := Window(a) + [k];
    if |a| >= SEEN_LIMIT {
      assert (a + [k])[|a| + 1 - SEEN_LIMIT..] == w[|w| - SEEN_LIMIT..];
    }
  }

  lemma AskNext(keys: seq<string>, i: nat)
    requires i < |keys|
    ensures var w, k := Window(Accepted(keys[..i])), keys[i];
            && Answers(keys[..i + 1]) == Answers(keys[..i]) + [k !in w]
            && Window(Accepted(keys[..i + 1])) == if k in w then w else Window(w + [k])
  {
    assert keys[..i + 1][..i] == keys[..i];
    WindowSnoc(Accepted(keys[..i]), keys[i]);
  }

  /** The serialized array, and the Set that mirrors it once one question has been asked. */
  class Seen {
    var xs: seq<string>
    var mirror: Option<set<string>>

    ghost predicate Valid()
      reads this
    {
      && |xs| <= SEEN_LIMIT && Distinct(xs)
      && (mirror.Some? ==> mirror.value == Elements(xs))
    }

    constructor (saved: seq<string>)
      requires |saved| <= SEEN_LIMIT && Distinct(saved)
      ensures Valid() && xs == saved
    {
      xs, mirror := saved, None;
    }

    /** Take the ids pushed out of the array out of the mirror too. */
    static method Evict(known0: set<string>, grown: seq<string>, dropped: nat) returns (known: set<string>)
      requires dropped <= |grown| && Distinct(grown) && known0 == Elements(grown)
      ensures known == Elements(grown[dropped..])
    {
      known := known0;
      var i := 0;
      assert grown[0..] == grown;
      while i < dropped
        invariant 0 <= i <= dropped && known == Elements(grown[i..])
      {
        ElementsDropFirst(grown, i);
        known := known - {grown[i]};
        i := i + 1;
      }
    }

    /** True for an id the linear search of `xs` does not find; it is then pushed, the oldest falling out. */
    method Remember(key: string) returns (isNew: bool)
      requires Valid()
      modifies this
      ensures Valid()
      ensures isNew <==> key !in old(xs)
      ensures xs == if isNew then Window(old(xs) + [key]) else old(xs)
    {
      var known := if mirror.Some? then mirror.value else Elements(xs);
      if key in known {
        mirror := Some(known);
        return false;
      }
      var grown := xs + [key];
      WindowSnoc(xs, key);
      assert known + {key} == Elements(grown);
      var dropped := if |grown| > SEEN_LIMIT then |grown| - SEEN_LIMIT else 0;
      known := Evict(known + {key}, grown, dropped);
      xs, mirror := grown[dropped..], Some(known);
      isNew := true;
    }

    /** Every run of questions is answered as the linear search of the window answers it. */
    method RememberAll(keys: seq<string>) returns (answers: seq<bool>)
      requires Valid() && xs == []
      modifies this
      ensures Valid() && xs == Window(Accepted(keys))
      ensures answers == Answers(keys)
    {
      answers := [];
      var i := 0;
      while i < |keys|
        invariant 0 <= i <= |keys| && Valid()
        invariant xs == Window(Accepted(keys[..i]))
        invariant answers == Answers(keys[..i])
      {
        AskNext(keys, i);
        var isNew := Remember(keys[i]);
        answers := answers + [isNew];
        i := i + 1;
      }
      assert keys[..|keys|] == keys;
    }
  }

  // ---------- differencing cumulative counters ----------

  datatype Tokens = Tokens(input: int, output: int, cached: int, cacheWrite: int)
  {
    function Plus(t: Tokens): Tokens
    {
      Tokens(input + t.input, output + t.output, cached + t.cached, cacheWrite + t.cacheWrite)
    }

    function Minus(t: Tokens): Tokens
    {
      Tokens(input - t.input, output - t.output, cached - t.cached, cacheWrite - t.cacheWrite)
    }

    /** Componentwise order. */
    predicate Below(t: Tokens)
    {
      input <= t.input && output <= t.output && cached <= t.cached && cacheWrite <= t.cacheWrite
    }
  }

  const ZERO := Tokens(0, 0, 0, 0)

  /**
   A token_count record: its usage id, its cumulative counters, and its own turn's usage when that
   carries a per-category breakdown.  Counters are nonnegative: `num` turns anything else into 0.
   */
  datatype Reading = Reading(id: string, next: Tokens, last: Option<Tokens>)
  {
    predicate Valid()
    {
      ZERO.Below(next) && (last.Some? ==> ZERO.Below(last.value))
    }

    /** What a reading with nothing before it to compare with is taken to add. */
    function Own(): Tokens
    {
      if last.Some? then last.value else next
    }
  }

  /** Some counter went down: the cumulative counters started again. */
  predicate Resets(prev: Option<Tokens>, r: Reading)
  {
    prev.Some? && !prev.value.Below(r.next)
  }

  function Delta(prev: Option<Tokens>, r: Reading): Tokens
  {
    if prev.None? || Resets(prev, r) then r.Own() else r.next.Minus(prev.value)
  }

  /** The usage row of a delta: cached input is split from the input, and nothing is emitted for zero. */
  datatype Row = Row(input: int, output: int, cacheRead: int, cacheCreation: int, reset: bool)

  function RowOf(d: Tokens, reset: bool): Option<Row>
  {
    if d == ZERO then None
    else Some(Row(Max(0, d.input - d.cached), d.output, d.cached, d.cacheWrite, reset))
  }

  /** The cursor fields the token_count branch reads and writes. */
  class Meter {
    var tokens: Option<Tokens>
    const seen: Seen

    constructor (seen: Seen)
      ensures this.seen == seen && tokens == None
    {
      this.seen := seen;
      tokens := None;
    }

    method TokenCount(r: Reading) returns (row: Option<Row>)
      requires seen.Valid() && r.Valid() && (tokens.Some? ==> ZERO.Below(tokens.value))
      modifies this, seen
      ensures seen.Valid() && (tokens.Some? ==> ZERO.Below(tokens.value))
      ensures r.id in old(seen.xs) ==> row == None && tokens == old(tokens) && seen.xs == old(seen.xs)
      ensures r.id !in old(seen.xs) ==>
                && tokens == Some(r.next) && seen.xs == Window(old(seen.xs) + [r.id])
                && row == RowOf(Delta(old(tokens), r), Resets(old(tokens), r))
    {
      var isNew := seen.Remember(r.id);
      if !isNew {
        return None;
      }
      var next := r.next;
      var reset := tokens.Some? && (next.input < tokens.value.input || next.output < tokens.value.output ||
                                    next.cached < tokens.value.cached || next.cacheWrite < tokens.value.cacheWrite);
      var delta;
      if tokens.None? || reset {
        delta := if r.last.Some? then r.last.value else next;
      } else {
        var t := tokens.value;
        delta := Tokens(Max(0, next.input - t.input), Max(0, next.output - t.output),
                        Max(0, next.cached - t.cached), Max(0, next.cacheWrite - t.cacheWrite));
      }
      tokens := Some(next);
      if delta == ZERO {
        return None;
      }
      row := Some(Row(Max(0, delta.input - delta.cached), delta.output, delta.cached, delta.cacheWrite, reset));
    }
  }

  // ---------- conservation over the accepted readings ----------

  function After(prev: Option<Tokens>, rs: seq<Reading>): Option<Tokens>
  {
    if rs == [] then prev else Some(rs[|rs| - 1].next)
  }

  function Deltas(prev: Option<Tokens>, rs: seq<Reading>): (ds: seq<Tokens>)
    ensures |ds| == |rs|
    decreases |rs|
  {
    if rs == [] then [] else [Delta(prev, rs[0])] + Deltas(Some(rs[0].next), rs[1..])
  }

  function Sum(ds: seq<Tokens>): Tokens
  {
    if ds == [] then ZERO else ds[0].Plus(Sum(ds[1..]))
  }

  /** How many readings, from the first, go without a reset after it. */
  function RunLength(rs: seq<Reading>): (n: nat)
    requires rs != []
    ensures 1 <= n <= |rs|
    ensures n < |rs| ==> Resets(Some(rs[n - 1].next), rs[n])
    decreases |rs|
  {
    if |rs| == 1 || Resets(Some(rs[0].next), rs[1]) then 1 else 1 + RunLength(rs[1..])
  }

  /** A reset-free segment adds its first reading's own usage and then what its counters grew by. */
  function SegmentTotal(seg: seq<Reading>): Tokens
    requires seg != []
  {
    seg[0].Own().Plus(seg[|seg| - 1].next.Minus(seg[0].next))
  }

  function Totals(rs: seq<Reading>): Tokens
    decreases |rs|
  {
    if rs == [] then ZERO
    else
      var n := RunLength(rs);
      SegmentTotal(rs[..n]).Plus(Totals(rs[n..]))
  }

  lemma SumCons(d: Tokens, ds: seq<Tokens>)
    ensures Sum([d] + ds) == d.Plus(Sum(ds))
  {
    assert ([d] + ds)[1..] == ds;
  }

  lemma {:induction false} SumAppend(a: seq<Tokens>, b: seq<Tokens>)
    ensures Sum(a + b) == Sum(a).Plus(Sum(b))
    decreases |a|
  {
    if a == [] {
      assert a + b == b;
    } else {
      assert (a + b)[1..] == a[1..] + b;
      SumAppend(a[1..], b);
    }
  }

  lemma DeltasCons(prev: Option<Tokens>, r: Reading, rs: seq<Reading>)
    ensures Deltas(prev, [r] + rs) == [Delta(prev, r)] + Deltas(Some(r.next), rs)
  {
    assert ([r] + rs)[1..] == rs;
  }

  lemma Regroup<T>(d: T, x: seq<T>, y: seq<T>)
    ensures ([d] + x) + y == [d] + (x + y)
  {
  }

  lemma {:induction false} DeltasAppend(prev: Option<Tokens>, a: seq<Reading>, b: seq<Reading>)
    requires a != []
    ensures Deltas(prev, a + b) == Deltas(prev, a) + Deltas(Some(a[|a| - 1].next), b)
    decreases |a|
  {
    var r, rest := a[0], a[1..];
    assert a == [r] + rest;
    Regroup(r, rest, b);
    DeltasCons(prev, r, rest);
    DeltasCons(prev, r, rest + b);
    if rest == [] {
      assert rest + b == b;
      assert Deltas(Some(r.next), rest) == [];
    } else {
      DeltasAppend(Some(r.next), rest, b);
      Regroup(Delta(prev, r), Deltas(Some(r.next), rest), Deltas(Some(a[|a| - 1].next), b));
    }
  }

  lemma DeltasSplit(prev: Option<Tokens>, rs: seq<Reading>, n: nat)
    requires 1 <= n <= |rs|
    ensures Deltas(prev, rs) == Deltas(prev, rs[..n]) + Deltas(Some(rs[n - 1].next), rs[n..])
  {
    assert rs == rs[..n] + rs[n..];
    DeltasAppend(prev, rs[..n], rs[n..]);
  }

  /** Within a run without resets the deltas telescope. */
  lemma {:induction false} RunTelescopes(p: Tokens, rs: seq<Reading>)
    requires rs != [] ==> !Resets(Some(p), rs[0]) && RunLength(rs) == |rs|
    ensures Sum(Deltas(Some(p), rs)) == (if rs == [] then ZERO else rs[|rs| - 1].next.Minus(p))
    decreases |rs|
  {
    if rs != [] {
      RunTelescopes(rs[0].next, rs[1..]);
      SumCons(Delta(Some(p), rs[0]), Deltas(Some(rs[0].next), rs[1..]));
    }
  }

  lemma {:induction false} RunOfPrefix(rs: seq<Reading>)
    requires rs != []
    ensures RunLength(rs[..RunLength(rs)]) == RunLength(rs)
    decreases |rs|
  {
    var n := RunLength(rs);
    if n > 1 {
      RunOfPrefix(rs[1..]);
      assert rs[..n][1..] == rs[1..][..n - 1];
    }
  }

  lemma SegmentSum(prev: Option<Tokens>, rs: seq<Reading>)
    requires rs != [] && (prev.None? || Resets(prev, rs[0]))
    ensures Sum(Deltas(prev, rs[..RunLength(rs)])) == SegmentTotal(rs[..RunLength(rs)])
  {
    var seg := rs[..RunLength(rs)];
    RunOfPrefix(rs);
    RunTelescopes(seg[0].next, seg[1..]);
    SumCons(Delta(prev, seg[0]), Deltas(Some(seg[0].next), seg[1..]));
  }

  /**
   Conservation: the deltas of any accepted readings add up, component by component, to the totals of
   their reset-free segments.
   */
  lemma {:induction false} Conservation(prev: Option<Tokens>, rs: seq<Reading>)
    requires rs != [] ==> prev.None? || Resets(prev, rs[0])
    ensures Sum(Deltas(prev, rs)) == Totals(rs)
    decreases |rs|
  {
    if rs != [] {
      var n := RunLength(rs);
      SegmentSum(prev, rs);
      DeltasSplit(prev, rs, n);
      SumAppend(Deltas(prev, rs[..n]), Deltas(Some(rs[n - 1].next), rs[n..]));
      Conservation(Some(rs[n - 1].next), rs[n..]);
    }
  }

  /** A segment whose first reading has no breakdown of its own adds up to its last cumulative value. */
  lemma SegmentWithoutBreakdown(seg: seq<Reading>)
    requires seg != [] && seg[0].last.None?
    ensures SegmentTotal(seg) == seg[|seg| - 1].next
  {
  }

  /** One whose first reading has, adds up to that and what the counters grew by since. */
  lemma SegmentWithBreakdown(seg: seq<Reading>)
    requires seg != [] && seg[0].last.Some?
    ensures SegmentTotal(seg) == seg[0].last.value.Plus(seg[|seg| - 1].next.Minus(seg[0].next))
  {
  }

  lemma {:induction false} DeltasNonnegative(prev: Option<Tokens>, rs: seq<Reading>)
    requires forall r | r in rs :: r.Valid()
    ensures forall d | d in Deltas(prev, rs) :: ZERO.Below(d)
    decreases |rs|
  {
    if rs != [] {
      DeltasNonnegative(Some(rs[0].next), rs[1..]);
      assert rs[0].Valid();
      assert ZERO.Below(Delta(prev, rs[0]));
    }
  }

  /** Reading `i` has nothing to be compared with: it is the first, or follows a reset. */
  predicate StartsSegment(prev: Option<Tokens>, rs: seq<Reading>, i: nat)
    requires i < |rs|
  {
    var before := if i == 0 then prev else Some(rs[i - 1].next);
    before.None? || Resets(before, rs[i])
  }

  function Inherit(p: Tokens, rs: seq<Reading>): seq<Reading>
  {
    seq(|rs|, i requires 0 <= i < |rs| => rs[i].(next := rs[i].next.Plus(p)))
  }

  function Shifted(p: Tokens, prev: Option<Tokens>): Option<Tokens>
  {
    match prev case None => None case Some(t) => Some(t.Plus(p))
  }

  /** What the inherited counters do to one delta. */
  lemma ShiftedDelta(p: Tokens, prev: Option<Tokens>, r: Reading)
    ensures Delta(Shifted(p, prev), r.(next := r.next.Plus(p))) == Delta(prev, r) <==>
            p == ZERO || ((prev.None? || Resets(prev, r)) ==> r.last.Some?)
  {
  }

  /** Every reading of `rs` that starts a segment has its own breakdown. */
  ghost predicate SegmentsHaveBreakdowns(prev: Option<Tokens>, rs: seq<Reading>)
  {
    forall i | 0 <= i < |rs| :: StartsSegment(prev, rs, i) ==> rs[i].last.Some?
  }

  lemma BreakdownsCons(prev: Option<Tokens>, rs: seq<Reading>)
    requires rs != []
    ensures SegmentsHaveBreakdowns(prev, rs) <==>
            ((prev.None? || Resets(prev, rs[0])) ==> rs[0].last.Some?) &&
            SegmentsHaveBreakdowns(Some(rs[0].next), rs[1..])
  {
    var rest := rs[1..];
    assert StartsSegment(prev, rs, 0) <==> prev.None? || Resets(prev, rs[0]);
    assert forall i | 0 <= i < |rest| :: rest[i] == rs[i + 1] &&
             (StartsSegment(Some(rs[0].next), rest, i) <==> StartsSegment(prev, rs, i + 1));
    if SegmentsHaveBreakdowns(Some(rs[0].next), rest) {
      forall i | 1 <= i < |rs| ensures StartsSegment(prev, rs, i) ==> rs[i].last.Some? {
        assert StartsSegment(Some(rs[0].next), rest, i - 1) <==> StartsSegment(prev, rs, i);
      }
    }
  }

  lemma ConsEqual<T>(a: T, x: seq<T>, b: T, y: seq<T>)
    ensures [a] + x == [b] + y <==> a == b && x == y
  {
    assert ([a] + x)[0] == a && ([b] + y)[0] == b;
    assert ([a] + x)[1..] == x && ([b] + y)[1..] == y;
  }

  /**
   A fork starts from its parent's counters `p`.  Unless those are zero, its deltas are those of the same
   readings without the inherited counters exactly when its first reading, and any reading after a reset,
   has its own breakdown.
   */
  lemma {:induction false} ForkAddsNothing(p: Tokens, prev: Option<Tokens>, rs: seq<Reading>)
    ensures Deltas(Shifted(p, prev), Inherit(p, rs)) == Deltas(prev, rs) <==>
            p == ZERO || SegmentsHaveBreakdowns(prev, rs)
    decreases |rs|
  {
    if rs != [] {
      var rest, shifted := rs[1..], Inherit(p, rs);
      ForkAddsNothing(p, Some(rs[0].next), rest);
      ShiftedDelta(p, prev, rs[0]);
      BreakdownsCons(prev, rs);
      assert shifted == [shifted[0]] + Inherit(p, rest) && rs == [rs[0]] + rest;
      DeltasCons(Shifted(p, prev), shifted[0], Inherit(p, rest));
      DeltasCons(prev, rs[0], rest);
      ConsEqual(Delta(Shifted(p, prev), shifted[0]), Deltas(Some(shifted[0].next), Inherit(p, rest)),
                Delta(prev, rs[0]), Deltas(Some(rs[0].next), rest));
    }
  }

  // ---------- what the rows carry ----------

  function RowInput(d: Tokens): int
  {
    match RowOf(d, false) case None => 0 case Some(r) => r.input + r.cacheRead
  }

  function SumRowInput(ds: seq<Tokens>): int
  {
    if ds == [] then 0 else RowInput(ds[0]) + SumRowInput(ds[1..])
  }

  /**
   The rows' input and cache reads together are never less than the input the deltas add up to, and they
   are equal exactly when no delta reports more cached input than input.
   */
  lemma {:induction false} RowsConserveInputExactly(ds: seq<Tokens>)
    requires forall d | d in ds :: ZERO.Below(d)
    ensures SumRowInput(ds) >= Sum(ds).input
    ensures SumRowInput(ds) == Sum(ds).input <==> forall d | d in ds :: d.cached <= d.input
    decreases |ds|
  {
    if ds != [] {
      RowsConserveInputExactly(ds[1..]);
      var d := ds[0];
      assert ZERO.Below(d);
      assert RowInput(d) == Max(d.input, d.cached);
      assert (forall x | x in ds :: x.cached <= x.input) <==>
             d.cached <= d.input && forall x | x in ds[1..] :: x.cached <= x.input;
    }
  }

  // ---------- a whole rollout's readings ----------

  function Ids(rs: seq<Reading>): seq<string>
  {
    seq(|rs|, i requires 0 <= i < |rs| => rs[i].id)
  }

  /** The readings `Remember` lets through. */
  function Kept(rs: seq<Reading>): seq<Reading>
  {
    if rs == [] then []
    else
      var init, r := rs[..|rs| - 1], rs[|rs| - 1];
      if r.id in Window(Accepted(Ids(init))) then Kept(init) else Kept(init) + [r]
  }

  function RowsFor(prev: Option<Tokens>, r: Reading): seq<Row>
  {
    match RowOf(Delta(prev, r), Resets(prev, r)) case None => [] case Some(row) => [row]
  }

  function Rows(prev: Option<Tokens>, rs: seq<Reading>): seq<Row>
    decreases |rs|
  {
    if rs == [] then [] else RowsFor(prev, rs[0]) + Rows(Some(rs[0].next), rs[1..])
  }

  function SumRows(rows: seq<Row>): Tokens
  {
    if rows == [] then ZERO
    else Tokens(rows[0].input + rows[0].cacheRead, rows[0].output, rows[0].cacheRead, rows[0].cacheCreation)
         .Plus(SumRows(rows[1..]))
  }

  lemma {:induction false} RowsSnoc(prev: Option<Tokens>, rs: seq<Reading>, r: Reading)
    ensures Rows(prev, rs + [r]) == Rows(prev, rs) + RowsFor(After(prev, rs), r)
    decreases |rs|
  {
    if rs == [] {
      assert [r][1..] == [];
      assert RowsFor(prev, r) + [] == RowsFor(prev, r);
    } else {
      assert (rs + [r])[1..] == rs[1..] + [r];
      RowsSnoc(Some(rs[0].next), rs[1..], r);
      assert After(Some(rs[0].next), rs[1..]) == After(prev, rs);
    }
  }

  lemma SumRowsCons(prev: Option<Tokens>, r: Reading, rows: seq<Row>)
    ensures var d := Delta(prev, r);
            SumRows(RowsFor(prev, r) + rows) == d.(input := RowInput(d)).Plus(SumRows(rows))
  {
    var row := RowsFor(prev, r);
    if row == [] {
      assert row + rows == rows;
    } else {
      assert (row + rows)[1..] == rows;
    }
  }

  /** The sum of the deltas as rows carry them. */
  function Carried(ds: seq<Tokens>): Tokens
  {
    if ds == [] then ZERO else ds[0].(input := RowInput(ds[0])).Plus(Carried(ds[1..]))
  }

  lemma CarriedCons(d: Tokens, ds: seq<Tokens>)
    ensures Carried([d] + ds) == d.(input := RowInput(d)).Plus(Carried(ds))
  {
    assert ([d] + ds)[1..] == ds;
  }

  lemma {:induction false} CarriedIsSum(ds: seq<Tokens>)
    ensures Carried(ds) == Sum(ds).(input := SumRowInput(ds))
    decreases |ds|
  {
    if ds != [] {
      CarriedIsSum(ds[1..]);
    }
  }

  lemma {:induction false} SumRowsIsCarried(prev: Option<Tokens>, rs: seq<Reading>)
    ensures SumRows(Rows(prev, rs)) == Carried(Deltas(prev, rs))
    decreases |rs|
  {
    if rs != [] {
      var next := Some(rs[0].next);
      SumRowsIsCarried(next, rs[1..]);
      CarriedCons(Delta(prev, rs[0]), Deltas(next, rs[1..]));
      SumRowsCons(prev, rs[0], Rows(next, rs[1..]));
    }
  }

  /**
   What the rows of a rollout add up to: in output, cache reads and cache writes the totals of its
   reset-free segments, and in input (with cache reads) at least that.
   */
  lemma RowsConserveTokens(rs: seq<Reading>)
    requires forall r | r in rs :: r.Valid()
    ensures var sum, total := SumRows(Rows(None, rs)), Totals(rs);
            && (sum.output, sum.cached, sum.cacheWrite) == (total.output, total.cached, total.cacheWrite)
            && sum.input >= total.input
            && (sum.input == total.input <==> forall d | d in Deltas(None, rs) :: d.cached <= d.input)
  {
    SumRowsIsCarried(None, rs);
    CarriedIsSum(Deltas(None, rs));
    Conservation(None, rs);
    DeltasNonnegative(None, rs);
    RowsConserveInputExactly(Deltas(None, rs));
  }

  lemma CountStep(rs: seq<Reading>, i: nat)
    requires i < |rs|
    ensures var w, kept, r := Window(Accepted(Ids(rs[..i]))), Kept(rs[..i]), rs[i];
            && Kept(rs[..i + 1]) == (if r.id in w then kept else kept + [r])
            && Window(Accepted(Ids(rs[..i + 1]))) == (if r.id in w then w else Window(w + [r.id]))
            && Rows(None, kept + [r]) == Rows(None, kept) + RowsFor(After(None, kept), r)
            && After(None, kept + [r]) == Some(r.next)
  {
    assert rs[..i + 1][..i] == rs[..i];
    var ids := Ids(rs[..i + 1]);
    assert ids[..i] == Ids(rs[..i]) && ids[..i + 1] == ids;
    AskNext(ids, i);
    RowsSnoc(None, Kept(rs[..i]), rs[i]);
  }

  /** The meter and its rows after the first `i` readings. */
  ghost predicate Counted(meter: Meter, rs: seq<Reading>, i: nat, rows: seq<Row>)
    requires i <= |rs|
    reads meter, meter.seen
  {
    && meter.seen.Valid() && (meter.tokens.Some? ==> ZERO.Below(meter.tokens.value))
    && meter.seen.xs == Window(Accepted(Ids(rs[..i])))
    && meter.tokens == After(None, Kept(rs[..i]))
    && rows == Rows(None, Kept(rs[..i]))
  }

  method CountNext(meter: Meter, rs: seq<Reading>, i: nat, rows0: seq<Row>) returns (rows: seq<Row>)
    requires i < |rs| && rs[i].Valid() && Counted(meter, rs, i, rows0)
    modifies meter, meter.seen
    ensures Counted(meter, rs, i + 1, rows)
  {
    CountStep(rs, i);
    var row := meter.TokenCount(rs[i]);
    rows := rows0 + (match row case None => [] case Some(x) => [x]);
  }

  lemma {:induction false} KeptAreRead(rs: seq<Reading>)
    ensures forall r | r in Kept(rs) :: r in rs
    decreases |rs|
  {
    if rs != [] {
      KeptAreRead(rs[..|rs| - 1]);
    }
  }

  lemma KeptConserve(rs: seq<Reading>)
    requires forall r | r in rs :: r.Valid()
    ensures var sum, total := SumRows(Rows(None, Kept(rs))), Totals(Kept(rs));
            && (sum.output, sum.cached, sum.cacheWrite) == (total.output, total.cached, total.cacheWrite)
            && sum.input >= total.input
            && (sum.input == total.input <==> forall d | d in Deltas(None, Kept(rs)) :: d.cached <= d.input)
  {
    KeptAreRead(rs);
    RowsConserveTokens(Kept(rs));
  }

  /** Read a whole rollout's token counts: the rows are those of the readings `Remember` lets through, and conserve their tokens. */
  method CountAll(rs: seq<Reading>) returns (rows: seq<Row>)
    requires forall r | r in rs :: r.Valid()
    ensures rows == Rows(None, Kept(rs))
    ensures var sum, total := SumRows(rows), Totals(Kept(rs));
            && (sum.output, sum.cached, sum.cacheWrite) == (total.output, total.cached, total.cacheWrite)
            && sum.input >= total.input
            && (sum.input == total.input <==> forall d | d in Deltas(None, Kept(rs)) :: d.cached <= d.input)
  {
    var seen := new Seen([]);
    var meter := new Meter(seen);
    rows := [];
    var i := 0;
    while i < |rs|
      invariant 0 <= i <= |rs|
      invariant fresh(meter) && fresh(meter.seen) && Counted(meter, rs, i, rows)
    {
      rows := CountNext(meter, rs, i, rows);
      i := i + 1;
    }
    assert rs[..|rs|] == rs;
    KeptConserve(rs);
  }

  lemma RowsOfOne(r: Reading)
    ensures Rows(None, [r]) == RowsFor(None, r)
  {
    assert [r][1..] == [];
    assert RowsFor(None, r) + [] == RowsFor(None, r);
  }

  lemma TotalsOfOne(r: Reading)
    requires r.last.None?
    ensures Totals([r]) == r.next
  {
    var one := [r];
    assert RunLength(one) == 1 && one[..1] == one && one[1..] == [];
    SegmentWithoutBreakdown(one);
    assert Totals(one) == SegmentTotal(one[..1]).Plus(ZERO);
  }

  lemma SumOfOne(row: Row)
    ensures SumRows([row]) == Tokens(row.input + row.cacheRead, row.output, row.cacheRead, row.cacheCreation)
  {
    assert [row][1..] == [];
    assert SumRows([]) == ZERO;
  }

  lemma ClampedRow(r: Reading)
    requires r.last.None? && r.next == Tokens(1, 0, 2, 0)
    ensures r.Valid() && RowsFor(None, r) == [Row(0, 0, 2, 0, false)]
  {
    assert Delta(None, r) == r.next;
  }

  /** More cached input than input: the row's input is clamped at zero, and the row carries the difference too much. */
  lemma CachedOverInput(r: Reading)
    requires r.last.None? && r.next == Tokens(1, 0, 2, 0)
    ensures r.Valid() && SumRows(Rows(None, [r])).input == 2 && Totals([r]).input == 1
  {
    RowsOfOne(r);
    TotalsOfOne(r);
    ClampedRow(r);
    SumOfOne(Row(0, 0, 2, 0, false));
  }
}
