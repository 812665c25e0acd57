/**
 Which edit action made which store record: positional where one author touched a file, by the authors'
 time windows where several did, and not at all where their windows intersect.

 `Given` is the plan for one file: the records an author's edits take, in order.  The methods carry it out
 on the actions in place, file by file.
 */
module Attribution {
  import opened Basics

  type Id = string
  type File = string

  const EDIT_TOOLS: set<string> := {"Edit", "Write", "MultiEdit", "NotebookEdit"}

  /** A store record: a record of the log, and what is kept of it for one file. */
  datatype LogEntry = LogEntry(tool: string, file: File, rec: Rec)
  datatype Rec = Rec(id: Id, ts: int)

  datatype Span = Span(lo: int, hi: int)

  /** The times of some edits, at least one. */
  type Moments = t: seq<int> | t != [] witness [0]

  /** An author of one file: a subagent, or the main chain, and the times of its edits there. */
  datatype Author = Author(agent: Option<string>, times: Moments)

  // ---------- windows ----------

  predicate Within(s: Span, ts: int)
  {
    s.lo <= ts <= s.hi
  }

  /** The first and the last moment. */
  function Window(times: Moments): (w: Span)
    ensures forall i | 0 <= i < |times| :: Within(w, times[i])
    ensures w.lo in times && w.hi in times
  {
    if |times| == 1 then Span(times[0], times[0])
    else var w := Window(times[..|times| - 1]); Span(Min(w.lo, times[|times| - 1]), Max(w.hi, times[|times| - 1]))
  }

  function Windows(authors: seq<Author>): (ws: seq<Span>)
    ensures |ws| == |authors| && forall k | 0 <= k < |ws| :: ws[k] == Window(authors[k].times) && ws[k].lo <= ws[k].hi
  {
    seq(|authors|, k requires 0 <= k < |authors| => Window(authors[k].times))
  }

  /** A moment belongs to both; touching ends count. */
  predicate Intersect(a: Span, b: Span)
  {
    a.lo <= b.hi && b.lo <= a.hi
  }

  predicate SomePairIntersects(ws: seq<Span>)
  {
    exists i, j | 0 <= i < j < |ws| :: Intersect(ws[i], ws[j])
  }

  function InsertSpan(w: Span, ws: seq<Span>): seq<Span>
  {
    if ws == [] || w.lo <= ws[0].lo then [w] + ws else [ws[0]] + InsertSpan(w, ws[1..])
  }

  function SortByStart(ws: seq<Span>): seq<Span>
  {
    if ws == [] then [] else InsertSpan(ws[0], SortByStart(ws[1..]))
  }

  ghost predicate ByStart(ws: seq<Span>)
  {
    forall i, j | 0 <= i < j < |ws| :: ws[i].lo <= ws[j].lo
  }

  ghost predicate Proper(ws: seq<Span>)
  {
    forall w | w in ws :: w.lo <= w.hi
  }

  /** Some window of the list meets this one. */
  ghost predicate Hits(w: Span, ws: seq<Span>)
  {
    exists x :: x in ws && Intersect(w, x)
  }

  lemma {:induction false} InsertSpanHolds(w: Span, ws: seq<Span>, x: Span)
    ensures x in InsertSpan(w, ws) <==> x == w || x in ws
    decreases |ws|
  {
    if ws != [] && w.lo > ws[0].lo {
      InsertSpanHolds(w, ws[1..], x);
      assert ws == [ws[0]] + ws[1..];
    }
  }

  lemma {:induction false} InsertSpanOrders(w: Span, ws: seq<Span>)
    requires ByStart(ws)
    ensures ByStart(InsertSpan(w, ws))
    decreases |ws|
  {
    if ws != [] && w.lo > ws[0].lo {
      InsertSpanOrders(w, ws[1..]);
      var r := InsertSpan(w, ws[1..]);
      forall k | 0 <= k < |r| ensures ws[0].lo <= r[k].lo {
        InsertSpanHolds(w, ws[1..], r[k]);
      }
    }
  }

  /** Pairs of a list with one more in front. */
  lemma PairsOfCons(w: Span, ws: seq<Span>)
    ensures SomePairIntersects([w] + ws) <==> Hits(w, ws) || SomePairIntersects(ws)
  {
    var all := [w] + ws;
    if SomePairIntersects(all) {
      var i, j :| 0 <= i < j < |all| && Intersect(all[i], all[j]);
      if i == 0 {
        assert ws[j - 1] in ws;
      } else {
        assert Intersect(ws[i - 1], ws[j - 1]);
      }
    }
    if Hits(w, ws) {
      var x :| x in ws && Intersect(w, x);
      var j :| 0 <= j < |ws| && ws[j] == x;
      assert Intersect(all[0], all[j + 1]);
    }
    if SomePairIntersects(ws) {
      var i, j :| 0 <= i < j < |ws| && Intersect(ws[i], ws[j]);
      assert Intersect(all[i + 1], all[j + 1]);
    }
  }

  lemma HitsCons(w: Span, x: Span, ws: seq<Span>)
    ensures Hits(w, [x] + ws) <==> Intersect(w, x) || Hits(w, ws)
  {
    assert x in [x] + ws;
    if Hits(w, ws) {
      var y :| y in ws && Intersect(w, y);
      assert y in [x] + ws;
    }
  }

  lemma HitsOfInsert(x: Span, w: Span, ws: seq<Span>)
    ensures Hits(x, InsertSpan(w, ws)) <==> Hits(x, [w] + ws)
  {
    forall y ensures y in InsertSpan(w, ws) <==> y in [w] + ws {
      InsertSpanHolds(w, ws, y);
    }
  }

  lemma {:induction false} InsertSpanPairs(w: Span, ws: seq<Span>)
    ensures SomePairIntersects(InsertSpan(w, ws)) <==> SomePairIntersects([w] + ws)
    decreases |ws|
  {
    if ws != [] && w.lo > ws[0].lo {
      var first, rest := ws[0], ws[1..];
      var r := InsertSpan(w, rest);
      InsertSpanPairs(w, rest);
      PairsOfCons(first, r);
      PairsOfCons(w, rest);
      PairsOfCons(w, ws);
      PairsOfCons(first, rest);
      assert ws == [first] + rest;
      HitsCons(w, first, rest);
      HitsOfInsert(first, w, rest);
      HitsCons(first, w, rest);
    }
  }

  /** Sorting by start orders the windows and keeps what intersects. */
  lemma {:induction false} SortKeepsPairs(ws: seq<Span>)
    ensures ByStart(SortByStart(ws))
    ensures SomePairIntersects(SortByStart(ws)) <==> SomePairIntersects(ws)
    ensures forall w :: w in SortByStart(ws) <==> w in ws
    decreases |ws|
  {
    if ws != [] {
      var rest := SortByStart(ws[1..]);
      SortKeepsPairs(ws[1..]);
      InsertSpanOrders(ws[0], rest);
      InsertSpanPairs(ws[0], rest);
      PairsOfCons(ws[0], rest);
      PairsOfCons(ws[0], ws[1..]);
      assert ws == [ws[0]] + ws[1..];
      forall w ensures w in SortByStart(ws) <==> w in ws {
        InsertSpanHolds(ws[0], rest, w);
      }
    }
  }

  /** [first, last] over the times of an author's edits. */
  method EditWindow(times: Moments) returns (w: Span)
    ensures w == Window(times)
  {
    w := Span(times[0], times[0]);
    assert times[..1] == [times[0]];
    var i := 1;
    while i < |times|
      invariant 1 <= i <= |times|
      invariant w == Window(times[..i])
    {
      assert times[..i + 1][..i] == times[..i];
      if times[i] < w.lo {
        w := w.(lo := times[i]);
      }
      if times[i] > w.hi {
        w := w.(hi := times[i]);
      }
      i := i + 1;
    }
    assert times[..|times|] == times;
  }

  /** The latest end of a list of windows; there is none of an empty one. */
  function LatestEnd(ws: seq<Span>): (e: Option<int>)
    ensures e.None? <==> ws == []
    ensures e.Some? ==> (forall w | w in ws :: w.hi <= e.value) && (exists w :: w in ws && w.hi == e.value)
  {
    if ws == [] then None
    else
      var last := ws[|ws| - 1];
      assert ws == ws[..|ws| - 1] + [last] && last in ws;
      var e := LatestEnd(ws[..|ws| - 1]);
      if e.None? || last.hi > e.value then Some(last.hi) else e
  }

  /** Pairs of a list with one more behind. */
  lemma PairsOfSnoc(ws: seq<Span>, w: Span)
    ensures SomePairIntersects(ws + [w]) <==> SomePairIntersects(ws) || Hits(w, ws)
  {
    var all := ws + [w];
    if SomePairIntersects(all) {
      var i, j :| 0 <= i < j < |all| && Intersect(all[i], all[j]);
      if j == |ws| {
        assert ws[i] in ws;
      } else {
        assert Intersect(ws[i], ws[j]);
      }
    }
    if Hits(w, ws) {
      var x :| x in ws && Intersect(w, x);
      var j :| 0 <= j < |ws| && ws[j] == x;
      assert Intersect(all[j], all[|ws|]);
    }
    if SomePairIntersects(ws) {
      var i, j :| 0 <= i < j < |ws| && Intersect(ws[i], ws[j]);
      assert Intersect(all[i], all[j]);
    }
  }

  /** A window that starts no earlier than those before it meets one exactly when they did not all end before it. */
  lemma HitsWhenStillOpen(ws: seq<Span>, w: Span)
    requires w.lo <= w.hi && forall x | x in ws :: x.lo <= w.lo
    ensures Hits(w, ws) <==> LatestEnd(ws).Some? && w.lo <= LatestEnd(ws).value
  {
    var e := LatestEnd(ws);
    if e.Some? && w.lo <= e.value {
      var x :| x in ws && x.hi == e.value;
      assert Intersect(w, x);
    }
  }

  /** One window further in the order of starts. */
  lemma SweepStep(ws: seq<Span>, i: nat)
    requires ByStart(ws) && Proper(ws) && i < |ws|
    ensures var e := LatestEnd(ws[..i]);
            SomePairIntersects(ws[..i + 1]) <==> SomePairIntersects(ws[..i]) || (e.Some? && ws[i].lo <= e.value)
  {
    assert ws[i] in ws;
    assert ws[..i + 1] == ws[..i] + [ws[i]];
    PairsOfSnoc(ws[..i], ws[i]);
    HitsWhenStillOpen(ws[..i], ws[i]);
  }

  /** The latest end with one more window. */
  lemma LatestEndStep(ws: seq<Span>, i: nat)
    requires i < |ws|
    ensures var e := LatestEnd(ws[..i]);
            LatestEnd(ws[..i + 1]) == if e.None? || ws[i].hi > e.value then Some(ws[i].hi) else e
  {
    assert ws[..i + 1][..i] == ws[..i];
  }

  lemma ProperSorted(ws: seq<Span>)
    requires Proper(ws)
    ensures Proper(SortByStart(ws))
  {
    SortKeepsPairs(ws);
  }

  lemma MorePairs(ws: seq<Span>, n: nat)
    requires n <= |ws| && SomePairIntersects(ws[..n])
    ensures SomePairIntersects(ws)
  {
    var j, k :| 0 <= j < k < n && Intersect(ws[..n][j], ws[..n][k]);
    assert Intersect(ws[j], ws[k]);
  }

  /** The sweep over the windows sorted by start finds an intersection exactly when some two windows meet. */
  method WindowsOverlap(ws: seq<Span>) returns (overlap: bool)
    requires Proper(ws)
    ensures overlap <==> SomePairIntersects(ws)
  {
    var sorted := SortByStart(ws);
    SortKeepsPairs(ws);
    ProperSorted(ws);
    var maxEnd: Option<int> := None;
    var i := 0;
    while i < |sorted|
      invariant 0 <= i <= |sorted|
      invariant maxEnd == LatestEnd(sorted[..i])
      invariant !SomePairIntersects(sorted[..i])
    {
      SweepStep(sorted, i);
      if maxEnd.Some? && sorted[i].lo <= maxEnd.value {
        MorePairs(sorted, i + 1);
        return true;
      }
      LatestEndStep(sorted, i);
      if maxEnd.None? || sorted[i].hi > maxEnd.value {
        maxEnd := Some(sorted[i].hi);
      }
      i := i + 1;
    }
    assert sorted[..i] == sorted;
    overlap := false;
  }

  // ---------- the plan for one file ----------

  function InWindow(recs: seq<Rec>, w: Span): (r: seq<Rec>)
    ensures forall x :: x in r <==> x in recs && Within(w, x.ts)
  {
    if recs == [] then [] else (if Within(w, recs[0].ts) then [recs[0]] else []) + InWindow(recs[1..], w)
  }

  function Without(recs: seq<Rec>, gone: set<Rec>): (r: seq<Rec>)
    ensures forall x :: x in r <==> x in recs && x !in gone
  {
    if recs == [] then [] else (if recs[0] in gone then [] else [recs[0]]) + Without(recs[1..], gone)
  }

  /** As many as there are edits for. */
  function FirstOf(recs: seq<Rec>, n: nat): seq<Rec>
  {
    recs[..Min(|recs|, n)]
  }

  function Elements(recs: seq<Rec>): (s: set<Rec>)
    ensures forall x :: x in s <==> x in recs
  {
    set x | x in recs
  }

  /** What a subagent's edits take of the records of its window. */
  function Takes(recs: seq<Rec>, a: Author): seq<Rec>
  {
    FirstOf(InWindow(recs, Window(a.times)), |a.times|)
  }

  /** The records the subagents among the first `n` authors take. */
  function ClaimedBy(recs: seq<Rec>, authors: seq<Author>, n: nat): set<Rec>
    requires n <= |authors|
  {
    if n == 0 then {}
    else
      var a := authors[n - 1];
      ClaimedBy(recs, authors, n - 1) +
      (if a.agent.None? then {} else Elements(Takes(recs, a)))
  }

  /** `k` is the first entry of the main chain. */
  predicate FirstMain(authors: seq<Author>, k: nat)
  {
    k < |authors| && authors[k].agent.None? && forall j | 0 <= j < k :: authors[j].agent.Some?
  }

  /** The records author `k` of a file may take, in order; its edits take as many as there are of them. */
  function Pool(recs: seq<Rec>, authors: seq<Author>, k: nat): seq<Rec>
    requires k < |authors|
  {
    if |authors| == 1 then recs
    else if SomePairIntersects(Windows(authors)) then []
    else if authors[k].agent.Some? then InWindow(recs, Window(authors[k].times))
    else if FirstMain(authors, k) then Without(recs, ClaimedBy(recs, authors, |authors|))
    else []
  }

  function Given(recs: seq<Rec>, authors: seq<Author>, k: nat): seq<Rec>
    requires k < |authors|
  {
    FirstOf(Pool(recs, authors, k), |authors[k].times|)
  }

  ghost predicate DistinctIds(recs: seq<Rec>)
  {
    forall i, j | 0 <= i < j < |recs| :: recs[i].id != recs[j].id
  }

  /** `part` is part of `whole`, in the same order. */
  ghost predicate Subsequence(part: seq<Rec>, whole: seq<Rec>)
  {
    part == [] ||
    (whole != [] && (Subsequence(part, whole[1..]) || (part[0] == whole[0] && Subsequence(part[1..], whole[1..]))))
  }

  lemma {:induction false} InWindowInOrder(recs: seq<Rec>, w: Span)
    ensures Subsequence(InWindow(recs, w), recs)
    decreases |recs|
  {
    if recs != [] {
      InWindowInOrder(recs[1..], w);
      var rest := InWindow(recs[1..], w);
      assert ([recs[0]] + rest)[1..] == rest && [] + rest == rest;
    }
  }

  lemma HeadIsDistinct(recs: seq<Rec>, part: seq<Rec>)
    requires recs != [] && DistinctIds(recs) && DistinctIds(part) && forall x | x in part :: x in recs[1..]
    ensures DistinctIds([recs[0]] + part)
  {
    forall i | 0 <= i < |part| ensures part[i].id != recs[0].id {
      assert part[i] in recs[1..];
      var j :| 0 <= j < |recs[1..]| && recs[1..][j] == part[i];
      assert recs[j + 1].id != recs[0].id;
    }
  }

  lemma {:induction false} InWindowDistinct(recs: seq<Rec>, w: Span)
    requires DistinctIds(recs)
    ensures DistinctIds(InWindow(recs, w))
    decreases |recs|
  {
    if recs != [] {
      InWindowDistinct(recs[1..], w);
      HeadIsDistinct(recs, InWindow(recs[1..], w));
    }
  }

  lemma {:induction false} WithoutInOrder(recs: seq<Rec>, gone: set<Rec>)
    ensures Subsequence(Without(recs, gone), recs)
    decreases |recs|
  {
    if recs != [] {
      WithoutInOrder(recs[1..], gone);
      var rest := Without(recs[1..], gone);
      assert ([recs[0]] + rest)[1..] == rest && [] + rest == rest;
    }
  }

  lemma {:induction false} WithoutDistinct(recs: seq<Rec>, gone: set<Rec>)
    requires DistinctIds(recs)
    ensures DistinctIds(Without(recs, gone))
    decreases |recs|
  {
    if recs != [] {
      WithoutDistinct(recs[1..], gone);
      HeadIsDistinct(recs, Without(recs[1..], gone));
    }
  }

  lemma {:induction false} PrefixInOrder(part: seq<Rec>, whole: seq<Rec>, n: nat)
    requires n <= |part| && Subsequence(part, whole)
    ensures Subsequence(part[..n], whole)
    decreases |whole|
  {
    if n > 0 {
      assert part[..n][0] == part[0];
      if Subsequence(part, whole[1..]) {
        PrefixInOrder(part, whole[1..], n);
      } else {
        PrefixInOrder(part[1..], whole[1..], n - 1);
        assert part[..n][1..] == part[1..][..n - 1];
      }
    }
  }

  lemma {:induction false} AllInOrder(recs: seq<Rec>)
    ensures Subsequence(recs, recs)
    decreases |recs|
  {
    if recs != [] {
      AllInOrder(recs[1..]);
    }
  }

  lemma PoolInOrder(recs: seq<Rec>, authors: seq<Author>, k: nat)
    requires k < |authors| && DistinctIds(recs)
    ensures Subsequence(Pool(recs, authors, k), recs)
    ensures DistinctIds(Pool(recs, authors, k))
  {
    if |authors| == 1 {
      AllInOrder(recs);
    } else if authors[k].agent.Some? {
      InWindowInOrder(recs, Window(authors[k].times));
      InWindowDistinct(recs, Window(authors[k].times));
    } else {
      WithoutInOrder(recs, ClaimedBy(recs, authors, |authors|));
      WithoutDistinct(recs, ClaimedBy(recs, authors, |authors|));
    }
  }

  /** An author's records keep the order of the store, and none comes twice. */
  lemma GivenInOrder(recs: seq<Rec>, authors: seq<Author>, k: nat)
    requires k < |authors| && DistinctIds(recs)
    ensures Subsequence(Given(recs, authors, k), recs)
    ensures DistinctIds(Given(recs, authors, k))
  {
    PoolInOrder(recs, authors, k);
    PrefixInOrder(Pool(recs, authors, k), recs, Min(|Pool(recs, authors, k)|, |authors[k].times|));
  }

  /** Among several authors a subagent gets only records inside its own window. */
  lemma SubagentStaysInItsWindow(recs: seq<Rec>, authors: seq<Author>, k: nat)
    requires k < |authors|
    requires |authors| > 1 && authors[k].agent.Some?
    ensures forall x | x in Given(recs, authors, k) :: x in recs && Within(Window(authors[k].times), x.ts)
  {
  }

  lemma {:induction false} ClaimedHolds(recs: seq<Rec>, authors: seq<Author>, n: nat, x: Rec)
    requires n <= |authors|
    ensures x in ClaimedBy(recs, authors, n) <==>
            exists k | 0 <= k < n :: authors[k].agent.Some? && x in Takes(recs, authors[k])
    decreases n
  {
    if n > 0 {
      ClaimedHolds(recs, authors, n - 1, x);
    }
  }

  /** No record is given to two authors. */
  lemma NoRecordTwice(recs: seq<Rec>, authors: seq<Author>, k: nat, l: nat, x: Rec)
    requires k < |authors| && l < |authors|
    requires x in Given(recs, authors, k) && x in Given(recs, authors, l)
    ensures k == l
  {
    if k != l {
      var ws := Windows(authors);
      assert |authors| > 1 && !SomePairIntersects(ws);
      ClaimedHolds(recs, authors, |authors|, x);
      if authors[k].agent.Some? && authors[l].agent.Some? {
        assert Within(ws[k], x.ts) && Within(ws[l], x.ts);
        assert Intersect(ws[k], ws[l]) && Intersect(ws[l], ws[k]);
      }
    }
  }

  lemma {:induction false} NothingClaimed(recs: seq<Rec>, authors: seq<Author>, n: nat)
    requires n <= |authors|
    requires forall k | 0 <= k < |authors| && authors[k].agent.Some? :: InWindow(recs, Window(authors[k].times)) == []
    ensures ClaimedBy(recs, authors, n) == {}
  {
    if n > 0 {
      NothingClaimed(recs, authors, n - 1);
    }
  }

  /** If the main chain is among the authors, it has a first entry. */
  lemma {:induction false} FirstMainBefore(authors: seq<Author>, k: nat) returns (first: nat)
    requires k < |authors| && authors[k].agent.None?
    ensures FirstMain(authors, first)
    decreases k
  {
    if j :| 0 <= j < k && authors[j].agent.None? {
      first := FirstMainBefore(authors, j);
    } else {
      first := k;
    }
  }

  lemma MainTakesWhatIsLeft(recs: seq<Rec>, authors: seq<Author>)
    requires |authors| > 1 && !SomePairIntersects(Windows(authors)) && ClaimedBy(recs, authors, |authors|) == {}
    ensures (forall k | 0 <= k < |authors| && authors[k].agent.None? :: Given(recs, authors, k) == [])
       <==> recs == [] || forall k | 0 <= k < |authors| :: authors[k].agent.Some?
  {
    if k :| 0 <= k < |authors| && authors[k].agent.None? {
      var first := FirstMainBefore(authors, k);
      if recs != [] {
        assert recs[0] in Without(recs, {});
      }
    }
  }

  /**
   Among several authors nothing is given to anyone exactly when two of their windows intersect, or when
   there is nothing to give: no record in a subagent's window, and none at all or no main chain to take it.
   */
  lemma SeveralAuthors(recs: seq<Rec>, authors: seq<Author>)
    requires |authors| > 1
    ensures (forall k | 0 <= k < |authors| :: Given(recs, authors, k) == [])
       <==> (|| SomePairIntersects(Windows(authors))
             || ((forall k | 0 <= k < |authors| && authors[k].agent.Some? :: InWindow(recs, Window(authors[k].times)) == [])
                 && (recs == [] || forall k | 0 <= k < |authors| :: authors[k].agent.Some?)))
  {
    if !SomePairIntersects(Windows(authors)) {
      forall k | 0 <= k < |authors| && authors[k].agent.Some?
        ensures Given(recs, authors, k) == [] <==> InWindow(recs, Window(authors[k].times)) == []
      {
      }
      if forall k | 0 <= k < |authors| && authors[k].agent.Some? :: InWindow(recs, Window(authors[k].times)) == [] {
        NothingClaimed(recs, authors, |authors|);
        MainTakesWhatIsLeft(recs, authors);
      }
    }
  }

  /** The moment lies in the window of a subagent. */
  predicate InSomeWindow(authors: seq<Author>, ts: int)
  {
    exists j | 0 <= j < |authors| && authors[j].agent.Some? :: Within(Window(authors[j].times), ts)
  }

  /** Every subagent has an edit for every record of its window. */
  predicate EnoughEdits(recs: seq<Rec>, authors: seq<Author>)
  {
    forall j | 0 <= j < |authors| && authors[j].agent.Some? :: |InWindow(recs, Window(authors[j].times))| <= |authors[j].times|
  }

  /** How many records come before the first that lies in a subagent's window. */
  function OutsideFirst(authors: seq<Author>, pool: seq<Rec>): (n: nat)
    ensures n <= |pool| && (forall i | 0 <= i < n :: !InSomeWindow(authors, pool[i].ts))
    ensures n < |pool| ==> InSomeWindow(authors, pool[n].ts)
  {
    if pool == [] || InSomeWindow(authors, pool[0].ts) then 0 else 1 + OutsideFirst(authors, pool[1..])
  }

  lemma InOneWindow(ws: seq<Span>, j: nat, l: nat, ts: int)
    ensures j < |ws| && l < |ws| && j != l && Within(ws[j], ts) && Within(ws[l], ts) ==> SomePairIntersects(ws)
  {
    if j < |ws| && l < |ws| && Within(ws[j], ts) && Within(ws[l], ts) {
      assert Intersect(ws[j], ws[l]) && Intersect(ws[l], ws[j]);
    }
  }

  /** The first record of its window that a subagent has no edit for is nobody's. */
  lemma LeftOver(recs: seq<Rec>, authors: seq<Author>, j: nat)
    requires DistinctIds(recs)
    requires !SomePairIntersects(Windows(authors)) && j < |authors| && authors[j].agent.Some?
    requires |InWindow(recs, Window(authors[j].times))| > |authors[j].times|
    ensures InWindow(recs, Window(authors[j].times))[|authors[j].times|] !in ClaimedBy(recs, authors, |authors|)
  {
    var ws := Windows(authors);
    var mine, n := InWindow(recs, ws[j]), |authors[j].times|;
    var x := mine[n];
    assert x in mine;
    InWindowDistinct(recs, ws[j]);
    assert x !in Takes(recs, authors[j]);
    ClaimedHolds(recs, authors, |authors|, x);
    forall l | 0 <= l < |authors| && l != j ensures x !in Takes(recs, authors[l]) {
      InOneWindow(ws, j, l, x.ts);
    }
  }

  lemma MainMeetsOneSubagent(recs: seq<Rec>, authors: seq<Author>, k: nat, j: nat)
    requires |authors| > 1 && FirstMain(authors, k) && DistinctIds(recs)
    requires !SomePairIntersects(Windows(authors)) && j < |authors| && authors[j].agent.Some?
    ensures (forall x | x in Pool(recs, authors, k) :: !Within(Window(authors[j].times), x.ts))
       <==> |InWindow(recs, Window(authors[j].times))| <= |authors[j].times|
  {
    var mine, n := InWindow(recs, Window(authors[j].times)), |authors[j].times|;
    if |mine| <= n {
      forall x | x in Pool(recs, authors, k) ensures !Within(Window(authors[j].times), x.ts) {
        ClaimedHolds(recs, authors, |authors|, x);
        assert Takes(recs, authors[j]) == mine;
      }
    } else {
      assert mine[n] in mine;
      LeftOver(recs, authors, j);
    }
  }

  lemma PoolIsOutside(recs: seq<Rec>, authors: seq<Author>, k: nat)
    requires |authors| > 1 && FirstMain(authors, k) && DistinctIds(recs)
    requires !SomePairIntersects(Windows(authors))
    ensures (forall x | x in Pool(recs, authors, k) :: !InSomeWindow(authors, x.ts)) <==> EnoughEdits(recs, authors)
  {
    var pool := Pool(recs, authors, k);
    forall j | 0 <= j < |authors| && authors[j].agent.Some?
      ensures (forall x | x in pool :: !Within(Window(authors[j].times), x.ts))
         <==> |InWindow(recs, Window(authors[j].times))| <= |authors[j].times|
    {
      MainMeetsOneSubagent(recs, authors, k, j);
    }
  }

  /**
   When every subagent has an edit for every record of its window, the main chain is given no record of any;
   and only then is none left over for it.  It does get one exactly when its edits reach the first left over.
   */
  lemma MainGetsTheRest(recs: seq<Rec>, authors: seq<Author>, k: nat)
    requires |authors| > 1 && FirstMain(authors, k) && DistinctIds(recs)
    requires !SomePairIntersects(Windows(authors))
    ensures EnoughEdits(recs, authors) ==> forall x | x in Given(recs, authors, k) :: !InSomeWindow(authors, x.ts)
    ensures EnoughEdits(recs, authors) <==> OutsideFirst(authors, Pool(recs, authors, k)) == |Pool(recs, authors, k)|
    ensures (exists x :: x in Given(recs, authors, k) && InSomeWindow(authors, x.ts))
       <==> OutsideFirst(authors, Pool(recs, authors, k)) < |Given(recs, authors, k)|
  {
    PoolIsOutside(recs, authors, k);
    var pool, given := Pool(recs, authors, k), Given(recs, authors, k);
    var n := OutsideFirst(authors, pool);
    if n == |pool| {
      forall x | x in pool ensures !InSomeWindow(authors, x.ts) {
        var i :| 0 <= i < |pool| && pool[i] == x;
      }
    } else {
      assert pool[n] in pool;
    }
    if n < |given| {
      assert given[n] in given && given[n] == pool[n];
    }
    if x :| x in given && InSomeWindow(authors, x.ts) {
      var i :| 0 <= i < |given| && given[i] == x;
      assert pool[i] == x;
    }
  }

  // ---------- who is given what, exactly ----------

  /** How many of the first `i` records are kept. */
  ghost function CountBefore(recs: seq<Rec>, keep: Rec -> bool, i: nat): nat
    requires i <= |recs|
  {
    if i == 0 then 0 else CountBefore(recs, keep, i - 1) + (if keep(recs[i - 1]) then 1 else 0)
  }

  lemma {:induction false} CountFromHead(recs: seq<Rec>, keep: Rec -> bool, i: nat)
    requires 0 < i <= |recs|
    ensures CountBefore(recs, keep, i) == (if keep(recs[0]) then 1 else 0) + CountBefore(recs[1..], keep, i - 1)
    decreases i
  {
    if i > 1 {
      CountFromHead(recs, keep, i - 1);
    }
  }

  lemma {:induction false} SameCount(recs: seq<Rec>, keep: Rec -> bool, other: Rec -> bool, i: nat)
    requires i <= |recs| && forall x | x in recs :: keep(x) <==> other(x)
    ensures CountBefore(recs, keep, i) == CountBefore(recs, other, i)
    decreases i
  {
    if i > 0 {
      SameCount(recs, keep, other, i - 1);
      assert recs[i - 1] in recs;
    }
  }

  /** `part` has the kept records, each in its turn. */
  ghost predicate Keeps(part: seq<Rec>, recs: seq<Rec>, keep: Rec -> bool)
  {
    forall i | 0 <= i < |recs| && keep(recs[i]) ::
      CountBefore(recs, keep, i) < |part| && part[CountBefore(recs, keep, i)] == recs[i]
  }

  lemma KeepsCons(part: seq<Rec>, recs: seq<Rec>, keep: Rec -> bool)
    requires recs != [] && Keeps(part, recs[1..], keep)
    ensures Keeps((if keep(recs[0]) then [recs[0]] else []) + part, recs, keep)
  {
    var head := if keep(recs[0]) then [recs[0]] else [];
    forall i | 0 <= i < |recs| && keep(recs[i])
      ensures CountBefore(recs, keep, i) < |head + part| && (head + part)[CountBefore(recs, keep, i)] == recs[i]
    {
      if i > 0 {
        CountFromHead(recs, keep, i);
        assert recs[1..][i - 1] == recs[i];
        assert CountBefore(recs[1..], keep, i - 1) < |part| && part[CountBefore(recs[1..], keep, i - 1)] == recs[1..][i - 1];
      }
    }
  }

  lemma {:induction false} InWindowKeeps(recs: seq<Rec>, w: Span)
    ensures Keeps(InWindow(recs, w), recs, (x: Rec) => Within(w, x.ts))
    decreases |recs|
  {
    if recs != [] {
      InWindowKeeps(recs[1..], w);
      KeepsCons(InWindow(recs[1..], w), recs, (x: Rec) => Within(w, x.ts));
    }
  }

  lemma {:induction false} WithoutKeeps(recs: seq<Rec>, gone: set<Rec>)
    ensures Keeps(Without(recs, gone), recs, (x: Rec) => x !in gone)
    decreases |recs|
  {
    if recs != [] {
      WithoutKeeps(recs[1..], gone);
      KeepsCons(Without(recs[1..], gone), recs, (x: Rec) => x !in gone);
    }
  }

  lemma {:induction false} AllKept(recs: seq<Rec>, i: nat)
    requires i <= |recs|
    ensures CountBefore(recs, (x: Rec) => true, i) == i
    decreases i
  {
    if i > 0 {
      AllKept(recs, i - 1);
    }
  }

  /** The record stands in line for author `k`. */
  ghost predicate InLine(recs: seq<Rec>, authors: seq<Author>, k: nat, x: Rec)
    requires k < |authors|
  {
    |authors| == 1 ||
    (&& !SomePairIntersects(Windows(authors))
     && if authors[k].agent.Some? then Within(Window(authors[k].times), x.ts)
        else FirstMain(authors, k) && forall j | 0 <= j < |authors| && authors[j].agent.Some? :: x !in Given(recs, authors, j))
  }

  lemma ClaimedIsGiven(recs: seq<Rec>, authors: seq<Author>, x: Rec)
    requires 1 < |authors| && !SomePairIntersects(Windows(authors))
    ensures x in ClaimedBy(recs, authors, |authors|) <==>
            exists j | 0 <= j < |authors| :: authors[j].agent.Some? && x in Given(recs, authors, j)
  {
    ClaimedHolds(recs, authors, |authors|, x);
    forall j | 0 <= j < |authors| && authors[j].agent.Some? ensures Given(recs, authors, j) == Takes(recs, authors[j]) {
    }
  }

  lemma KeepsSame(part: seq<Rec>, recs: seq<Rec>, keep: Rec -> bool, other: Rec -> bool)
    requires Keeps(part, recs, keep) && forall x | x in recs :: keep(x) <==> other(x)
    ensures Keeps(part, recs, other)
  {
    forall i | 0 <= i < |recs| && other(recs[i])
      ensures CountBefore(recs, other, i) < |part| && part[CountBefore(recs, other, i)] == recs[i]
    {
      SameCount(recs, keep, other, i);
      assert recs[i] in recs && keep(recs[i]);
    }
  }

  lemma SubagentLine(recs: seq<Rec>, authors: seq<Author>, k: nat)
    requires k < |authors| && 1 < |authors| && !SomePairIntersects(Windows(authors)) && authors[k].agent.Some?
    ensures Keeps(Pool(recs, authors, k), recs, (x: Rec) => InLine(recs, authors, k, x))
  {
    var w := Window(authors[k].times);
    InWindowKeeps(recs, w);
    KeepsSame(InWindow(recs, w), recs, (x: Rec) => Within(w, x.ts), (x: Rec) => InLine(recs, authors, k, x));
  }

  lemma MainLine(recs: seq<Rec>, authors: seq<Author>, k: nat)
    requires k < |authors| && 1 < |authors| && !SomePairIntersects(Windows(authors)) && FirstMain(authors, k)
    ensures Keeps(Pool(recs, authors, k), recs, (x: Rec) => InLine(recs, authors, k, x))
    ensures forall x :: x in Pool(recs, authors, k) <==> x in recs && InLine(recs, authors, k, x)
  {
    var gone := ClaimedBy(recs, authors, |authors|);
    WithoutKeeps(recs, gone);
    forall x ensures x !in gone <==> InLine(recs, authors, k, x) {
      ClaimedIsGiven(recs, authors, x);
    }
    KeepsSame(Without(recs, gone), recs, (x: Rec) => x !in gone, (x: Rec) => InLine(recs, authors, k, x));
  }

  /** The pool is exactly the line. */
  lemma PoolIsTheLine(recs: seq<Rec>, authors: seq<Author>, k: nat)
    requires k < |authors|
    ensures Keeps(Pool(recs, authors, k), recs, (x: Rec) => InLine(recs, authors, k, x))
    ensures forall x :: x in Pool(recs, authors, k) <==> x in recs && InLine(recs, authors, k, x)
  {
    var line := (x: Rec) => InLine(recs, authors, k, x);
    if |authors| == 1 {
      forall i | 0 <= i < |recs| ensures CountBefore(recs, line, i) == i {
        AllKept(recs, i);
        SameCount(recs, line, (x: Rec) => true, i);
      }
    } else if !SomePairIntersects(Windows(authors)) {
      if authors[k].agent.Some? {
        SubagentLine(recs, authors, k);
      } else if FirstMain(authors, k) {
        MainLine(recs, authors, k);
      }
    }
  }

  lemma InFront(recs: seq<Rec>, n: nat, c: nat)
    requires DistinctIds(recs) && c < |recs|
    ensures recs[c] in FirstOf(recs, n) <==> c < n
  {
    var front := FirstOf(recs, n);
    assert c < n ==> c < |front| && front[c] == recs[c];
    if recs[c] in front {
      var p :| 0 <= p < |front| && front[p] == recs[c];
      assert recs[p].id == recs[c].id;
    }
  }

  /**
   Who is given which record: a record that stands in line for an author, if fewer than the author's edits stand
   in that line before it.  Among several authors with disjoint windows a subagent's line is the records of its
   window, and that of the main chain those no subagent is given; a single author's line is all of them.
   */
  lemma GivenExactly(recs: seq<Rec>, authors: seq<Author>, k: nat, i: nat)
    requires DistinctIds(recs) && k < |authors| && i < |recs|
    ensures recs[i] in Given(recs, authors, k) <==>
            InLine(recs, authors, k, recs[i]) && CountBefore(recs, (x: Rec) => InLine(recs, authors, k, x), i) < |authors[k].times|
  {
    var pool, line := Pool(recs, authors, k), (x: Rec) => InLine(recs, authors, k, x);
    PoolIsTheLine(recs, authors, k);
    PoolInOrder(recs, authors, k);
    var given := Given(recs, authors, k);
    assert recs[i] in given ==> recs[i] in pool;
    if InLine(recs, authors, k, recs[i]) {
      assert line(recs[i]);
      InFront(pool, |authors[k].times|, CountBefore(recs, line, i));
    }
  }

  lemma LeftoverInWindow(recs: seq<Rec>, w: Span)
    requires |recs| == 3 && Within(w, recs[0].ts) && Within(w, recs[1].ts) && Within(w, recs[2].ts)
    ensures InWindow(recs, w) == recs
  {
    var rest := recs[1..];
    assert rest[0] == recs[1] && rest[1..] == recs[2..];
    assert recs[2..] == [recs[2]] && recs[2..][1..] == [];
    assert InWindow(recs[2..], w) == [recs[2]] + InWindow([], w);
  }

  lemma LeftoverWithout(recs: seq<Rec>, gone: set<Rec>)
    requires |recs| == 3 && recs[0] in gone && recs[1] in gone && recs[2] !in gone
    ensures Without(recs, gone) == recs[2..]
  {
    var rest := recs[1..];
    assert rest[0] == recs[1] && rest[1..] == recs[2..];
    assert recs[2..] == [recs[2]] && recs[2..][1..] == [];
    assert Without(recs[2..], gone) == [recs[2]] + Without([], gone);
  }

  lemma LeftoverAuthors(authors: seq<Author>)
    requires authors == [Author(Some("sub"), [1, 3]), Author(None, [9])]
    ensures Window(authors[0].times) == Span(1, 3) && !SomePairIntersects(Windows(authors)) && FirstMain(authors, 1)
  {
    var sub: Moments := [1, 3];
    assert sub[..1] == [1] && Window(sub) == Span(1, 3) && Window([9]) == Span(9, 9);
  }

  lemma LeftoverClaims(recs: seq<Rec>, authors: seq<Author>)
    requires |authors| == 2 && authors[0].agent.Some? && authors[1].agent.None?
    ensures ClaimedBy(recs, authors, 2) == Elements(Takes(recs, authors[0]))
  {
    assert ClaimedBy(recs, authors, 1) == Elements(Takes(recs, authors[0]));
  }

  /** A subagent with two edits and three records in its window: the main chain, with one edit, gets the third. */
  lemma MainGetsALeftover(recs: seq<Rec>, authors: seq<Author>)
    requires recs == [Rec("a", 1), Rec("b", 2), Rec("c", 3)]
    requires authors == [Author(Some("sub"), [1, 3]), Author(None, [9])]
    ensures DistinctIds(recs) && !SomePairIntersects(Windows(authors)) && FirstMain(authors, 1)
    ensures Given(recs, authors, 0) == recs[..2] && Given(recs, authors, 1) == recs[2..]
    ensures Within(Window(authors[0].times), recs[2].ts)
  {
    LeftoverAuthors(authors);
    LeftoverClaims(recs, authors);
    var gone := Elements(recs[..2]);
    assert recs[..2] == [recs[0], recs[1]] && recs[2..] == [recs[2]];
    LeftoverInWindow(recs, Span(1, 3));
    LeftoverWithout(recs, gone);
  }

  // ---------- carrying it out ----------

  class ActionRecord {
    const category: string
    const target: File
    const ts: int
    var editId: Option<Id>

    constructor (category: string, target: File, ts: int)
      ensures this.category == category && this.target == target && this.ts == ts && editId == None
    {
      this.category, this.target, this.ts := category, target, ts;
      editId := None;
    }
  }

  /** An author's edits, on all files or on one. */
  datatype EditAuthor = EditAuthor(agent: Option<string>, acts: seq<ActionRecord>)

  function Times(acts: seq<ActionRecord>): (t: seq<int>)
    ensures |t| == |acts|
  {
    seq(|acts|, i requires 0 <= i < |acts| => acts[i].ts)
  }

  ghost predicate Busy(authors: seq<EditAuthor>)
  {
    forall a | a in authors :: a.acts != []
  }

  function ViewOf(authors: seq<EditAuthor>, k: nat): Author
    requires Busy(authors) && k < |authors|
  {
    assert authors[k] in authors;
    Author(authors[k].agent, Times(authors[k].acts))
  }

  function View(authors: seq<EditAuthor>): (v: seq<Author>)
    requires Busy(authors)
    ensures |v| == |authors|
    ensures forall k | 0 <= k < |v| :: v[k] == ViewOf(authors, k)
  {
    seq(|authors|, k requires 0 <= k < |authors| => ViewOf(authors, k))
  }

  /** The window of every author. */
  method EditWindows(authors: seq<EditAuthor>) returns (ws: seq<Span>)
    requires Busy(authors)
    ensures ws == Windows(View(authors))
  {
    ws := [];
    var k := 0;
    while k < |authors|
      invariant 0 <= k == |ws| <= |authors|
      invariant ws == Windows(View(authors))[..k]
    {
      var w := EditWindow(View(authors)[k].times);
      ws := ws + [w];
      k := k + 1;
    }
  }

  ghost predicate NoDuplicates(acts: seq<ActionRecord>)
  {
    forall i, j | 0 <= i < j < |acts| :: acts[i] != acts[j]
  }

  ghost predicate NoAliases(authors: seq<EditAuthor>)
  {
    && (forall k | 0 <= k < |authors| :: NoDuplicates(authors[k].acts))
    && (forall k, l, a | 0 <= k < l < |authors| :: !(a in authors[k].acts && a in authors[l].acts))
  }

  ghost function AllActs(authors: seq<EditAuthor>): (all: set<ActionRecord>)
    ensures forall k, a | 0 <= k < |authors| && a in authors[k].acts :: a in all
    ensures forall a | a in all :: exists k | 0 <= k < |authors| :: a in authors[k].acts
  {
    set k, a | 0 <= k < |authors| && a in authors[k].acts :: a
  }

  /** The ids the actions carry. */
  ghost function Ids(acts: set<ActionRecord>): map<ActionRecord, Option<Id>>
    reads acts
  {
    map a | a in acts :: a.editId
  }

  function AfterLink(recs: seq<Rec>, i: nat, was: Option<Id>): Option<Id>
  {
    if i < |recs| then Some(recs[i].id) else was
  }

  /** Give the records to the actions, position by position, as long as there are both. */
  method Link(acts: seq<ActionRecord>, recs: seq<Rec>)
    requires NoDuplicates(acts)
    modifies acts
    ensures forall i | 0 <= i < |acts| :: acts[i].editId == AfterLink(recs, i, old(acts[i].editId))
  {
    var i := 0;
    while i < |recs| && i < |acts|
      invariant 0 <= i <= |recs| && i <= |acts|
      invariant forall j | 0 <= j < |acts| :: acts[j].editId == AfterLink(recs[..i], j, old(acts[j].editId))
    {
      acts[i].editId := Some(recs[i].id);
      i := i + 1;
    }
  }

  /** These edits took these records; an edit with no record kept the id it had. */
  ghost predicate Took(acts: seq<ActionRecord>, recs: seq<Rec>, was: map<ActionRecord, Option<Id>>)
    reads acts
  {
    forall i | 0 <= i < |acts| :: acts[i] in was && acts[i].editId == AfterLink(recs, i, was[acts[i]])
  }

  method LinkAuthor(authors: seq<EditAuthor>, k: nat, recs: seq<Rec>, ghost was: map<ActionRecord, Option<Id>>)
    requires k < |authors| && NoAliases(authors) && Took(authors[k].acts, [], was)
    modifies authors[k].acts
    ensures Took(authors[k].acts, recs, was)
    ensures forall l, r | 0 <= l < |authors| && l != k :: old(Took(authors[l].acts, r, was)) ==> Took(authors[l].acts, r, was)
  {
    Link(authors[k].acts, recs);
    forall l | 0 <= l < |authors| && l != k
      ensures forall i | 0 <= i < |authors[l].acts| :: authors[l].acts[i].editId == old(authors[l].acts[i].editId)
    {
      forall i | 0 <= i < |authors[l].acts| ensures authors[l].acts[i].editId == old(authors[l].acts[i].editId) {
        assert authors[l].acts[i] in authors[l].acts;
        assert authors[l].acts[i] !in authors[k].acts;
      }
    }
  }

  /** Taking from a list is taking what it has for as many edits as there are. */
  lemma TookFirst(acts: seq<ActionRecord>, recs: seq<Rec>, was: map<ActionRecord, Option<Id>>)
    ensures Took(acts, recs, was) <==> Took(acts, FirstOf(recs, |acts|), was)
  {
    assert forall i, o | 0 <= i < |acts| :: AfterLink(recs, i, o) == AfterLink(FirstOf(recs, |acts|), i, o);
  }

  /** What author `k` has after the first `n` authors were served: its records if it is a subagent among them. */
  function Share(authors: seq<EditAuthor>, recs: seq<Rec>, n: nat, k: nat): seq<Rec>
    requires Busy(authors) && n <= |authors| && k < |authors|
  {
    assert authors[k] in authors;
    if k < n && authors[k].agent.Some? then Takes(recs, View(authors)[k]) else []
  }

  ghost predicate Served(authors: seq<EditAuthor>, recs: seq<Rec>, n: nat, was: map<ActionRecord, Option<Id>>)
    requires Busy(authors) && n <= |authors|
    reads AllActs(authors)
  {
    forall k | 0 <= k < |authors| :: Took(authors[k].acts, Share(authors, recs, n, k), was)
  }

  lemma SharesOneMore(authors: seq<EditAuthor>, recs: seq<Rec>, k: nat)
    requires Busy(authors) && k < |authors|
    ensures forall l | 0 <= l < |authors| && l != k :: Share(authors, recs, k + 1, l) == Share(authors, recs, k, l)
    ensures Share(authors, recs, k + 1, k) ==
            if authors[k].agent.Some? then FirstOf(InWindow(recs, Window(ViewOf(authors, k).times)), |authors[k].acts|) else []
    ensures Share(authors, recs, k, k) == []
  {
  }

  /** Author by author, the window of its edits. */
  ghost predicate AreWindows(authors: seq<EditAuthor>, windows: seq<Span>)
    requires Busy(authors)
  {
    |windows| == |authors| && forall k | 0 <= k < |windows| :: windows[k] == Window(ViewOf(authors, k).times)
  }

  /** Author `k`, when it is a subagent. */
  method ServeOne(authors: seq<EditAuthor>, recs: seq<Rec>, windows: seq<Span>, k: nat, claimed0: set<Rec>, ghost was: map<ActionRecord, Option<Id>>)
      returns (claimed: set<Rec>)
    requires Busy(authors) && NoAliases(authors) && k < |authors| && Served(authors, recs, k, was)
    requires claimed0 == ClaimedBy(recs, View(authors), k) && AreWindows(authors, windows)
    modifies AllActs(authors)
    ensures Served(authors, recs, k + 1, was)
    ensures claimed == ClaimedBy(recs, View(authors), k + 1)
  {
    claimed := claimed0;
    if authors[k].agent.Some? {
      var inWin := InWindow(recs, windows[k]);
      LinkAuthor(authors, k, inWin, was);
      TookFirst(authors[k].acts, inWin, was);
      claimed := claimed + Elements(FirstOf(inWin, |authors[k].acts|));
    }
    SharesOneMore(authors, recs, k);
  }

  /** The subagents, each on the records of its window. */
  method ServeSubagents(authors: seq<EditAuthor>, recs: seq<Rec>, windows: seq<Span>, ghost was: map<ActionRecord, Option<Id>>)
      returns (claimed: set<Rec>)
    requires Busy(authors) && NoAliases(authors) && Served(authors, recs, 0, was) && AreWindows(authors, windows)
    modifies AllActs(authors)
    ensures Served(authors, recs, |authors|, was)
    ensures claimed == ClaimedBy(recs, View(authors), |authors|)
  {
    claimed := {};
    ghost var view := View(authors);
    var k := 0;
    while k < |authors|
      invariant 0 <= k <= |authors|
      invariant Served(authors, recs, k, was)
      invariant claimed == ClaimedBy(recs, view, k)
    {
      claimed := ServeOne(authors, recs, windows, k, claimed, was);
      k := k + 1;
    }
  }

  /** The first entry of the main chain, or the number of authors when there is none. */
  method FindMain(authors: seq<EditAuthor>) returns (k: nat)
    requires Busy(authors)
    ensures k <= |authors| && (k < |authors| ==> FirstMain(View(authors), k))
    ensures forall j | 0 <= j < k :: authors[j].agent.Some?
  {
    k := 0;
    while k < |authors| && authors[k].agent.Some?
      invariant k <= |authors|
      invariant forall j | 0 <= j < k :: authors[j].agent.Some?
    {
      k := k + 1;
    }
  }

  /** The plan for one file is carried out. */
  ghost predicate Carried(authors: seq<EditAuthor>, recs: seq<Rec>, was: map<ActionRecord, Option<Id>>)
    requires Busy(authors)
    reads AllActs(authors)
  {
    forall k | 0 <= k < |authors| :: Took(authors[k].acts, Given(recs, View(authors), k), was)
  }

  /** The main chain, if there is one, on what is left. */
  method ServeMain(authors: seq<EditAuthor>, recs: seq<Rec>, rest: seq<Rec>, main: nat, ghost was: map<ActionRecord, Option<Id>>)
    requires Busy(authors) && NoAliases(authors) && Served(authors, recs, |authors|, was)
    requires main <= |authors| && (main < |authors| ==> authors[main].agent.None?)
    modifies AllActs(authors)
    ensures forall k | 0 <= k < |authors| && k != main :: Took(authors[k].acts, Share(authors, recs, |authors|, k), was)
    ensures main < |authors| ==> Took(authors[main].acts, FirstOf(rest, |authors[main].acts|), was)
  {
    if main < |authors| {
      LinkAuthor(authors, main, rest, was);
      TookFirst(authors[main].acts, rest, was);
    }
  }

  /** The plan among several authors with disjoint windows, case by case. */
  lemma SharedPlan(authors: seq<EditAuthor>, recs: seq<Rec>, k: nat, main: nat)
    requires |authors| > 1 && Busy(authors) && k < |authors|
    requires !SomePairIntersects(Windows(View(authors)))
    requires main <= |authors| && (main < |authors| ==> FirstMain(View(authors), main))
    requires forall j | 0 <= j < main :: authors[j].agent.Some?
    ensures Given(recs, View(authors), k) ==
            if authors[k].agent.Some? then Share(authors, recs, |authors|, k)
            else if k == main then FirstOf(Without(recs, ClaimedBy(recs, View(authors), |authors|)), |authors[k].acts|)
            else []
  {
    assert authors[k].agent.None? && k != main ==> !FirstMain(View(authors), k);
  }

  /** When the subagents have their share and the main chain what is left, the plan is carried out. */
  lemma AllServed(authors: seq<EditAuthor>, recs: seq<Rec>, main: nat, was: map<ActionRecord, Option<Id>>)
    requires |authors| > 1 && Busy(authors) && !SomePairIntersects(Windows(View(authors)))
    requires main <= |authors| && (main < |authors| ==> FirstMain(View(authors), main))
    requires forall j | 0 <= j < main :: authors[j].agent.Some?
    requires forall k | 0 <= k < |authors| && k != main :: Took(authors[k].acts, Share(authors, recs, |authors|, k), was)
    requires main < |authors| ==>
               Took(authors[main].acts, FirstOf(Without(recs, ClaimedBy(recs, View(authors), |authors|)), |authors[main].acts|), was)
    ensures Carried(authors, recs, was)
  {
    forall k | 0 <= k < |authors| ensures Took(authors[k].acts, Given(recs, View(authors), k), was) {
      SharedPlan(authors, recs, k, main);
    }
  }

  /** Several authors whose windows are disjoint: the subagents first, then the main chain on what is left. */
  method AttributeShared(authors: seq<EditAuthor>, recs: seq<Rec>, windows: seq<Span>, ghost was: map<ActionRecord, Option<Id>>)
    requires |authors| > 1 && Busy(authors) && NoAliases(authors) && Served(authors, recs, 0, was)
    requires windows == Windows(View(authors)) && !SomePairIntersects(windows)
    modifies AllActs(authors)
    ensures Carried(authors, recs, was)
  {
    var claimed := ServeSubagents(authors, recs, windows, was);
    var main := FindMain(authors);
    ServeMain(authors, recs, Without(recs, claimed), main, was);
    AllServed(authors, recs, main, was);
  }

  /** One file: its records to its authors' edits, in place. */
  method AttributeFile(authors: seq<EditAuthor>, recs: seq<Rec>, ghost was: map<ActionRecord, Option<Id>>)
    requires authors != [] && Busy(authors) && NoAliases(authors) && Served(authors, recs, 0, was)
    modifies AllActs(authors)
    ensures Carried(authors, recs, was)
  {
    if |authors| == 1 {
      LinkAuthor(authors, 0, recs, was);
      TookFirst(authors[0].acts, recs, was);
      return;
    }
    var windows := EditWindows(authors);
    var overlap := WindowsOverlap(windows);
    if !overlap {
      AttributeShared(authors, recs, windows, was);
    }
  }

  // ---------- all files ----------

  /** The store records of one file, in the order of the log. */
  function RecordsOf(log: seq<LogEntry>, file: File): seq<Rec>
  {
    if log == [] then []
    else
      var e := log[|log| - 1];
      RecordsOf(log[..|log| - 1], file) + (if e.tool in EDIT_TOOLS && e.file == file then [e.rec] else [])
  }

  /** An author's edits of one file, in the order of its transcript. */
  function EditsOf(acts: seq<ActionRecord>, file: File): (r: seq<ActionRecord>)
    ensures forall a | a in r :: a in acts && a.category == "edit" && a.target == file
  {
    if acts == [] then []
    else
      var a := acts[|acts| - 1];
      EditsOf(acts[..|acts| - 1], file) + (if a.category == "edit" && a.target == file then [a] else [])
  }

  /** The authors with edits of one file. */
  function AuthorsOf(authors: seq<EditAuthor>, file: File): (r: seq<EditAuthor>)
    ensures Busy(r)
  {
    if authors == [] then []
    else
      var a := authors[|authors| - 1];
      var acts := EditsOf(a.acts, file);
      AuthorsOf(authors[..|authors| - 1], file) + (if acts == [] then [] else [EditAuthor(a.agent, acts)])
  }

  /** `part` is those of `values` that are chosen, in their order; `at` are their places. */
  ghost predicate Selects<T>(part: seq<T>, values: seq<T>, chosen: seq<bool>, at: seq<nat>)
  {
    && |part| == |at| && |values| == |chosen|
    && (forall k, l | 0 <= k < l < |at| :: at[k] < at[l])
    && (forall i: nat :: i in at <==> i < |chosen| && chosen[i])
    && (forall k | 0 <= k < |at| :: at[k] < |values| && part[k] == values[at[k]])
  }

  lemma SelectsMore<T>(part: seq<T>, values: seq<T>, chosen: seq<bool>, at: seq<nat>, v: T, last: bool,
                       part': seq<T>, values': seq<T>, chosen': seq<bool>)
    requires Selects(part, values, chosen, at)
    requires part' == (if last then part + [v] else part) && values' == values + [v] && chosen' == chosen + [last]
    ensures Selects(part', values', chosen', if last then at + [|values|] else at)
  {
    var n := |values|;
    assert forall i | 0 <= i < n :: chosen'[i] == chosen[i] && values'[i] == values[i];
    if last {
      assert forall i: nat :: i in at + [n] <==> i in at || i == n;
    }
  }

  /** The store records of one file, by what the log says. */
  ghost function EditsInLog(log: seq<LogEntry>, file: File): (chosen: seq<bool>)
    ensures |chosen| == |log| && forall i | 0 <= i < |log| :: chosen[i] == (log[i].tool in EDIT_TOOLS && log[i].file == file)
  {
    seq(|log|, i requires 0 <= i < |log| => log[i].tool in EDIT_TOOLS && log[i].file == file)
  }

  ghost function RecordsIn(log: seq<LogEntry>): (recs: seq<Rec>)
    ensures |recs| == |log| && forall i | 0 <= i < |log| :: recs[i] == log[i].rec
  {
    seq(|log|, i requires 0 <= i < |log| => log[i].rec)
  }

  lemma RecordsSnoc(log: seq<LogEntry>, e: LogEntry, file: File)
    ensures RecordsIn(log + [e]) == RecordsIn(log) + [e.rec]
    ensures EditsInLog(log + [e], file) == EditsInLog(log, file) + [e.tool in EDIT_TOOLS && e.file == file]
    ensures RecordsOf(log + [e], file) == RecordsOf(log, file) + (if e.tool in EDIT_TOOLS && e.file == file then [e.rec] else [])
  {
    assert (log + [e])[..|log|] == log;
  }

  lemma RecordsStep(log: seq<LogEntry>, e: LogEntry, file: File, at: seq<nat>) returns (at': seq<nat>)
    requires Selects(RecordsOf(log, file), RecordsIn(log), EditsInLog(log, file), at)
    ensures Selects(RecordsOf(log + [e], file), RecordsIn(log + [e]), EditsInLog(log + [e], file), at')
  {
    var last := e.tool in EDIT_TOOLS && e.file == file;
    RecordsSnoc(log, e, file);
    SelectsMore(RecordsOf(log, file), RecordsIn(log), EditsInLog(log, file), at, e.rec, last,
                RecordsOf(log + [e], file), RecordsIn(log + [e]), EditsInLog(log + [e], file));
    at' := if last then at + [|log|] else at;
  }

  /** Every record an edit tool logged for the file is taken, in the order of the log, and no other. */
  lemma {:induction false} RecordsExactly(log: seq<LogEntry>, file: File) returns (at: seq<nat>)
    ensures Selects(RecordsOf(log, file), RecordsIn(log), EditsInLog(log, file), at)
    decreases |log|
  {
    at := [];
    if log != [] {
      var n := |log| - 1;
      at := RecordsExactly(log[..n], file);
      at := RecordsStep(log[..n], log[n], file, at);
      assert log == log[..n] + [log[n]];
    }
  }

  ghost function EditsAmong(acts: seq<ActionRecord>, file: File): (chosen: seq<bool>)
    ensures |chosen| == |acts| && forall i | 0 <= i < |acts| :: chosen[i] == (acts[i].category == "edit" && acts[i].target == file)
  {
    seq(|acts|, i requires 0 <= i < |acts| => acts[i].category == "edit" && acts[i].target == file)
  }

  lemma EditsSnoc(acts: seq<ActionRecord>, a: ActionRecord, file: File)
    ensures EditsAmong(acts + [a], file) == EditsAmong(acts, file) + [a.category == "edit" && a.target == file]
    ensures EditsOf(acts + [a], file) == EditsOf(acts, file) + (if a.category == "edit" && a.target == file then [a] else [])
  {
    assert (acts + [a])[..|acts|] == acts;
  }

  lemma EditsStep(acts: seq<ActionRecord>, a: ActionRecord, file: File, at: seq<nat>) returns (at': seq<nat>)
    requires Selects(EditsOf(acts, file), acts, EditsAmong(acts, file), at)
    ensures Selects(EditsOf(acts + [a], file), acts + [a], EditsAmong(acts + [a], file), at')
  {
    var last := a.category == "edit" && a.target == file;
    EditsSnoc(acts, a, file);
    SelectsMore(EditsOf(acts, file), acts, EditsAmong(acts, file), at, a, last,
                EditsOf(acts + [a], file), acts + [a], EditsAmong(acts + [a], file));
    at' := if last then at + [|acts|] else at;
  }

  /** Every edit of the file is taken, in the order of the transcript, and no other action. */
  lemma {:induction false} EditsExactly(acts: seq<ActionRecord>, file: File) returns (at: seq<nat>)
    ensures Selects(EditsOf(acts, file), acts, EditsAmong(acts, file), at)
    decreases |acts|
  {
    at := [];
    if acts != [] {
      var n := |acts| - 1;
      at := EditsExactly(acts[..n], file);
      at := EditsStep(acts[..n], acts[n], file, at);
      assert acts == acts[..n] + [acts[n]];
    }
  }

  /** Each author with its edits of the file. */
  ghost function OnFile(authors: seq<EditAuthor>, file: File): (r: seq<EditAuthor>)
    ensures |r| == |authors| && forall i | 0 <= i < |authors| :: r[i] == EditAuthor(authors[i].agent, EditsOf(authors[i].acts, file))
  {
    seq(|authors|, i requires 0 <= i < |authors| => EditAuthor(authors[i].agent, EditsOf(authors[i].acts, file)))
  }

  ghost function HaveEdits(authors: seq<EditAuthor>, file: File): (chosen: seq<bool>)
    ensures |chosen| == |authors| && forall i | 0 <= i < |authors| :: chosen[i] == (EditsOf(authors[i].acts, file) != [])
  {
    seq(|authors|, i requires 0 <= i < |authors| => EditsOf(authors[i].acts, file) != [])
  }

  lemma AuthorsSnoc(authors: seq<EditAuthor>, a: EditAuthor, file: File)
    ensures var here := EditAuthor(a.agent, EditsOf(a.acts, file));
            && OnFile(authors + [a], file) == OnFile(authors, file) + [here]
            && HaveEdits(authors + [a], file) == HaveEdits(authors, file) + [here.acts != []]
            && AuthorsOf(authors + [a], file) == AuthorsOf(authors, file) + (if here.acts != [] then [here] else [])
  {
    assert (authors + [a])[..|authors|] == authors;
  }

  lemma AuthorsStep(authors: seq<EditAuthor>, a: EditAuthor, file: File, at: seq<nat>) returns (at': seq<nat>)
    requires Selects(AuthorsOf(authors, file), OnFile(authors, file), HaveEdits(authors, file), at)
    ensures Selects(AuthorsOf(authors + [a], file), OnFile(authors + [a], file), HaveEdits(authors + [a], file), at')
  {
    var last := EditsOf(a.acts, file) != [];
    AuthorsSnoc(authors, a, file);
    SelectsMore(AuthorsOf(authors, file), OnFile(authors, file), HaveEdits(authors, file), at, EditAuthor(a.agent, EditsOf(a.acts, file)), last,
                AuthorsOf(authors + [a], file), OnFile(authors + [a], file), HaveEdits(authors + [a], file));
    at' := if last then at + [|authors|] else at;
  }

  /** Every author with edits of the file is taken with them, in the order of the authors, and no other. */
  lemma {:induction false} AuthorsExactly(authors: seq<EditAuthor>, file: File) returns (at: seq<nat>)
    ensures Selects(AuthorsOf(authors, file), OnFile(authors, file), HaveEdits(authors, file), at)
    decreases |authors|
  {
    at := [];
    if authors != [] {
      var n := |authors| - 1;
      at := AuthorsExactly(authors[..n], file);
      at := AuthorsStep(authors[..n], authors[n], file, at);
      assert authors == authors[..n] + [authors[n]];
    }
  }

  method GroupRecords(log: seq<LogEntry>) returns (recsByFile: map<File, seq<Rec>>)
    ensures forall f :: f in recsByFile <==> RecordsOf(log, f) != []
    ensures forall f | f in recsByFile :: recsByFile[f] == RecordsOf(log, f)
  {
    recsByFile := map[];
    var i := 0;
    while i < |log|
      invariant 0 <= i <= |log|
      invariant forall f :: f in recsByFile <==> RecordsOf(log[..i], f) != []
      invariant forall f | f in recsByFile :: recsByFile[f] == RecordsOf(log[..i], f)
    {
      assert log[..i + 1][..i] == log[..i];
      var e := log[i];
      if e.tool in EDIT_TOOLS {
        recsByFile := recsByFile[e.file := (if e.file in recsByFile then recsByFile[e.file] else []) + [e.rec]];
      }
      i := i + 1;
    }
    assert log[..i] == log;
  }

  ghost predicate Groups(byFile: map<File, seq<ActionRecord>>, acts: seq<ActionRecord>)
  {
    && (forall f :: f in byFile <==> EditsOf(acts, f) != [])
    && (forall f | f in byFile :: byFile[f] == EditsOf(acts, f))
  }

  function Added(byFile: map<File, seq<ActionRecord>>, a: ActionRecord): map<File, seq<ActionRecord>>
  {
    if a.category == "edit" then byFile[a.target := (if a.target in byFile then byFile[a.target] else []) + [a]] else byFile
  }

  lemma GroupsMore(byFile: map<File, seq<ActionRecord>>, acts: seq<ActionRecord>, i: nat)
    requires i < |acts| && Groups(byFile, acts[..i])
    ensures Groups(Added(byFile, acts[i]), acts[..i + 1])
  {
    assert acts[..i + 1][..i] == acts[..i];
  }

  method GroupEdits(acts: seq<ActionRecord>) returns (byFile: map<File, seq<ActionRecord>>)
    ensures Groups(byFile, acts)
  {
    byFile := map[];
    var i := 0;
    while i < |acts|
      invariant 0 <= i <= |acts|
      invariant Groups(byFile, acts[..i])
    {
      GroupsMore(byFile, acts, i);
      byFile := Added(byFile, acts[i]);
      i := i + 1;
    }
    assert acts[..i] == acts;
  }

  ghost predicate Grouped(perAuthor: seq<map<File, seq<ActionRecord>>>, authors: seq<EditAuthor>)
  {
    |perAuthor| == |authors| && forall k | 0 <= k < |authors| :: Groups(perAuthor[k], authors[k].acts)
  }

  /** Every author's edits, grouped by file. */
  method GroupAuthors(authors: seq<EditAuthor>) returns (perAuthor: seq<map<File, seq<ActionRecord>>>)
    ensures Grouped(perAuthor, authors)
  {
    perAuthor := [];
    var i := 0;
    while i < |authors|
      invariant 0 <= i <= |authors| && |perAuthor| == i
      invariant forall k | 0 <= k < i :: Groups(perAuthor[k], authors[k].acts)
    {
      var byFile := GroupEdits(authors[i].acts);
      perAuthor := perAuthor + [byFile];
      i := i + 1;
    }
  }

  method FileAuthors(authors: seq<EditAuthor>, perAuthor: seq<map<File, seq<ActionRecord>>>, file: File)
      returns (r: seq<EditAuthor>)
    requires Grouped(perAuthor, authors)
    ensures r == AuthorsOf(authors, file)
  {
    r := [];
    var i := 0;
    while i < |authors|
      invariant 0 <= i <= |authors|
      invariant r == AuthorsOf(authors[..i], file)
    {
      assert authors[..i + 1][..i] == authors[..i];
      if file in perAuthor[i] {
        r := r + [EditAuthor(authors[i].agent, perAuthor[i][file])];
      }
      i := i + 1;
    }
    assert authors[..i] == authors;
  }

  lemma {:induction false} EditsOfDistinct(acts: seq<ActionRecord>, file: File)
    requires NoDuplicates(acts)
    ensures NoDuplicates(EditsOf(acts, file))
    decreases |acts|
  {
    if acts != [] {
      var front, last := acts[..|acts| - 1], acts[|acts| - 1];
      EditsOfDistinct(front, file);
      forall a | a in EditsOf(front, file) ensures a != last {
        var i :| 0 <= i < |front| && front[i] == a;
        assert acts[i] != last;
      }
    }
  }

  lemma LastOrFront(authors: seq<EditAuthor>, file: File, a: ActionRecord)
    requires authors != [] && a in AllActs(AuthorsOf(authors, file))
    ensures var n := |authors| - 1;
            a in AllActs(AuthorsOf(authors[..n], file)) || a in EditsOf(authors[n].acts, file)
    ensures a in AllActs(authors[..|authors| - 1]) ==> a in AllActs(authors)
  {
    var n := |authors| - 1;
    var k :| 0 <= k < |AuthorsOf(authors, file)| && a in AuthorsOf(authors, file)[k].acts;
    var front := AuthorsOf(authors[..n], file);
    assert k < |front| ==> AuthorsOf(authors, file)[k] == front[k];
    if a in AllActs(authors[..n]) {
      var l :| 0 <= l < n && a in authors[..n][l].acts;
      assert a in authors[l].acts;
    }
  }

  /** The edits of one file are edits of the authors. */
  lemma {:induction false} AuthorsOfHolds(authors: seq<EditAuthor>, file: File)
    ensures forall a | a in AllActs(AuthorsOf(authors, file)) :: a in AllActs(authors) && a.target == file && a.category == "edit"
    decreases |authors|
  {
    if authors != [] {
      var n := |authors| - 1;
      var front := authors[..n];
      AuthorsOfHolds(front, file);
      forall a | a in AllActs(AuthorsOf(authors, file))
        ensures a in AllActs(authors) && a.target == file && a.category == "edit"
      {
        LastOrFront(authors, file, a);
      }
    }
  }

  /** The edits of two files are different actions. */
  lemma FilesApart(authors: seq<EditAuthor>, f: File, g: File)
    requires f != g
    ensures AllActs(AuthorsOf(authors, f)) !! AllActs(AuthorsOf(authors, g))
  {
    AuthorsOfHolds(authors, f);
    AuthorsOfHolds(authors, g);
  }

  lemma NotInFront(authors: seq<EditAuthor>, n: nat, a: ActionRecord)
    requires NoAliases(authors) && n < |authors| && a in authors[n].acts
    ensures a !in AllActs(authors[..n])
  {
    forall k | 0 <= k < n ensures a !in authors[..n][k].acts {
      assert authors[..n][k] == authors[k];
    }
  }

  lemma MoreWithoutAliases(authors: seq<EditAuthor>, last: EditAuthor)
    requires NoAliases(authors) && NoDuplicates(last.acts)
    requires forall a | a in last.acts :: a !in AllActs(authors)
    ensures NoAliases(authors + [last])
  {
  }

  /** Each still in one place. */
  lemma {:induction false} AuthorsOfDistinct(authors: seq<EditAuthor>, file: File)
    requires NoAliases(authors)
    ensures NoAliases(AuthorsOf(authors, file))
    decreases |authors|
  {
    if authors != [] {
      var n := |authors| - 1;
      var front, acts := AuthorsOf(authors[..n], file), EditsOf(authors[n].acts, file);
      AuthorsOfDistinct(authors[..n], file);
      AuthorsOfHolds(authors[..n], file);
      EditsOfDistinct(authors[n].acts, file);
      forall a | a in acts ensures a !in AllActs(front) {
        NotInFront(authors, n, a);
      }
      if acts != [] {
        MoreWithoutAliases(front, EditAuthor(authors[n].agent, acts));
      }
    }
  }

  // ---------- the whole session ----------

  /** What every edit of one file has after the session's records were attributed. */
  ghost predicate Attributed(log: seq<LogEntry>, authors: seq<EditAuthor>, file: File, was: map<ActionRecord, Option<Id>>)
    reads AllActs(AuthorsOf(authors, file))
  {
    Carried(AuthorsOf(authors, file), RecordsOf(log, file), was)
  }

  /** Nothing of this file has been given yet. */
  ghost predicate Pending(authors: seq<EditAuthor>, file: File, was: map<ActionRecord, Option<Id>>)
    reads AllActs(AuthorsOf(authors, file))
  {
    forall a | a in AllActs(AuthorsOf(authors, file)) :: a in was && a.editId == was[a]
  }

  lemma PendingIsUnserved(authors: seq<EditAuthor>, recs: seq<Rec>, file: File, was: map<ActionRecord, Option<Id>>)
    ensures Pending(authors, file, was) ==> Served(AuthorsOf(authors, file), recs, 0, was)
  {
  }

  lemma NothingGiven(view: seq<Author>, k: nat)
    ensures k < |view| ==> Given([], view, k) == []
  {
  }

  /** A file without records gives nothing. */
  lemma NothingToGive(log: seq<LogEntry>, authors: seq<EditAuthor>, file: File, was: map<ActionRecord, Option<Id>>)
    requires Pending(authors, file, was) && RecordsOf(log, file) == []
    ensures Attributed(log, authors, file, was)
  {
    var all := AuthorsOf(authors, file);
    forall k | 0 <= k < |all| ensures Took(all[k].acts, Given([], View(all), k), was) {
      NothingGiven(View(all), k);
    }
  }

  /** One file of the session; no other file's edits are touched. */
  method AttributeOne(log: seq<LogEntry>, authors: seq<EditAuthor>, fileAuthors: seq<EditAuthor>, file: File,
                      ghost was: map<ActionRecord, Option<Id>>)
    requires NoAliases(authors) && fileAuthors == AuthorsOf(authors, file) && Pending(authors, file, was)
    modifies AllActs(fileAuthors)
    ensures Attributed(log, authors, file, was)
  {
    PendingIsUnserved(authors, RecordsOf(log, file), file, was);
    AuthorsOfDistinct(authors, file);
    if fileAuthors != [] {
      AttributeFile(fileAuthors, RecordsOf(log, file), was);
    }
  }

  /** Where the loop over the files stands. */
  ghost predicate Progress(log: seq<LogEntry>, authors: seq<EditAuthor>, done: set<File>, f: File, was: map<ActionRecord, Option<Id>>)
    reads AllActs(AuthorsOf(authors, f))
  {
    if f in done then Attributed(log, authors, f, was) else Pending(authors, f, was)
  }

  /** One more file done, the others as they were. */
  method Advance(log: seq<LogEntry>, authors: seq<EditAuthor>, perAuthor: seq<map<File, seq<ActionRecord>>>, file: File,
                 ghost done: set<File>, ghost was: map<ActionRecord, Option<Id>>)
    requires NoAliases(authors) && Grouped(perAuthor, authors) && file !in done
    requires forall f :: Progress(log, authors, done, f, was)
    modifies AllActs(AuthorsOf(authors, file))
    ensures forall f :: Progress(log, authors, done + {file}, f, was)
  {
    var fileAuthors := FileAuthors(authors, perAuthor, file);
    assert old(Progress(log, authors, done, file, was));
    assert Progress(log, authors, done, file, was);
    AttributeOne(log, authors, fileAuthors, file, was);
    forall f ensures Progress(log, authors, done + {file}, f, was) {
      if f != file {
        FilesApart(authors, f, file);
        assert old(Progress(log, authors, done, f, was));
      }
    }
  }

  /** The actions that are edits: only these are ever changed. */
  ghost function Edits(authors: seq<EditAuthor>): set<ActionRecord>
  {
    set a | a in AllActs(authors) && a.category == "edit"
  }

  lemma EditsAreEdits(authors: seq<EditAuthor>, file: File)
    ensures AllActs(AuthorsOf(authors, file)) <= Edits(authors)
  {
    AuthorsOfHolds(authors, file);
  }

  lemma NothingDone(log: seq<LogEntry>, authors: seq<EditAuthor>, f: File, was: map<ActionRecord, Option<Id>>)
    requires was == Ids(AllActs(authors))
    ensures Progress(log, authors, {}, f, was)
  {
    AuthorsOfHolds(authors, f);
  }

  lemma AllDone(log: seq<LogEntry>, authors: seq<EditAuthor>, done: set<File>, f: File, was: map<ActionRecord, Option<Id>>)
    requires Progress(log, authors, done, f, was) && (RecordsOf(log, f) != [] ==> f in done)
    ensures Attributed(log, authors, f, was)
  {
    if f !in done {
      NothingToGive(log, authors, f, was);
    }
  }

  /** The loop over the files that have records. */
  method AttributeFiles(log: seq<LogEntry>, authors: seq<EditAuthor>, perAuthor: seq<map<File, seq<ActionRecord>>>,
                        files: set<File>, ghost was: map<ActionRecord, Option<Id>>)
    requires NoAliases(authors) && Grouped(perAuthor, authors) && forall f :: Progress(log, authors, {}, f, was)
    modifies Edits(authors)
    ensures forall f :: Progress(log, authors, files, f, was)
  {
    var left := files;
    ghost var done: set<File> := {};
    while left != {}
      invariant left <= files && done == files - left
      invariant forall f :: Progress(log, authors, done, f, was)
      decreases |left|
    {
      var file :| file in left;
      left := left - {file};
      EditsAreEdits(authors, file);
      Advance(log, authors, perAuthor, file, done, was);
      done := done + {file};
    }
    assert done == files;
  }

  /**
   The whole session: every file's edits take what the plan for the file gives them; an edit that gets no
   record keeps what it had, and no other action is touched.
   */
  method AttributeEditIds(log: seq<LogEntry>, authors: seq<EditAuthor>, ghost was: map<ActionRecord, Option<Id>>)
    requires NoAliases(authors) && was == Ids(AllActs(authors))
    modifies Edits(authors)
    ensures forall f :: Attributed(log, authors, f, was)
  {
    var recsByFile := GroupRecords(log);
    var perAuthor := GroupAuthors(authors);
    forall f ensures Progress(log, authors, {}, f, was) {
      NothingDone(log, authors, f, was);
    }
    AttributeFiles(log, authors, perAuthor, recsByFile.Keys, was);
    forall f ensures Attributed(log, authors, f, was) {
      AllDone(log, authors, recsByFile.Keys, f, was);
    }
  }

  // ---------- no id twice ----------

  ghost predicate DistinctLog(log: seq<LogEntry>)
  {
    forall i, j | 0 <= i < j < |log| :: log[i].rec.id != log[j].rec.id
  }

  /** Some entry of the log has this record, for this file and by an edit tool. */
  ghost predicate Logged(log: seq<LogEntry>, file: File, x: Rec)
  {
    exists e :: e in log && e.tool in EDIT_TOOLS && e.file == file && e.rec == x
  }

  lemma {:induction false} RecordsAreLogged(log: seq<LogEntry>, file: File, x: Rec)
    requires x in RecordsOf(log, file)
    ensures Logged(log, file, x)
    decreases |log|
  {
    var front, e := log[..|log| - 1], log[|log| - 1];
    if x in RecordsOf(front, file) {
      RecordsAreLogged(front, file, x);
      var y :| y in front && y.tool in EDIT_TOOLS && y.file == file && y.rec == x;
      assert y in log;
    } else {
      assert e in log;
    }
  }

  /** One id, one entry. */
  lemma LoggedOnce(log: seq<LogEntry>, f: File, x: Rec, g: File, y: Rec)
    requires DistinctLog(log) && Logged(log, f, x) && Logged(log, g, y) && x.id == y.id
    ensures f == g && x == y
  {
    var d :| d in log && d.tool in EDIT_TOOLS && d.file == f && d.rec == x;
    var e :| e in log && e.tool in EDIT_TOOLS && e.file == g && e.rec == y;
    var i :| 0 <= i < |log| && log[i] == d;
    var j :| 0 <= j < |log| && log[j] == e;
    assert i == j;
  }

  lemma {:induction false} RecordsDistinct(log: seq<LogEntry>, file: File)
    requires DistinctLog(log)
    ensures DistinctIds(RecordsOf(log, file))
    decreases |log|
  {
    if log != [] {
      var n := |log| - 1;
      var front := RecordsOf(log[..n], file);
      RecordsDistinct(log[..n], file);
      forall i | 0 <= i < |front| ensures front[i].id != log[n].rec.id {
        RecordsAreLogged(log[..n], file, front[i]);
        var e :| e in log[..n] && e.rec == front[i];
        var j :| 0 <= j < n && log[..n][j] == e;
        assert log[j].rec.id != log[n].rec.id;
      }
    }
  }

  lemma {:induction false} EditIsListed(acts: seq<ActionRecord>, a: ActionRecord)
    requires a in acts && a.category == "edit"
    ensures a in EditsOf(acts, a.target)
    decreases |acts|
  {
    var front := acts[..|acts| - 1];
    assert acts == front + [acts[|acts| - 1]];
    if a != acts[|acts| - 1] {
      EditIsListed(front, a);
    }
  }

  /** Every edit is among the edits of its file. */
  lemma {:induction false} AuthorIsListed(authors: seq<EditAuthor>, a: ActionRecord)
    requires a in Edits(authors)
    ensures a in AllActs(AuthorsOf(authors, a.target))
    decreases |authors|
  {
    var n := |authors| - 1;
    var k :| 0 <= k < |authors| && a in authors[k].acts;
    var front, all := AuthorsOf(authors[..n], a.target), AuthorsOf(authors, a.target);
    if k == n {
      EditIsListed(authors[n].acts, a);
      assert a in all[|front|].acts;
    } else {
      assert a in authors[..n][k].acts;
      AuthorIsListed(authors[..n], a);
      var l :| 0 <= l < |front| && a in front[l].acts;
      assert a in all[l].acts;
    }
  }

  /** The plan gives only records of the file. */
  lemma GivenAreRecords(recs: seq<Rec>, authors: seq<Author>, k: nat)
    requires k < |authors|
    ensures forall i | 0 <= i < |Given(recs, authors, k)| :: Given(recs, authors, k)[i] in recs
  {
    forall i | 0 <= i < |Given(recs, authors, k)| ensures Given(recs, authors, k)[i] in recs {
      assert Pool(recs, authors, k)[i] in Pool(recs, authors, k);
    }
  }

  /** The place of an edit in the plan of its file, and the record it took. */
  lemma Origin(log: seq<LogEntry>, authors: seq<EditAuthor>, was: map<ActionRecord, Option<Id>>, a: ActionRecord)
      returns (k: nat, i: nat, x: Rec)
    requires a in Edits(authors) && Attributed(log, authors, a.target, was) && a in was && was[a] == None && a.editId.Some?
    ensures Busy(AuthorsOf(authors, a.target))
    ensures k < |AuthorsOf(authors, a.target)| && i < |AuthorsOf(authors, a.target)[k].acts|
    ensures AuthorsOf(authors, a.target)[k].acts[i] == a
    ensures i < |Given(RecordsOf(log, a.target), View(AuthorsOf(authors, a.target)), k)|
    ensures x == Given(RecordsOf(log, a.target), View(AuthorsOf(authors, a.target)), k)[i]
    ensures a.editId == Some(x.id) && x in RecordsOf(log, a.target) && Logged(log, a.target, x)
  {
    var all := AuthorsOf(authors, a.target);
    AuthorIsListed(authors, a);
    k :| 0 <= k < |all| && a in all[k].acts;
    i :| 0 <= i < |all[k].acts| && all[k].acts[i] == a;
    var recs := RecordsOf(log, a.target);
    assert Took(all[k].acts, Given(recs, View(all), k), was);
    x := Given(recs, View(all), k)[i];
    GivenAreRecords(recs, View(all), k);
    RecordsAreLogged(log, a.target, x);
  }

  /**
   After the whole session was attributed, starting from edits without ids: an id is that of a record an
   edit tool logged for the edit's own file, and no two edits have the same.
   */
  lemma EveryIdOnce(log: seq<LogEntry>, authors: seq<EditAuthor>, was: map<ActionRecord, Option<Id>>, a: ActionRecord, b: ActionRecord)
    requires DistinctLog(log) && forall f :: Attributed(log, authors, f, was)
    requires a in Edits(authors) && b in Edits(authors) && a in was && was[a] == None && b in was && was[b] == None
    requires a.editId.Some?
    ensures exists x :: Logged(log, a.target, x) && a.editId == Some(x.id)
    ensures a.editId == b.editId ==> a == b
  {
    var k, i, x := Origin(log, authors, was, a);
    if a.editId == b.editId {
      var l, j, y := Origin(log, authors, was, b);
      LoggedOnce(log, a.target, x, b.target, y);
      var recs, view := RecordsOf(log, a.target), View(AuthorsOf(authors, a.target));
      NoRecordTwice(recs, view, k, l, x);
      RecordsDistinct(log, a.target);
      GivenInOrder(recs, view, k);
      assert i == j;
    }
  }
}
