/**
 Usage accounting over transcripts: the biggest snapshot of every message, wherever it appears, put into
 buckets and summed.

 Prices are a parameter, exact as reals; so is the bucket a line belongs to, which covers grouping by week,
 month, model and session at once.
 */
module Breakdown {
  import opened Basics
  import opened OrderedMap
  import opened CanonicalJson

  datatype Split = Split(input: int, output: int, cacheWrite: int, cacheRead: int)

  /** A usage line of a transcript; an empty message id counts as none. */
  datatype Line = Line(id: Option<string>, file: string, ts: int, split: Split, model: string)

  /** What a line is deduplicated by. */
  datatype Key = Named(id: string) | Unnamed(file: string, ts: int, unit: int)

  datatype Price = Price(usd: real, approx: bool, known: bool)

  datatype Acc = Acc(tokens: int, cacheRead: int, usd: real, usdKnown: bool, usdApprox: bool, messages: nat)

  datatype Report = Report(buckets: OMap<Text, Acc>, totals: Acc)

  const ZERO: Acc := Acc(0, 0, 0.0, true, false, 0)

  type Pricing = (string, Split) -> Price
  type Grouping = Line -> Text

  /** Input, output and cache writes: what a plan's window counts. */
  function UnitOf(line: Line): int
  {
    line.split.input + line.split.output + line.split.cacheWrite
  }

  function KeyOf(line: Line): Key
  {
    if line.id.Some? && line.id.value != "" then Named(line.id.value) else Unnamed(line.file, line.ts, UnitOf(line))
  }

  function Add(a: Acc, b: Acc): Acc
  {
    Acc(a.tokens + b.tokens, a.cacheRead + b.cacheRead, a.usd + b.usd,
        a.usdKnown && b.usdKnown, a.usdApprox || b.usdApprox, a.messages + b.messages)
  }

  /** What one message adds. */
  function One(price: Pricing, line: Line): Acc
  {
    var p := price(line.model, line.split);
    Acc(UnitOf(line), line.split.cacheRead, p.usd, p.known, p.approx, 1)
  }

  function SumLines(price: Pricing, best: OMap<Key, Line>): Acc
  {
    if best == [] then ZERO else Add(One(price, best[0].1), SumLines(price, best[1..]))
  }

  function SumBuckets(m: OMap<Text, Acc>): Acc
  {
    if m == [] then ZERO else Add(m[0].1, SumBuckets(m[1..]))
  }

  // ---------- the biggest snapshot of a message ----------

  /** The line that stands for a key: the first of those with the most units. */
  function BestOf(lines: seq<Line>, key: Key): Option<Line>
  {
    if lines == [] then None
    else
      var last := lines[|lines| - 1];
      var prev := BestOf(lines[..|lines| - 1], key);
      if KeyOf(last) == key && (prev.None? || UnitOf(last) > UnitOf(prev.value)) then Some(last) else prev
  }

  ghost predicate IsFirstMax(lines: seq<Line>, key: Key, i: nat)
  {
    && i < |lines| && KeyOf(lines[i]) == key
    && (forall j | 0 <= j < |lines| && KeyOf(lines[j]) == key :: UnitOf(lines[j]) <= UnitOf(lines[i]))
    && (forall j | 0 <= j < i && KeyOf(lines[j]) == key :: UnitOf(lines[j]) < UnitOf(lines[i]))
  }

  lemma FirstMaxOfFront(lines: seq<Line>, key: Key, i: nat)
    requires lines != [] && IsFirstMax(lines[..|lines| - 1], key, i)
    requires var last := lines[|lines| - 1]; KeyOf(last) == key ==> UnitOf(last) <= UnitOf(lines[i])
    ensures IsFirstMax(lines, key, i)
  {
    var front := lines[..|lines| - 1];
    assert forall j | 0 <= j < |front| :: front[j] == lines[j];
  }

  lemma FirstMaxIsLast(lines: seq<Line>, key: Key)
    requires lines != [] && KeyOf(lines[|lines| - 1]) == key
    requires forall j | 0 <= j < |lines| - 1 && KeyOf(lines[j]) == key :: UnitOf(lines[j]) < UnitOf(lines[|lines| - 1])
    ensures IsFirstMax(lines, key, |lines| - 1)
  {
  }

  /** Which line that is, said without a pass. */
  lemma {:induction false} BestIsFirstMax(lines: seq<Line>, key: Key)
    ensures BestOf(lines, key).None? <==> forall j | 0 <= j < |lines| :: KeyOf(lines[j]) != key
    ensures BestOf(lines, key).Some? ==> exists i: nat :: IsFirstMax(lines, key, i) && BestOf(lines, key) == Some(lines[i])
    decreases |lines|
  {
    if lines != [] {
      var n := |lines| - 1;
      var front, last := lines[..n], lines[n];
      BestIsFirstMax(front, key);
      var prev := BestOf(front, key);
      assert forall j | 0 <= j < n :: front[j] == lines[j];
      if KeyOf(last) == key && (prev.None? || UnitOf(last) > UnitOf(prev.value)) {
        FirstMaxIsLast(lines, key);
      } else if prev.Some? {
        var i: nat :| IsFirstMax(front, key, i) && prev == Some(front[i]);
        FirstMaxOfFront(lines, key, i);
      }
    }
  }

  /** The `best` map of some lines. */
  function BestMap(lines: seq<Line>): OMap<Key, Line>
  {
    if lines == [] then []
    else
      var last := lines[|lines| - 1];
      var best := BestMap(lines[..|lines| - 1]);
      var prev := Get(best, KeyOf(last));
      if prev.None? || UnitOf(last) > UnitOf(prev.value) then Set(best, KeyOf(last), last) else best
  }

  /** It holds the best line of every key, each key once. */
  lemma {:induction false} BestMapHolds(lines: seq<Line>)
    ensures Distinct(BestMap(lines))
    ensures forall key :: Get(BestMap(lines), key) == BestOf(lines, key)
    decreases |lines|
  {
    if lines != [] {
      var front, last := lines[..|lines| - 1], lines[|lines| - 1];
      BestMapHolds(front);
      DistinctAfterSet(BestMap(front), KeyOf(last), last);
      forall key ensures Get(BestMap(lines), key) == BestOf(lines, key) {
        GetAfterSet(BestMap(front), KeyOf(last), last, key);
      }
    }
  }

  /** No line of this key reports more. */
  ghost predicate NoneBigger(lines: seq<Line>, key: Key, unit: int)
  {
    forall j | 0 <= j < |lines| && KeyOf(lines[j]) == key :: UnitOf(lines[j]) <= unit
  }

  lemma NoneBiggerSnoc(lines: seq<Line>, x: Line, key: Key, unit: int)
    ensures NoneBigger(lines + [x], key, unit) <==> NoneBigger(lines, key, unit) && (KeyOf(x) == key ==> UnitOf(x) <= unit)
  {
    var all := lines + [x];
    assert all[|lines|] == x && forall j | 0 <= j < |lines| :: all[j] == lines[j];
  }

  lemma BestSnoc(lines: seq<Line>, x: Line, key: Key)
    ensures var prev := BestOf(lines, key);
            BestOf(lines + [x], key) ==
            if KeyOf(x) == key && (prev.None? || UnitOf(x) > UnitOf(prev.value)) then Some(x) else prev
  {
    assert (lines + [x])[..|lines|] == lines;
  }

  /** Lines read later move a message exactly when they report more of it. */
  lemma {:induction false} LaterLinesMoveOnlyUp(lines: seq<Line>, more: seq<Line>, key: Key)
    requires BestOf(lines, key).Some?
    ensures BestOf(lines + more, key) == BestOf(lines, key) <==> NoneBigger(more, key, UnitOf(BestOf(lines, key).value))
    ensures BestOf(lines + more, key).Some? && UnitOf(BestOf(lines + more, key).value) >= UnitOf(BestOf(lines, key).value)
    ensures BestOf(lines + more, key) != BestOf(lines, key) ==>
              UnitOf(BestOf(lines + more, key).value) > UnitOf(BestOf(lines, key).value)
    decreases |more|
  {
    if more == [] {
      assert lines + more == lines;
    } else {
      var front, x := more[..|more| - 1], more[|more| - 1];
      LaterLinesMoveOnlyUp(lines, front, key);
      assert more == front + [x] && lines + more == (lines + front) + [x];
      BestSnoc(lines + front, x, key);
      NoneBiggerSnoc(front, x, key, UnitOf(BestOf(lines, key).value));
    }
  }

  /** The best of two stretches: the later one's only when it reports more. */
  function Better(first: Option<Line>, later: Option<Line>): Option<Line>
  {
    if first.None? || (later.Some? && UnitOf(later.value) > UnitOf(first.value)) then later else first
  }

  lemma {:induction false} BestOfTwo(a: seq<Line>, b: seq<Line>, key: Key)
    ensures BestOf(a + b, key) == Better(BestOf(a, key), BestOf(b, key))
    decreases |b|
  {
    if b == [] {
      assert a + b == a;
    } else {
      var front, x := b[..|b| - 1], b[|b| - 1];
      BestOfTwo(a, front, key);
      assert b == front + [x] && a + b == (a + front) + [x];
      BestSnoc(front, x, key);
      BestSnoc(a + front, x, key);
    }
  }

  lemma BestOfOne(x: Line, key: Key)
    ensures BestOf([x], key) == if KeyOf(x) == key then Some(x) else None
  {
    assert [x][..0] == [];
  }

  /**
   One more line of a message, read anywhere among the others: the message, and so its bucket, stays where it
   was exactly when the line reports less, or is the standing line itself, or reports as much and comes after
   some line that does.  A fork's copy that is read before its parent is none of these.
   */
  lemma CopyMovesExactly(a: seq<Line>, x: Line, b: seq<Line>, key: Key)
    requires KeyOf(x) == key && BestOf(a + b, key).Some?
    ensures var best := BestOf(a + b, key).value;
            (BestOf(a + [x] + b, key) == BestOf(a + b, key) <==>
             (|| UnitOf(x) < UnitOf(best)
              || x == best
              || (UnitOf(x) == UnitOf(best) && BestOf(a, key).Some? && UnitOf(BestOf(a, key).value) == UnitOf(x))))
  {
    BestOfTwo(a, b, key);
    BestOfOne(x, key);
    BestOfTwo(a, [x], key);
    BestOfTwo(a + [x], b, key);
  }

  /** Such a copy: read first, as big as its parent, it stands for the message. */
  lemma EarlierCopyWins(parent: Line, copy: Line)
    requires KeyOf(parent) == KeyOf(copy) && UnitOf(parent) == UnitOf(copy)
    ensures BestOf([copy, parent], KeyOf(parent)) == Some(copy)
  {
    BestOfOne(copy, KeyOf(parent));
    BestOfOne(parent, KeyOf(parent));
    BestOfTwo([copy], [parent], KeyOf(parent));
    assert [copy] + [parent] == [copy, parent];
  }

  // ---------- the sums ----------

  /** The keys of some lines, in the order they first come. */
  function KeysOf(lines: seq<Line>): seq<Key>
  {
    if lines == [] then []
    else
      var keys := KeysOf(lines[..|lines| - 1]);
      var key := KeyOf(lines[|lines| - 1]);
      if key in keys then keys else keys + [key]
  }

  /** Something a line reports. */
  type Measure = Line -> real

  function TokenUnits(): Measure { (line: Line) => UnitOf(line) as real }

  function CacheReads(): Measure { (line: Line) => line.split.cacheRead as real }

  function Dollars(price: Pricing): Measure { (line: Line) => price(line.model, line.split).usd }

  /** 1 for a line without a known price, and for one priced via a fallback. */
  function Unpriced(price: Pricing): Measure { (line: Line) => if price(line.model, line.split).known then 0.0 else 1.0 }

  function Estimated(price: Pricing): Measure { (line: Line) => if price(line.model, line.split).approx then 1.0 else 0.0 }

  function SumOf(keys: seq<Key>, f: Key -> real): real
  {
    if keys == [] then 0.0 else f(keys[0]) + SumOf(keys[1..], f)
  }

  /** What the line that stands for a key reports. */
  function Top(lines: seq<Line>, f: Measure): Key -> real
  {
    key => var b := BestOf(lines, key); if b.None? then 0.0 else f(b.value)
  }

  function TopUnit(lines: seq<Line>, key: Key): int
  {
    var b := BestOf(lines, key); if b.None? then 0 else UnitOf(b.value)
  }

  /** The sum over the messages. */
  function TotalOf(lines: seq<Line>, f: Measure): real
  {
    SumOf(KeysOf(lines), Top(lines, f))
  }

  /** The totals of some lines, whatever the buckets. */
  function Totals(price: Pricing, lines: seq<Line>): Acc
  {
    SumLines(price, BestMap(lines))
  }

  ghost predicate DistinctKeySeq(keys: seq<Key>)
  {
    forall i, j | 0 <= i < j < |keys| :: keys[i] != keys[j]
  }

  lemma {:induction false} KeysOfHolds(lines: seq<Line>)
    ensures DistinctKeySeq(KeysOf(lines))
    ensures forall key :: key in KeysOf(lines) <==> BestOf(lines, key).Some?
    decreases |lines|
  {
    if lines != [] {
      KeysOfHolds(lines[..|lines| - 1]);
    }
  }

  /** The keys of the `best` map come in the order of their first lines. */
  lemma {:induction false} BestMapKeys(lines: seq<Line>)
    ensures |BestMap(lines)| == |KeysOf(lines)|
    ensures forall i | 0 <= i < |KeysOf(lines)| :: BestMap(lines)[i].0 == KeysOf(lines)[i]
    decreases |lines|
  {
    if lines != [] {
      var front, last := lines[..|lines| - 1], lines[|lines| - 1];
      BestMapKeys(front);
      BestMapHolds(front);
      KeysOfHolds(front);
      KeysAfterSet(BestMap(front), KeyOf(last), last);
    }
  }

  /** What the totals say of one measure. */
  lemma {:induction false} SumAlongMap(price: Pricing, lines: seq<Line>, m: OMap<Key, Line>, keys: seq<Key>)
    requires |m| == |keys| && forall i | 0 <= i < |m| :: m[i].0 == keys[i] && BestOf(lines, keys[i]) == Some(m[i].1)
    ensures SumLines(price, m).tokens as real == SumOf(keys, Top(lines, TokenUnits()))
    ensures SumLines(price, m).cacheRead as real == SumOf(keys, Top(lines, CacheReads()))
    ensures SumLines(price, m).usd == SumOf(keys, Top(lines, Dollars(price)))
    ensures SumLines(price, m).messages == |keys|
    decreases |m|
  {
    if m != [] {
      assert BestOf(lines, keys[0]) == Some(m[0].1);
      SumAlongMap(price, lines, m[1..], keys[1..]);
    }
  }

  lemma {:induction false} FlagsAlongMap(price: Pricing, lines: seq<Line>, m: OMap<Key, Line>, keys: seq<Key>)
    requires |m| == |keys| && forall i | 0 <= i < |m| :: m[i].0 == keys[i] && BestOf(lines, keys[i]) == Some(m[i].1)
    ensures SumOf(keys, Top(lines, Unpriced(price))) >= 0.0 && SumOf(keys, Top(lines, Estimated(price))) >= 0.0
    ensures SumLines(price, m).usdKnown <==> SumOf(keys, Top(lines, Unpriced(price))) == 0.0
    ensures SumLines(price, m).usdApprox <==> SumOf(keys, Top(lines, Estimated(price))) > 0.0
    decreases |m|
  {
    if m != [] {
      assert BestOf(lines, keys[0]) == Some(m[0].1);
      FlagsAlongMap(price, lines, m[1..], keys[1..]);
    }
  }

  /**
   The totals count every message once, with its biggest snapshot: tokens are the sum over the distinct
   keys of the most units any of its lines reports, and messages are the number of keys.
   */
  lemma TotalsAreMaxima(price: Pricing, lines: seq<Line>)
    ensures Totals(price, lines).tokens as real == TotalOf(lines, TokenUnits())
    ensures Totals(price, lines).cacheRead as real == TotalOf(lines, CacheReads())
    ensures Totals(price, lines).usd == TotalOf(lines, Dollars(price))
    ensures Totals(price, lines).usdKnown <==> TotalOf(lines, Unpriced(price)) == 0.0
    ensures Totals(price, lines).usdApprox <==> TotalOf(lines, Estimated(price)) > 0.0
    ensures Totals(price, lines).messages == |KeysOf(lines)|
  {
    var m, keys := BestMap(lines), KeysOf(lines);
    BestMapKeys(lines);
    BestMapHolds(lines);
    forall i | 0 <= i < |m| ensures BestOf(lines, keys[i]) == Some(m[i].1) {
      GetAt(m, i);
    }
    SumAlongMap(price, lines, m, keys);
    FlagsAlongMap(price, lines, m, keys);
  }

  lemma {:induction false} SumsAddUp(keys: seq<Key>, f: Key -> real, a: Key -> real, b: Key -> real, c: Key -> real)
    requires forall key :: f(key) == a(key) + b(key) + c(key)
    ensures SumOf(keys, f) == SumOf(keys, a) + SumOf(keys, b) + SumOf(keys, c)
    decreases |keys|
  {
    if keys != [] {
      SumsAddUp(keys[1..], f, a, b, c);
    }
  }

  function Inputs(): Measure { (line: Line) => line.split.input as real }

  function Outputs(): Measure { (line: Line) => line.split.output as real }

  function CacheWrites(): Measure { (line: Line) => line.split.cacheWrite as real }

  /** Tokens are input, output and cache writes, of each message once; cache reads are none of them. */
  lemma TokensAreThreeParts(price: Pricing, lines: seq<Line>)
    ensures Totals(price, lines).tokens as real == TotalOf(lines, Inputs()) + TotalOf(lines, Outputs()) + TotalOf(lines, CacheWrites())
  {
    TotalsAreMaxima(price, lines);
    var f, a, b, c := Top(lines, TokenUnits()), Top(lines, Inputs()), Top(lines, Outputs()), Top(lines, CacheWrites());
    forall key ensures f(key) == a(key) + b(key) + c(key) {
      if BestOf(lines, key).Some? {
        var x := BestOf(lines, key).value;
        assert f(key) == UnitOf(x) as real && a(key) == x.split.input as real;
        assert b(key) == x.split.output as real && c(key) == x.split.cacheWrite as real;
      }
    }
    SumsAddUp(KeysOf(lines), f, a, b, c);
  }

  /** Two lines are of one message: they have its id, or neither has one and file, time and tokens agree. */
  lemma SameMessageExactly(x: Line, y: Line)
    ensures KeyOf(x) == KeyOf(y) <==>
            (|| (exists id :: id != "" && x.id == Some(id) && y.id == Some(id))
             || (&& x.id in {None, Some("")} && y.id in {None, Some("")} && (x.file, x.ts) == (y.file, y.ts)
                 && x.split.input + x.split.output + x.split.cacheWrite == y.split.input + y.split.output + y.split.cacheWrite))
  {
    if x.id.Some? && x.id.value != "" {
      assert x.id == Some(x.id.value);
    }
  }

  // ---------- the order of the lines ----------

  /** Some line of this key reports so many units, and so much of the measure. */
  ghost predicate Reports(f: Measure, lines: seq<Line>, key: Key, unit: int, v: real)
  {
    exists i | 0 <= i < |lines| :: KeyOf(lines[i]) == key && UnitOf(lines[i]) == unit && f(lines[i]) == v
  }

  ghost predicate ReportsUnit(lines: seq<Line>, key: Key, unit: int)
  {
    exists i | 0 <= i < |lines| :: KeyOf(lines[i]) == key && UnitOf(lines[i]) == unit
  }

  /** The same snapshots, in any order and any number of copies. */
  ghost predicate SameUnits(a: seq<Line>, b: seq<Line>)
  {
    forall key, unit :: ReportsUnit(a, key, unit) <==> ReportsUnit(b, key, unit)
  }

  ghost predicate SameReports(f: Measure, a: seq<Line>, b: seq<Line>)
  {
    forall key, unit, v :: Reports(f, a, key, unit, v) <==> Reports(f, b, key, unit, v)
  }

  /** The most units: reported, and no report is bigger. */
  lemma TopIsReported(f: Measure, lines: seq<Line>, key: Key)
    ensures BestOf(lines, key).Some? <==> exists unit :: ReportsUnit(lines, key, unit)
    ensures BestOf(lines, key).Some? ==>
              var b := BestOf(lines, key).value;
              && Reports(f, lines, key, UnitOf(b), f(b))
              && ReportsUnit(lines, key, UnitOf(b))
              && forall unit | ReportsUnit(lines, key, unit) :: unit <= UnitOf(b)
  {
    BestIsFirstMax(lines, key);
    if BestOf(lines, key).Some? {
      var i: nat :| IsFirstMax(lines, key, i) && BestOf(lines, key) == Some(lines[i]);
      assert KeyOf(lines[i]) == key;
      assert ReportsUnit(lines, key, UnitOf(lines[i]));
      forall unit | ReportsUnit(lines, key, unit) ensures unit <= UnitOf(lines[i]) {
        var j :| 0 <= j < |lines| && KeyOf(lines[j]) == key && UnitOf(lines[j]) == unit;
      }
    } else {
      assert forall j | 0 <= j < |lines| :: KeyOf(lines[j]) != key;
    }
  }

  lemma SameTop(a: seq<Line>, b: seq<Line>, key: Key)
    requires SameUnits(a, b)
    ensures BestOf(a, key).Some? <==> BestOf(b, key).Some?
    ensures TopUnit(a, key) == TopUnit(b, key)
  {
    TopIsReported(TokenUnits(), a, key);
    TopIsReported(TokenUnits(), b, key);
  }

  lemma {:induction false} SumWithout(keys: seq<Key>, f: Key -> real, i: nat)
    requires i < |keys|
    ensures SumOf(keys, f) == f(keys[i]) + SumOf(keys[..i] + keys[i + 1..], f)
    decreases |keys|
  {
    if i == 0 {
      assert keys[..0] + keys[1..] == keys[1..];
    } else {
      SumWithout(keys[1..], f, i - 1);
      var rest := keys[..i] + keys[i + 1..];
      assert rest[1..] == keys[1..][..i - 1] + keys[1..][i..];
    }
  }

  lemma KeyOfRest(ls: seq<Key>, i: nat, k: Key)
    requires DistinctKeySeq(ls) && i < |ls|
    ensures DistinctKeySeq(ls[..i] + ls[i + 1..])
    ensures k in ls[..i] + ls[i + 1..] <==> k in ls && k != ls[i]
  {
    var rest := ls[..i] + ls[i + 1..];
    if k in ls && k != ls[i] {
      var j :| 0 <= j < |ls| && ls[j] == k;
      assert rest[if j < i then j else j - 1] == k;
    }
  }

  lemma HeadIsNotInRest(keys: seq<Key>)
    requires DistinctKeySeq(keys) && keys != []
    ensures keys[0] !in keys[1..] && forall q :: q in keys <==> q == keys[0] || q in keys[1..]
  {
    assert keys == [keys[0]] + keys[1..];
  }

  lemma SameRest(ks: seq<Key>, ls: seq<Key>, i: nat)
    requires DistinctKeySeq(ks) && DistinctKeySeq(ls) && forall k :: k in ks <==> k in ls
    requires ks != [] && i < |ls| && ls[i] == ks[0]
    ensures DistinctKeySeq(ls[..i] + ls[i + 1..]) && forall k :: k in ks[1..] <==> k in ls[..i] + ls[i + 1..]
  {
    HeadIsNotInRest(ks);
    forall k ensures k in ks[1..] <==> k in ls[..i] + ls[i + 1..] {
      KeyOfRest(ls, i, k);
    }
  }

  lemma HasKey(ls: seq<Key>)
    requires ls != []
    ensures exists k :: k in ls
  {
    assert ls[0] in ls;
  }

  /** A sum over the same distinct keys does not depend on their order. */
  lemma {:induction false} SameSum(ks: seq<Key>, ls: seq<Key>, f: Key -> real, g: Key -> real)
    requires DistinctKeySeq(ks) && DistinctKeySeq(ls) && forall k :: k in ks <==> k in ls
    requires forall k | k in ks :: f(k) == g(k)
    ensures SumOf(ks, f) == SumOf(ls, g) && |ks| == |ls|
    decreases |ks|
  {
    if ks == [] {
      if ls != [] {
        HasKey(ls);
      }
    } else {
      assert ks[0] in ls;
      var i :| 0 <= i < |ls| && ls[i] == ks[0];
      SumWithout(ls, g, i);
      var rest := ls[..i] + ls[i + 1..];
      SameRest(ks, ls, i);
      SameSum(ks[1..], rest, f, g);
    }
  }

  /** Reordering lines or files, or copying lines into forks, changes neither tokens nor messages. */
  lemma TotalsIgnoreOrderAndCopies(price: Pricing, a: seq<Line>, b: seq<Line>)
    requires SameUnits(a, b)
    ensures Totals(price, a).tokens == Totals(price, b).tokens
    ensures Totals(price, a).messages == Totals(price, b).messages
  {
    TotalsAreMaxima(price, a);
    TotalsAreMaxima(price, b);
    KeysOfHolds(a);
    KeysOfHolds(b);
    forall key
      ensures BestOf(a, key).Some? <==> BestOf(b, key).Some?
      ensures Top(a, TokenUnits())(key) == Top(b, TokenUnits())(key)
    {
      SameTop(a, b, key);
    }
    SameSum(KeysOf(a), KeysOf(b), Top(a, TokenUnits()), Top(b, TokenUnits()));
  }

  /** All the biggest snapshots of a message agree on the measure. */
  ghost predicate Settled(f: Measure, lines: seq<Line>)
  {
    forall key, x, y | Reports(f, lines, key, TopUnit(lines, key), x) && Reports(f, lines, key, TopUnit(lines, key), y) :: x == y
  }

  lemma SameReportsSameUnits(f: Measure, a: seq<Line>, b: seq<Line>)
    requires SameReports(f, a, b)
    ensures SameUnits(a, b)
  {
    forall key, unit ensures ReportsUnit(a, key, unit) <==> ReportsUnit(b, key, unit) {
      if ReportsUnit(a, key, unit) {
        var i :| 0 <= i < |a| && KeyOf(a[i]) == key && UnitOf(a[i]) == unit;
        assert Reports(f, a, key, unit, f(a[i]));
      }
      if ReportsUnit(b, key, unit) {
        var i :| 0 <= i < |b| && KeyOf(b[i]) == key && UnitOf(b[i]) == unit;
        assert Reports(f, b, key, unit, f(b[i]));
      }
    }
  }

  lemma SettledAgrees(f: Measure, a: seq<Line>, b: seq<Line>, key: Key)
    requires SameReports(f, a, b) && Settled(f, a)
    ensures Top(a, f)(key) == Top(b, f)(key)
  {
    SameReportsSameUnits(f, a, b);
    SameTop(a, b, key);
    TopIsReported(f, a, key);
    TopIsReported(f, b, key);
  }

  /** Reading one of a message's biggest snapshots first makes it the one that stands. */
  lemma ReadFirst(x: Line, lines: seq<Line>, key: Key)
    requires KeyOf(x) == key ==> UnitOf(x) == TopUnit(lines, key) && BestOf(lines, key).Some?
    ensures BestOf([x] + lines, key) == if KeyOf(x) == key then Some(x) else BestOf(lines, key)
  {
    BestOfOne(x, key);
    BestOfTwo([x], lines, key);
  }

  lemma CopyChangesNoReport(f: Measure, x: Line, lines: seq<Line>)
    requires x in lines
    ensures SameReports(f, [x] + lines, lines)
  {
    var i :| 0 <= i < |lines| && lines[i] == x;
    var all := [x] + lines;
    forall key, unit, v ensures Reports(f, all, key, unit, v) <==> Reports(f, lines, key, unit, v) {
      if Reports(f, lines, key, unit, v) {
        var j :| 0 <= j < |lines| && KeyOf(lines[j]) == key && UnitOf(lines[j]) == unit && f(lines[j]) == v;
        assert all[j + 1] == lines[j];
      }
      if Reports(f, all, key, unit, v) {
        var j :| 0 <= j < |all| && KeyOf(all[j]) == key && UnitOf(all[j]) == unit && f(all[j]) == v;
        assert all[j] == lines[if j == 0 then i else j - 1];
      }
    }
  }

  lemma {:induction false} SumDiffersAt(keys: seq<Key>, f: Key -> real, g: Key -> real, k: Key)
    requires DistinctKeySeq(keys) && forall q | q in keys && q != k :: f(q) == g(q)
    ensures SumOf(keys, f) - SumOf(keys, g) == if k in keys then f(k) - g(k) else 0.0
    decreases |keys|
  {
    if keys != [] {
      HeadIsNotInRest(keys);
      SumDiffersAt(keys[1..], f, g, k);
    }
  }

  /** The total over the keys of other lines with the same reports. */
  lemma TotalOver(f: Measure, lines: seq<Line>, other: seq<Line>)
    requires SameReports(f, other, lines)
    ensures TotalOf(other, f) == SumOf(KeysOf(lines), Top(other, f))
  {
    KeysOfHolds(lines);
    KeysOfHolds(other);
    SameReportsSameUnits(f, other, lines);
    forall key ensures BestOf(other, key).Some? <==> BestOf(lines, key).Some? {
      SameTop(other, lines, key);
    }
    SameSum(KeysOf(other), KeysOf(lines), Top(other, f), Top(other, f));
  }

  /** Two biggest snapshots of one message that disagree: whichever is read first decides the total. */
  lemma UnsettledMoves(f: Measure, lines: seq<Line>, x: Line, y: Line)
    requires x in lines && y in lines && KeyOf(x) == KeyOf(y) && UnitOf(x) == UnitOf(y) == TopUnit(lines, KeyOf(x))
    requires f(x) != f(y) && BestOf(lines, KeyOf(x)).Some?
    ensures TotalOf([x] + lines, f) != TotalOf([y] + lines, f)
  {
    CopyChangesNoReport(f, x, lines);
    CopyChangesNoReport(f, y, lines);
    TotalOver(f, lines, [x] + lines);
    TotalOver(f, lines, [y] + lines);
    KeysOfHolds(lines);
    forall key | key in KeysOf(lines)
      ensures Top([x] + lines, f)(key) == if key == KeyOf(x) then f(x) else Top(lines, f)(key)
      ensures Top([y] + lines, f)(key) == if key == KeyOf(x) then f(y) else Top(lines, f)(key)
    {
      ReadFirst(x, lines, key);
      ReadFirst(y, lines, key);
    }
    SumDiffersAt(KeysOf(lines), Top([x] + lines, f), Top([y] + lines, f), KeyOf(x));
  }

  lemma Disagreement(f: Measure, lines: seq<Line>) returns (x: Line, y: Line)
    requires !Settled(f, lines)
    ensures x in lines && y in lines && KeyOf(x) == KeyOf(y) && UnitOf(x) == UnitOf(y) == TopUnit(lines, KeyOf(x))
    ensures f(x) != f(y) && BestOf(lines, KeyOf(x)).Some?
  {
    var key, c, d :| Reports(f, lines, key, TopUnit(lines, key), c) && Reports(f, lines, key, TopUnit(lines, key), d) && c != d;
    var i :| 0 <= i < |lines| && KeyOf(lines[i]) == key && UnitOf(lines[i]) == TopUnit(lines, key) && f(lines[i]) == c;
    var j :| 0 <= j < |lines| && KeyOf(lines[j]) == key && UnitOf(lines[j]) == TopUnit(lines, key) && f(lines[j]) == d;
    x, y := lines[i], lines[j];
    assert ReportsUnit(lines, key, UnitOf(x));
    TopIsReported(f, lines, key);
  }

  /**
   A snapshot is chosen by its units alone, so the total of anything else it reports is the same for every
   order and every number of copies exactly when all the biggest snapshots of each message agree on it.
   */
  lemma SettledExactly(f: Measure, lines: seq<Line>)
    ensures Settled(f, lines) <==> forall other | SameReports(f, other, lines) :: TotalOf(other, f) == TotalOf(lines, f)
  {
    KeysOfHolds(lines);
    if Settled(f, lines) {
      forall other | SameReports(f, other, lines) ensures TotalOf(other, f) == TotalOf(lines, f) {
        TotalOver(f, lines, other);
        forall key ensures Top(lines, f)(key) == Top(other, f)(key) {
          SettledAgrees(f, lines, other, key);
        }
        SameSum(KeysOf(lines), KeysOf(lines), Top(other, f), Top(lines, f));
      }
    } else {
      var x, y := Disagreement(f, lines);
      CopyChangesNoReport(f, x, lines);
      CopyChangesNoReport(f, y, lines);
      UnsettledMoves(f, lines, x, y);
    }
  }

  /** So it is with cache reads. */
  lemma CacheReadsSettledExactly(price: Pricing, lines: seq<Line>)
    ensures Settled(CacheReads(), lines) <==>
            forall other | SameReports(CacheReads(), other, lines) :: Totals(price, other).cacheRead == Totals(price, lines).cacheRead
  {
    SettledExactly(CacheReads(), lines);
    forall other ensures Totals(price, other).cacheRead as real == TotalOf(other, CacheReads()) {
      TotalsAreMaxima(price, other);
    }
  }

  /** And with dollars: exactly when the biggest snapshots of each message cost the same. */
  lemma DollarsSettledExactly(price: Pricing, lines: seq<Line>)
    ensures Settled(Dollars(price), lines) <==>
            forall other | SameReports(Dollars(price), other, lines) :: Totals(price, other).usd == Totals(price, lines).usd
  {
    SettledExactly(Dollars(price), lines);
    forall other ensures Totals(price, other).usd == TotalOf(other, Dollars(price)) {
      TotalsAreMaxima(price, other);
    }
  }

  /** Whether all dollars are known, and whether any are estimates, stays when those snapshots agree on that. */
  lemma PriceFlagsSettled(price: Pricing, lines: seq<Line>, other: seq<Line>)
    ensures Settled(Unpriced(price), lines) && SameReports(Unpriced(price), other, lines) ==>
              (Totals(price, other).usdKnown <==> Totals(price, lines).usdKnown)
    ensures Settled(Estimated(price), lines) && SameReports(Estimated(price), other, lines) ==>
              (Totals(price, other).usdApprox <==> Totals(price, lines).usdApprox)
  {
    SettledExactly(Unpriced(price), lines);
    SettledExactly(Estimated(price), lines);
    TotalsAreMaxima(price, lines);
    TotalsAreMaxima(price, other);
  }

  // ---------- the report ----------

  /** The best snapshots, line by line. */
  method Dedup(lines: seq<Line>) returns (best: OMap<Key, Line>)
    ensures best == BestMap(lines)
  {
    best := [];
    var i := 0;
    while i < |lines|
      invariant 0 <= i <= |lines|
      invariant best == BestMap(lines[..i])
    {
      assert lines[..i + 1][..i] == lines[..i];
      var prev := Get(best, KeyOf(lines[i]));
      if prev.None? || UnitOf(lines[i]) > UnitOf(prev.value) {
        best := Set(best, KeyOf(lines[i]), lines[i]);
      }
      i := i + 1;
    }
    assert lines[..i] == lines;
  }

  /** The bucket's sum with one more message. */
  function Grown(was: Option<Acc>, x: Acc): Acc
  {
    Add(if was.None? then ZERO else was.value, x)
  }

  /** The sum of the messages of one bucket, or none when it has no message. */
  function BucketOf(price: Pricing, group: Grouping, best: OMap<Key, Line>, bucket: Text): Option<Acc>
  {
    if best == [] then None
    else
      var n := |best| - 1;
      var rest := BucketOf(price, group, best[..n], bucket);
      if group(best[n].1) == bucket then Some(Grown(rest, One(price, best[n].1))) else rest
  }

  lemma SumOfCons(b: (Text, Acc), m: OMap<Text, Acc>)
    ensures SumBuckets([b] + m) == Add(b.1, SumBuckets(m))
  {
    assert ([b] + m)[1..] == m;
  }

  lemma AddOver(a: Acc, b: Acc, c: Acc)
    ensures Add(Add(a, b), c) == Add(Add(a, c), b) == Add(a, Add(b, c))
  {
  }

  lemma {:induction false} SumAfterSet(m: OMap<Text, Acc>, bucket: Text, x: Acc)
    ensures SumBuckets(Set(m, bucket, Grown(Get(m, bucket), x))) == Add(SumBuckets(m), x)
    decreases |m|
  {
    var a := Grown(Get(m, bucket), x);
    if m == [] {
      SumOfCons((bucket, a), []);
      assert [(bucket, a)] + [] == [(bucket, a)];
    } else if m[0].0 == bucket {
      SumOfCons((bucket, a), m[1..]);
      AddOver(m[0].1, x, SumBuckets(m[1..]));
    } else {
      SumAfterSet(m[1..], bucket, x);
      SumOfCons(m[0], Set(m[1..], bucket, a));
      AddOver(m[0].1, SumBuckets(m[1..]), x);
    }
  }

  /** One message into its bucket. */
  method AccInto(m: OMap<Text, Acc>, bucket: Text, price: Pricing, line: Line) returns (r: OMap<Text, Acc>)
    requires Distinct(m)
    ensures Distinct(r) && SumBuckets(r) == Add(SumBuckets(m), One(price, line))
    ensures forall b :: Get(r, b) ==
              if b == bucket then Some(Grown(Get(m, b), One(price, line))) else Get(m, b)
  {
    var a := Grown(Get(m, bucket), One(price, line));
    r := Set(m, bucket, a);
    DistinctAfterSet(m, bucket, a);
    SumAfterSet(m, bucket, One(price, line));
    forall b ensures Get(r, b) == if b == bucket then Some(a) else Get(m, b) {
      GetAfterSet(m, bucket, a, b);
    }
  }

  lemma {:induction false} SumLinesSnoc(price: Pricing, m: OMap<Key, Line>)
    requires m != []
    ensures SumLines(price, m) == Add(SumLines(price, m[..|m| - 1]), One(price, m[|m| - 1].1))
    decreases |m|
  {
    if |m| > 1 {
      SumLinesSnoc(price, m[1..]);
      assert m[1..][..|m| - 2] == m[..|m| - 1][1..];
    } else {
      assert m[1..] == [] && m[..0] == [];
    }
  }

  /** Every best snapshot into the bucket of its own line. */
  method Group(price: Pricing, group: Grouping, best: OMap<Key, Line>) returns (m: OMap<Text, Acc>)
    ensures Distinct(m) && SumBuckets(m) == SumLines(price, best)
    ensures forall b :: Get(m, b) == BucketOf(price, group, best, b)
  {
    m := [];
    var i := 0;
    while i < |best|
      invariant 0 <= i <= |best|
      invariant Distinct(m) && SumBuckets(m) == SumLines(price, best[..i])
      invariant forall b :: Get(m, b) == BucketOf(price, group, best[..i], b)
    {
      assert best[..i + 1][..i] == best[..i];
      SumLinesSnoc(price, best[..i + 1]);
      m := AccInto(m, group(best[i].1), price, best[i].1);
      i := i + 1;
    }
    assert best[..i] == best;
  }

  // ---------- the order of the buckets ----------

  function InsertBucket(b: (Text, Acc), m: OMap<Text, Acc>): OMap<Text, Acc>
  {
    if m == [] || !Below(b.0, m[0].0) then [b] + m else [m[0]] + InsertBucket(b, m[1..])
  }

  /** By key, the greatest first. */
  function SortBuckets(m: OMap<Text, Acc>): OMap<Text, Acc>
  {
    if m == [] then [] else InsertBucket(m[0], SortBuckets(m[1..]))
  }

  ghost predicate Descending(m: OMap<Text, Acc>)
  {
    forall i, j | 0 <= i < j < |m| :: Below(m[j].0, m[i].0)
  }

  lemma {:induction false} InsertBucketHolds(b: (Text, Acc), m: OMap<Text, Acc>, x: (Text, Acc))
    ensures x in InsertBucket(b, m) <==> x == b || x in m
    ensures SumBuckets(InsertBucket(b, m)) == Add(b.1, SumBuckets(m))
    decreases |m|
  {
    if m == [] || !Below(b.0, m[0].0) {
      assert ([b] + m)[1..] == m;
    } else {
      InsertBucketHolds(b, m[1..], x);
      assert ([m[0]] + InsertBucket(b, m[1..]))[1..] == InsertBucket(b, m[1..]);
      assert m == [m[0]] + m[1..];
    }
  }

  lemma {:induction false} InsertBucketOrders(b: (Text, Acc), m: OMap<Text, Acc>)
    requires Descending(m) && forall x | x in m :: x.0 != b.0
    ensures Descending(InsertBucket(b, m))
    decreases |m|
  {
    if m == [] {
    } else if !Below(b.0, m[0].0) {
      BelowIsTotal(b.0, m[0].0);
      assert m[0] in m;
      forall j | 0 < j < |m| ensures Below(m[j].0, b.0) {
        BelowIsTransitive(m[j].0, m[0].0, b.0);
      }
    } else {
      InsertBucketOrders(b, m[1..]);
      var r := InsertBucket(b, m[1..]);
      forall j | 0 <= j < |r| ensures Below(r[j].0, m[0].0) {
        InsertBucketHolds(b, m[1..], r[j]);
      }
    }
  }

  lemma {:induction false} SortBucketsOrders(m: OMap<Text, Acc>)
    requires Distinct(m)
    ensures Descending(SortBuckets(m)) && SumBuckets(SortBuckets(m)) == SumBuckets(m)
    ensures forall x :: x in SortBuckets(m) <==> x in m
    decreases |m|
  {
    if m != [] {
      SortBucketsOrders(m[1..]);
      var rest := SortBuckets(m[1..]);
      forall x | x in rest ensures x.0 != m[0].0 {
        var j :| 0 <= j < |m[1..]| && m[1..][j] == x;
        assert m[j + 1].0 != m[0].0;
      }
      InsertBucketOrders(m[0], rest);
      forall x ensures x in SortBuckets(m) <==> x in m {
        InsertBucketHolds(m[0], rest, x);
        assert m == [m[0]] + m[1..];
      }
      InsertBucketHolds(m[0], rest, m[0]);
    }
  }

  lemma {:induction false} SumBucketsSnoc(m: OMap<Text, Acc>)
    requires m != []
    ensures SumBuckets(m) == Add(SumBuckets(m[..|m| - 1]), m[|m| - 1].1)
    decreases |m|
  {
    if |m| > 1 {
      SumBucketsSnoc(m[1..]);
      assert m[1..][..|m| - 2] == m[..|m| - 1][1..];
    } else {
      assert m[1..] == [] && m[..0] == [];
    }
  }

  /** `buckets.reduce(...)`. */
  method Reduce(m: OMap<Text, Acc>) returns (t: Acc)
    ensures t == SumBuckets(m)
  {
    t := ZERO;
    var i := 0;
    while i < |m|
      invariant 0 <= i <= |m|
      invariant t == SumBuckets(m[..i])
    {
      SumBucketsSnoc(m[..i + 1]);
      assert m[..i + 1][..i] == m[..i];
      t := Add(t, m[i].1);
      i := i + 1;
    }
    assert m[..i] == m;
  }

  lemma InMapIsGot(m: OMap<Text, Acc>, x: (Text, Acc))
    requires Distinct(m)
    ensures x in m <==> Get(m, x.0) == Some(x.1)
  {
    GetFinds(m, x.0);
    if x in m {
      var i :| 0 <= i < |m| && m[i] == x;
      GetAt(m, i);
    }
  }

  /**
   The report: every message once, in the bucket of its biggest snapshot's own line; buckets by key, the
   newest first; totals over all of them, which no grouping changes.
   */
  method ClaudeBreakdown(price: Pricing, group: Grouping, lines: seq<Line>) returns (report: Report)
    ensures report.totals == Totals(price, lines)
    ensures SumBuckets(report.buckets) == report.totals
    ensures Descending(report.buckets)
    ensures forall x :: x in report.buckets <==> BucketOf(price, group, BestMap(lines), x.0) == Some(x.1)
  {
    var best := Dedup(lines);
    var m := Group(price, group, best);
    var buckets := SortBuckets(m);
    SortBucketsOrders(m);
    forall x ensures x in buckets <==> BucketOf(price, group, best, x.0) == Some(x.1) {
      InMapIsGot(m, x);
    }
    var totals := Reduce(buckets);
    report := Report(buckets, totals);
  }
}
