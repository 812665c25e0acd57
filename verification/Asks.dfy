/**
 The ask scanner: the prompts of a transcript and the token usage of its moments, kept up to date
 incrementally, and the turn a moment belongs to.  `Answer` reads the whole transcript at once; the class
 `AskScanner` resumes from a line boundary and never persists the unterminated tail.
 */
module Asks {
  import opened Basics
  import opened Lines

  type bytes = seq<byte>
  type Id = string

  const HEAD_BYTES: nat := 64

  datatype Ask = Ask(ts: int, text: string, id: Option<Id>)
  datatype TokenAt = TokenAt(ts: int, tokens: int)
  /** Usage an assistant message reports. */
  datatype Usage = Usage(message: Id, ts: int, tokens: int)

  /** What one line says: nothing, a record, or a value on which reading a field throws. */
  datatype Meaning = Skip | Throws | Record(usage: Option<Usage>, prompt: Option<Ask>)

  /** Trimming, JSON, prompt recognition and time stamps are a parameter. */
  type Reader = bytes -> Meaning

  datatype Scan = Scan(asks: seq<Ask>, tokenAt: seq<TokenAt>, seen: set<Id>)

  const EMPTY: Scan := Scan([], [], {})

  /** One record: usage once per message id, and only dated entries. */
  function Note(s: Scan, usage: Option<Usage>, prompt: Option<Ask>): Scan
  {
    var counted :=
      if usage.None? || usage.value.message in s.seen then s
      else
        var u := usage.value;
        Scan(s.asks, if u.ts != 0 && u.tokens != 0 then s.tokenAt + [TokenAt(u.ts, u.tokens)] else s.tokenAt, s.seen + {u.message});
    if prompt.None? || prompt.value.ts == 0 then counted else counted.(asks := counted.asks + [prompt.value])
  }

  /** The lines from first to last; None when one of them throws. */
  function ScanLines(read: Reader, s: Scan, lines: seq<bytes>): Option<Scan>
    decreases |lines|
  {
    if lines == [] then Some(s)
    else if lines[0] == [] then ScanLines(read, s, lines[1..])
    else
      match read(lines[0])
      case Skip => ScanLines(read, s, lines[1..])
      case Throws => None
      case Record(usage, prompt) => ScanLines(read, Note(s, usage, prompt), lines[1..])
  }

  /** `text.split('\n')`. */
  function Split(text: bytes): seq<bytes>
  {
    CompleteLines(text) + [Tail(text)]
  }

  datatype Result = Result(asks: seq<Ask>, tokenAt: seq<TokenAt>)

  /** In front of what is not earlier. */
  function InsertAsk(a: Ask, asks: seq<Ask>): seq<Ask>
  {
    if asks == [] || a.ts <= asks[0].ts then [a] + asks else [asks[0]] + InsertAsk(a, asks[1..])
  }

  /** `sort((a, b) => a.ts - b.ts)`, which is stable. */
  function SortByTime(asks: seq<Ask>): seq<Ask>
  {
    if asks == [] then [] else InsertAsk(asks[0], SortByTime(asks[1..]))
  }

  /** A scan of everything the transcript holds now. */
  function Answer(read: Reader, src: bytes): Option<Result>
  {
    match ScanLines(read, EMPTY, Split(src))
    case None => None
    case Some(s) => Some(Result(SortByTime(s.asks), s.tokenAt))
  }

  // ---------- the order of asks ----------

  ghost predicate Ascending(b: seq<int>)
  {
    forall i, j | 0 <= i < j < |b| :: b[i] <= b[j]
  }

  /** `asks.map(a => a.ts)`. */
  function Boundaries(asks: seq<Ask>): (b: seq<int>)
    ensures |b| == |asks| && forall i | 0 <= i < |asks| :: b[i] == asks[i].ts
  {
    seq(|asks|, i requires 0 <= i < |asks| => asks[i].ts)
  }

  /** The asks of one moment, in order. */
  function OfMoment(asks: seq<Ask>, ts: int): seq<Ask>
  {
    if asks == [] then [] else (if asks[0].ts == ts then [asks[0]] else []) + OfMoment(asks[1..], ts)
  }

  function CountUpTo(asks: seq<Ask>, ts: int): nat
  {
    if asks == [] then 0 else (if asks[0].ts <= ts then 1 else 0) + CountUpTo(asks[1..], ts)
  }

  lemma {:induction false} InsertAskHolds(a: Ask, asks: seq<Ask>, x: Ask)
    ensures x in InsertAsk(a, asks) <==> x == a || x in asks
    decreases |asks|
  {
    if asks != [] && a.ts > asks[0].ts {
      InsertAskHolds(a, asks[1..], x);
      assert asks == [asks[0]] + asks[1..];
    }
  }

  lemma {:induction false} InsertAskOrders(a: Ask, asks: seq<Ask>)
    requires Ascending(Boundaries(asks))
    ensures Ascending(Boundaries(InsertAsk(a, asks)))
    decreases |asks|
  {
    if asks != [] && a.ts > asks[0].ts {
      var first, rest := asks[0], asks[1..];
      assert Boundaries(rest) == Boundaries(asks)[1..];
      InsertAskOrders(a, rest);
      var r := InsertAsk(a, rest);
      forall k | 0 <= k < |r| ensures first.ts <= Boundaries(r)[k] {
        InsertAskHolds(a, rest, r[k]);
        if r[k] in rest {
          var j :| 0 <= j < |rest| && rest[j] == r[k];
          assert Boundaries(asks)[0] <= Boundaries(asks)[j + 1];
        }
      }
    }
  }

  lemma {:induction false} InsertAskKeeps(a: Ask, asks: seq<Ask>, ts: int)
    ensures OfMoment(InsertAsk(a, asks), ts) == OfMoment([a] + asks, ts)
    ensures CountUpTo(InsertAsk(a, asks), ts) == CountUpTo([a] + asks, ts)
    decreases |asks|
  {
    if asks != [] && a.ts > asks[0].ts {
      InsertAskKeeps(a, asks[1..], ts);
      assert ([a] + asks)[1..] == asks && ([a] + asks[1..])[1..] == asks[1..];
      assert ([asks[0]] + InsertAsk(a, asks[1..]))[1..] == InsertAsk(a, asks[1..]);
    }
  }

  /**
   The answer's asks are in order of time; the asks of one moment keep the order of the transcript, none
   lost and none made up.
   */
  lemma {:induction false} SortByTimeIsStable(asks: seq<Ask>, ts: int)
    ensures Ascending(Boundaries(SortByTime(asks)))
    ensures OfMoment(SortByTime(asks), ts) == OfMoment(asks, ts)
    ensures CountUpTo(SortByTime(asks), ts) == CountUpTo(asks, ts)
    decreases |asks|
  {
    if asks != [] {
      SortByTimeIsStable(asks[1..], ts);
      var rest := SortByTime(asks[1..]);
      InsertAskOrders(asks[0], rest);
      InsertAskKeeps(asks[0], rest, ts);
      assert ([asks[0]] + rest)[1..] == rest;
    }
  }

  // ---------- resuming at a line boundary ----------

  lemma {:induction false} ScanInTwo(read: Reader, s: Scan, a: seq<bytes>, b: seq<bytes>)
    ensures ScanLines(read, s, a + b) ==
            match ScanLines(read, s, a) case None => None case Some(mid) => ScanLines(read, mid, b)
    decreases |a|
  {
    if a == [] {
      assert a + b == b;
    } else {
      assert (a + b)[1..] == a[1..] + b;
      if a[0] == [] || read(a[0]).Skip? {
        ScanInTwo(read, s, a[1..], b);
      } else if read(a[0]).Record? {
        ScanInTwo(read, Note(s, read(a[0]).usage, read(a[0]).prompt), a[1..], b);
      }
    }
  }

  /** An empty last piece says nothing. */
  lemma SplitAtNewline(read: Reader, s: Scan, text: bytes)
    requires Tail(text) == []
    ensures ScanLines(read, s, Split(text)) == ScanLines(read, s, CompleteLines(text))
  {
    var blank: seq<bytes> := [[]];
    ScanInTwo(read, s, CompleteLines(text), blank);
    assert Split(text) == CompleteLines(text) + blank;
    assert blank[1..] == [];
    assert ScanLines(read, s, blank) == Some(s);
  }

  // ---------- what a scan reports ----------

  /** The record a line holds, if it holds one. */
  function Said(read: Reader, line: bytes): Meaning
  {
    if line == [] then Skip else read(line)
  }

  /** The line holds a dated prompt. */
  predicate Prompts(read: Reader, line: bytes)
  {
    Said(read, line).Record? && read(line).prompt.Some? && read(line).prompt.value.ts != 0
  }

  /** The line reports usage of this message. */
  predicate Reports(read: Reader, line: bytes, message: Id)
  {
    Said(read, line).Record? && read(line).usage.Some? && read(line).usage.value.message == message
  }

  /** The line is the first to report usage of its message, and that is dated and not nothing. */
  ghost predicate Charges(read: Reader, lines: seq<bytes>, i: nat)
    requires i < |lines|
  {
    && Said(read, lines[i]).Record? && read(lines[i]).usage.Some?
    && read(lines[i]).usage.value.ts != 0 && read(lines[i]).usage.value.tokens != 0
    && forall j | 0 <= j < i :: !Reports(read, lines[j], read(lines[i]).usage.value.message)
  }

  /** The asks are the dated prompts, in the order of the transcript. */
  ghost predicate AsksAt(read: Reader, lines: seq<bytes>, asks: seq<Ask>, at: seq<nat>)
  {
    && |at| == |asks|
    && (forall k, l | 0 <= k < l < |at| :: at[k] < at[l])
    && (forall i: nat :: i in at <==> i < |lines| && Prompts(read, lines[i]))
    && (forall k | 0 <= k < |at| :: at[k] in at && Some(asks[k]) == read(lines[at[k]]).prompt)
  }

  /** The usage a line reports, without its message. */
  function ChargeOf(read: Reader, line: bytes): TokenAt
  {
    if Said(read, line).Record? && read(line).usage.Some?
    then TokenAt(read(line).usage.value.ts, read(line).usage.value.tokens)
    else TokenAt(0, 0)
  }

  /** The charges are the first reports of each message's usage, in the order of the transcript. */
  ghost predicate ChargesAt(read: Reader, lines: seq<bytes>, tokenAt: seq<TokenAt>, at: seq<nat>)
  {
    && |at| == |tokenAt|
    && (forall k, l | 0 <= k < l < |at| :: at[k] < at[l])
    && (forall i: nat :: i in at <==> i < |lines| && Charges(read, lines, i))
    && (forall k | 0 <= k < |at| ::
          at[k] < |lines| && tokenAt[k] == ChargeOf(read, lines[at[k]]))
  }

  ghost predicate SeenAre(read: Reader, lines: seq<bytes>, seen: set<Id>)
  {
    forall id :: id in seen <==> exists i | 0 <= i < |lines| :: Reports(read, lines[i], id)
  }

  lemma OneMoreLine(read: Reader, lines: seq<bytes>, line: bytes)
    ensures ScanLines(read, EMPTY, lines + [line]) ==
            match ScanLines(read, EMPTY, lines)
            case None => None
            case Some(s) =>
              match Said(read, line)
              case Skip => Some(s)
              case Throws => None
              case Record(usage, prompt) => Some(Note(s, usage, prompt))
  {
    ScanInTwo(read, EMPTY, lines, [line]);
    assert [line][1..] == [];
  }

  /** A scan throws exactly when some line does. */
  lemma {:induction false} ThrowsExactly(read: Reader, lines: seq<bytes>)
    ensures ScanLines(read, EMPTY, lines).None? <==> exists i | 0 <= i < |lines| :: Said(read, lines[i]).Throws?
    decreases |lines|
  {
    if lines != [] {
      var n := |lines| - 1;
      var front := lines[..n];
      ThrowsExactly(read, front);
      OneMoreLine(read, front, lines[n]);
      assert lines == front + [lines[n]];
      if i :| 0 <= i < |lines| && Said(read, lines[i]).Throws? {
        assert i < n ==> front[i] == lines[i];
      }
    }
  }

  lemma AskAdded(read: Reader, lines: seq<bytes>, line: bytes, asks: seq<Ask>, at: seq<nat>) returns (at': seq<nat>)
    requires AsksAt(read, lines, asks, at)
    ensures AsksAt(read, lines + [line], asks + (if Prompts(read, line) then [read(line).prompt.value] else []), at')
  {
    var n, more := |lines|, lines + [line];
    at' := if Prompts(read, line) then at + [n] else at;
    forall i: nat ensures i in at' <==> i < |more| && Prompts(read, more[i]) {
      assert i in at' <==> i in at || (i == n && Prompts(read, line));
      assert i < n ==> more[i] == lines[i];
    }
    forall k | 0 <= k < |at| ensures at'[k] == at[k] && more[at[k]] == lines[at[k]] {
      assert at[k] in at;
    }
  }

  lemma ChargesBefore(read: Reader, lines: seq<bytes>, line: bytes, i: nat)
    requires i < |lines|
    ensures (lines + [line])[i] == lines[i] && (Charges(read, lines + [line], i) <==> Charges(read, lines, i))
  {
    var more := lines + [line];
    assert forall j | 0 <= j <= i :: more[j] == lines[j];
  }

  lemma ChargePlaces(read: Reader, lines: seq<bytes>, line: bytes, at: seq<nat>, at': seq<nat>)
    requires forall i: nat :: i in at <==> i < |lines| && Charges(read, lines, i)
    requires at' == if Charges(read, lines + [line], |lines|) then at + [|lines|] else at
    ensures forall i: nat :: i in at' <==> i < |lines| + 1 && Charges(read, lines + [line], i)
  {
    var n := |lines|;
    forall i: nat ensures i in at' <==> i < n + 1 && Charges(read, lines + [line], i) {
      assert i in at' <==> i in at || (i == n && Charges(read, lines + [line], n));
      if i < n {
        ChargesBefore(read, lines, line, i);
      }
    }
  }

  lemma ChargeAdded(read: Reader, lines: seq<bytes>, line: bytes, tokenAt: seq<TokenAt>, at: seq<nat>, at': seq<nat>, more: seq<bytes>)
    requires ChargesAt(read, lines, tokenAt, at) && more == lines + [line]
    requires at' == if Charges(read, more, |lines|) then at + [|lines|] else at
    ensures ChargesAt(read, more, tokenAt + (if Charges(read, more, |lines|) then [ChargeOf(read, line)] else []), at')
  {
    ChargePlaces(read, lines, line, at, at');
    forall k | 0 <= k < |at| ensures more[at[k]] == lines[at[k]] {
    }
  }

  lemma SeenAdded(read: Reader, lines: seq<bytes>, line: bytes, seen: set<Id>)
    requires SeenAre(read, lines, seen)
    ensures SeenAre(read, lines + [line],
              seen + (if Said(read, line).Record? && read(line).usage.Some? then {read(line).usage.value.message} else {}))
  {
    var n, more := |lines|, lines + [line];
    var next := seen + (if Said(read, line).Record? && read(line).usage.Some? then {read(line).usage.value.message} else {});
    forall id ensures id in next <==> exists i | 0 <= i < |more| :: Reports(read, more[i], id) {
      assert id in next <==> id in seen || Reports(read, line, id);
      assert more[n] == line;
      if id in seen {
        var i :| 0 <= i < n && Reports(read, lines[i], id);
        assert more[i] == lines[i];
      }
      if i :| 0 <= i < |more| && Reports(read, more[i], id) {
        assert i < n ==> more[i] == lines[i];
      }
    }
  }

  lemma ChargesWhenUnseen(read: Reader, lines: seq<bytes>, line: bytes, seen: set<Id>)
    requires SeenAre(read, lines, seen)
    ensures Charges(read, lines + [line], |lines|) <==>
            && Said(read, line).Record? && read(line).usage.Some? && read(line).usage.value.message !in seen
            && read(line).usage.value.ts != 0 && read(line).usage.value.tokens != 0
  {
    var more := lines + [line];
    assert forall j | 0 <= j < |lines| :: more[j] == lines[j];
    if Said(read, line).Record? && read(line).usage.Some? && read(line).usage.value.message in seen {
      var i :| 0 <= i < |lines| && Reports(read, lines[i], read(line).usage.value.message);
      assert Reports(read, more[i], read(more[|lines|]).usage.value.message);
    }
  }

  /** What one line adds to the result. */
  lemma SameAsAdded(read: Reader, lines: seq<bytes>, line: bytes, s: Scan)
    requires SeenAre(read, lines, s.seen) && !Said(read, line).Throws?
    ensures var next := if Said(read, line).Record? then Note(s, read(line).usage, read(line).prompt) else s;
            && next.asks == s.asks + (if Prompts(read, line) then [read(line).prompt.value] else [])
            && next.tokenAt == s.tokenAt + (if Charges(read, lines + [line], |lines|)
                                            then [ChargeOf(read, line)] else [])
            && next.seen == s.seen + (if Said(read, line).Record? && read(line).usage.Some? then {read(line).usage.value.message} else {})
  {
    ChargesWhenUnseen(read, lines, line, s.seen);
    assert s.asks + [] == s.asks && s.tokenAt + [] == s.tokenAt;
  }

  /**
   What a scan that does not throw reports: the dated prompts, and for every message that reports usage the first
   report, if that is dated and not nothing; both in the order of the transcript.
   */
  lemma {:induction false} ScanReportsExactly(read: Reader, lines: seq<bytes>) returns (asksAt: seq<nat>, chargesAt: seq<nat>)
    requires ScanLines(read, EMPTY, lines).Some?
    ensures var s := ScanLines(read, EMPTY, lines).value;
            && AsksAt(read, lines, s.asks, asksAt) && ChargesAt(read, lines, s.tokenAt, chargesAt)
            && SeenAre(read, lines, s.seen)
    decreases |lines|
  {
    asksAt, chargesAt := [], [];
    if lines != [] {
      var n := |lines| - 1;
      var front, line := lines[..n], lines[n];
      assert lines == front + [line];
      OneMoreLine(read, front, line);
      asksAt, chargesAt := ScanReportsExactly(read, front);
      var s := ScanLines(read, EMPTY, front).value;
      ChargesWhenUnseen(read, front, line, s.seen);
      SeenAdded(read, front, line, s.seen);
      asksAt := AskAdded(read, front, line, s.asks, asksAt);
      var more := if Charges(read, lines, n) then chargesAt + [n] else chargesAt;
      ChargeAdded(read, front, line, s.tokenAt, chargesAt, more, lines);
      chargesAt := more;
      SameAsAdded(read, front, line, s);
    }
  }

  // ---------- the scanner ----------

  datatype AskCache = AskCache(cursor: nat, head: bytes, scan: Scan)

  function Head(src: bytes): bytes
  {
    src[..Min(HEAD_BYTES, |src|)]
  }

  /** The persisted state is what the first `cursor` bytes, all complete lines, say. */
  ghost predicate Covers(read: Reader, c: AskCache, src: bytes)
  {
    && c.cursor <= |src|
    && TailStart(src[..c.cursor]) == c.cursor
    && ScanLines(read, EMPTY, CompleteLines(src[..c.cursor])) == Some(c.scan)
  }

  /** What happens to a transcript: it grows, or it is scanned, with or without a place to keep the state. */
  datatype Event = Grow(more: bytes) | Request(keeps: bool)

  function Answers(read: Reader, src: bytes, events: seq<Event>): seq<Option<Result>>
    decreases |events|
  {
    if events == [] then []
    else
      match events[0]
      case Grow(more) => Answers(read, src + more, events[1..])
      case Request(_) => [Answer(read, src)] + Answers(read, src, events[1..])
  }

  /** The lines of one chunk into the running result. */
  method ScanChunk(read: Reader, s: Scan, text: bytes) returns (r: Option<Scan>)
    ensures r == ScanLines(read, s, Split(text))
  {
    var lines, i, scan := Split(text), 0, s;
    assert lines[0..] == lines;
    while i < |lines|
      invariant 0 <= i <= |lines|
      invariant ScanLines(read, s, lines) == ScanLines(read, scan, lines[i..])
    {
      assert lines[i..][1..] == lines[i + 1..];
      if lines[i] != [] {
        match read(lines[i]) {
          case Skip =>
          case Throws => return None;
          case Record(usage, prompt) => scan := Note(scan, usage, prompt);
        }
      }
      i := i + 1;
    }
    r := Some(scan);
  }

  /** The complete lines after a boundary, and where they end. */
  lemma ResumedLines(read: Reader, u: bytes, v: bytes, at: Scan)
    requires TailStart(u) == |u| && ScanLines(read, EMPTY, CompleteLines(u)) == Some(at)
    ensures var w := u + v[..TailStart(v)];
            && TailStart(w) == |w|
            && ScanLines(read, EMPTY, CompleteLines(w)) == ScanLines(read, at, Split(v[..TailStart(v)]))
  {
    var front := v[..TailStart(v)];
    UpToLastNewline(v);
    SplitAtNewline(read, at, front);
    LinesFromBoundary(u, front);
    TailFromBoundary(u, front);
    ScanInTwo(read, EMPTY, CompleteLines(u), CompleteLines(front));
  }

  /** They and the tail are the rest of the transcript. */
  lemma ResumedScan(read: Reader, u: bytes, v: bytes, at: Scan)
    requires TailStart(u) == |u| && ScanLines(read, EMPTY, CompleteLines(u)) == Some(at)
    ensures ScanLines(read, EMPTY, Split(u + v)) ==
            match ScanLines(read, at, Split(v[..TailStart(v)])) case None => None case Some(mid) => ScanLines(read, mid, [Tail(v)])
  {
    UpToLastNewline(v);
    SplitAtNewline(read, at, v[..TailStart(v)]);
    LinesFromBoundary(u, v);
    TailFromBoundary(u, v);
    ScanInTwo(read, EMPTY, CompleteLines(u), CompleteLines(v));
    ScanInTwo(read, EMPTY, CompleteLines(u + v), [Tail(v)]);
  }

  lemma EmptyTailIsSilent(read: Reader, s: Scan, v: bytes)
    ensures Tail(v) == [] ==> ScanLines(read, s, [Tail(v)]) == Some(s)
  {
    assert [Tail(v)][1..] == [];
  }

  lemma {:induction false} NoNewlineNoLine(v: bytes)
    requires NoNewline(v, 0, |v|)
    ensures CompleteLines(v) == [] && TailStart(v) == 0
    decreases |v|
  {
    if v != [] {
      NoNewlineNoLine(v[..|v| - 1]);
    }
  }

  lemma UnterminatedIsOnePiece(v: bytes)
    ensures Split(v[TailStart(v)..]) == [Tail(v)]
  {
    NoNewlineNoLine(Tail(v));
  }

  /** The unterminated tail, if there is one, on a copy of the state. */
  method ScanTail(read: Reader, s: Scan, buffer: bytes) returns (r: Option<Scan>)
    ensures r == ScanLines(read, s, [Tail(buffer)])
  {
    if |buffer| > TailStart(buffer) {
      UnterminatedIsOnePiece(buffer);
      r := ScanChunk(read, s, buffer[TailStart(buffer)..]);
    } else {
      EmptyTailIsSilent(read, s, buffer);
      r := Some(s);
    }
  }

  /** Everything after `from`: the state to persist, what it covers, and the state of the answer. */
  method ScanFrom(read: Reader, src: bytes, from: nat, at: Scan) returns (kept: Option<Scan>, upTo: nat, all: Option<Scan>)
    requires from <= |src| && TailStart(src[..from]) == from && ScanLines(read, EMPTY, CompleteLines(src[..from])) == Some(at)
    ensures all == ScanLines(read, EMPTY, Split(src))
    ensures from <= upTo == TailStart(src)
    ensures kept.None? ==> all.None?
    ensures kept.Some? ==> TailStart(src[..upTo]) == upTo && ScanLines(read, EMPTY, CompleteLines(src[..upTo])) == kept
  {
    var buffer := src[from..];
    ghost var before := src[..from];
    assert src == before + buffer;
    ResumedLines(read, before, buffer, at);
    ResumedScan(read, before, buffer, at);
    TailFromBoundary(before, buffer);
    upTo := from + TailStart(buffer);
    assert src[..upTo] == before + buffer[..TailStart(buffer)];
    kept := ScanChunk(read, at, buffer[..TailStart(buffer)]);
    all := None;
    if kept.Some? {
      all := ScanTail(read, kept.value, buffer);
    }
  }

  class AskScanner {
    const read: Reader
    var cache: Option<AskCache>

    constructor (read: Reader)
      ensures this.read == read && cache == None
    {
      this.read := read;
      cache := None;
    }

    /** A scan of `src` would resume from the cache. */
    predicate Resumes(src: bytes)
      reads this
    {
      cache.Some? && cache.value.cursor <= |src| && cache.value.head == Head(src)
    }

    /** A cache that a scan would resume from covers the transcript's beginning. */
    ghost predicate Sound(src: bytes)
      reads this
    {
      Resumes(src) ==> Covers(read, cache.value, src)
    }

    /** Every cache covers the transcript it was left by. */
    ghost predicate Valid(src: bytes)
      reads this
    {
      cache.Some? ==> Covers(read, cache.value, src)
    }

    lemma ValidAfterGrowth(src: bytes, more: bytes)
      requires Valid(src)
      ensures Valid(src + more)
    {
      if cache.Some? {
        assert (src + more)[..cache.value.cursor] == src[..cache.value.cursor];
      }
    }

    /**
     One scan.  `keeps` says whether the new state can be written.  The answer is the one a scan of the
     whole transcript gives, throwing included, and what is persisted holds complete lines only.
     A replaced transcript is scanned right as well when its first bytes differ from the cache's.
     */
    method ScanTranscript(src: bytes, keeps: bool) returns (answer: Option<Result>)
      requires Sound(src)
      modifies this`cache
      ensures answer == Answer(read, src)
      ensures cache == old(cache) || (cache.Some? && Valid(src) && cache.value.cursor == TailStart(src))
      ensures keeps && answer.Some? && TailStart(src) > 0 ==> cache.Some? && cache.value.cursor == TailStart(src)
    {
      var c := if Resumes(src) then cache else None;
      var from := if c.Some? then c.value.cursor else 0;
      assert src[..0] == [];
      var kept, upTo, all := ScanFrom(read, src, from, if c.Some? then c.value.scan else EMPTY);
      if kept.Some? && keeps && (c.None? || upTo > from) {
        cache := Some(AskCache(upTo, Head(src), kept.value));
      }
      answer := if all.None? then None else Some(Result(SortByTime(all.value.asks), all.value.tokenAt));
    }

    /** Any schedule of appends and scans, from a fresh start: every answer is that of a full scan then. */
    method Run(src0: bytes, events: seq<Event>) returns (answers: seq<Option<Result>>)
      requires cache == None
      modifies this`cache
      ensures answers == Answers(read, src0, events)
    {
      var src, i := src0, 0;
      answers := [];
      assert events[0..] == events;
      while i < |events|
        invariant 0 <= i <= |events|
        invariant Valid(src)
        invariant answers + Answers(read, src, events[i..]) == Answers(read, src0, events)
      {
        assert events[i..][1..] == events[i + 1..];
        match events[i] {
          case Grow(more) =>
            ValidAfterGrowth(src, more);
            src := src + more;
          case Request(keeps) =>
            var answer := ScanTranscript(src, keeps);
            assert answers + ([answer] + Answers(read, src, events[i + 1..])) == (answers + [answer]) + Answers(read, src, events[i + 1..]);
            answers := answers + [answer];
        }
        i := i + 1;
      }
    }
  }

  // ---------- the turn of a moment ----------

  /** Which turn a moment belongs to: the newest ask at or before it; -1 before all, and for no time. */
  method WindowOf(boundaries: seq<int>, ts: int) returns (turn: int)
    requires Ascending(boundaries)
    ensures turn == -1 <==> boundaries == [] || ts == 0 || ts < boundaries[0]
    ensures turn != -1 ==> 0 <= turn < |boundaries| && boundaries[turn] <= ts
    ensures turn != -1 ==> forall k | turn < k < |boundaries| :: boundaries[k] > ts
  {
    if boundaries == [] || ts == 0 || ts < boundaries[0] {
      return -1;
    }
    var lo, hi := 0, |boundaries| - 1;
    while lo < hi
      invariant 0 <= lo <= hi < |boundaries|
      invariant boundaries[lo] <= ts
      invariant forall k | hi < k < |boundaries| :: boundaries[k] > ts
    {
      var mid := (lo + hi + 1) / 2;
      if boundaries[mid] <= ts {
        lo := mid;
      } else {
        hi := mid - 1;
      }
    }
    turn := lo;
  }

  lemma {:induction false} CountInOrder(asks: seq<Ask>, ts: int, n: nat)
    requires n <= |asks| && (forall i | 0 <= i < n :: asks[i].ts <= ts) && (forall i | n <= i < |asks| :: asks[i].ts > ts)
    ensures CountUpTo(asks, ts) == n
    decreases |asks|
  {
    if asks != [] {
      CountInOrder(asks[1..], ts, if n > 0 then n - 1 else 0);
    }
  }

  lemma TurnCounts(asks: seq<Ask>, ts: int, turn: int)
    requires Ascending(Boundaries(asks)) && -1 <= turn < |asks|
    requires turn == -1 ==> asks == [] || ts < Boundaries(asks)[0]
    requires turn != -1 ==> Boundaries(asks)[turn] <= ts
    requires forall k | turn < k < |asks| && turn != -1 :: Boundaries(asks)[k] > ts
    ensures CountUpTo(asks, ts) == turn + 1
  {
    assert forall i | 0 <= i < |asks| :: Boundaries(asks)[i] == asks[i].ts;
    CountInOrder(asks, ts, turn + 1);
  }

  /**
   The turn of a moment in a transcript: as many turns have begun as there are dated asks at or before it,
   wherever the transcript has them.
   */
  method TurnOf(read: Reader, src: bytes, ts: int) returns (turn: int)
    requires Answer(read, src).Some? && ts != 0
    ensures turn + 1 == CountUpTo(ScanLines(read, EMPTY, Split(src)).value.asks, ts)
  {
    var asks := Answer(read, src).value.asks;
    ghost var unsorted := ScanLines(read, EMPTY, Split(src)).value.asks;
    SortByTimeIsStable(unsorted, ts);
    turn := WindowOf(Boundaries(asks), ts);
    TurnCounts(asks, ts, turn);
  }
}
