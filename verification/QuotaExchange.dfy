/**
 The rate-limit exchange with a Codex app-server: messages framed by newlines, a handshake before the one
 question asked, and an outcome fixed by whatever ends it first.

 What a line says is a parameter, down to the fields that are looked at; so is the account digest.
 Numbers are reals, and a number that is not finite is None.
 */
module QuotaExchange {
  import opened Basics
  import opened Lines

  type bytes = seq<byte>

  const LIMIT: nat := 1024 * 1024

  // ---------- the answer ----------

  datatype Window = Window(usedPercent: Option<real>, durationMins: Option<real>, resetsAt: Option<real>)
  datatype LimitId = Absent | Named(name: string) | NotText
  datatype Bucket = Bucket(limitId: LimitId, primary: Option<Window>, secondary: Option<Window>)

  /** The result of the id-2 reply: buckets by limit id, when there are any, come before the plain one. */
  datatype Answer = NotAnObject
                  | Answer(accountId: Option<string>, byLimitId: Option<Option<Bucket>>, rateLimits: Option<Bucket>)

  datatype Quota = Quota(account: string, snapshotMs: real, fivePct: Option<real>, fiveReset: Option<real>,
                         weekPct: Option<real>, weekReset: Option<real>)

  const FIVE_HOURS_MAX: real := 21600000.0
  const WEEK_MAX: real := 691200000.0
  const SKEW: real := 5000.0
  const MAX_AGE: real := 1800000.0

  predicate Percentage(p: Option<real>)
  {
    p.Some? ==> p.value >= 0.0
  }

  predicate Positive(t: Option<real>)
  {
    t.Some? ==> t.value > 0.0
  }

  /** The rules a cached or fresh quota has to meet to be shown. */
  predicate ValidQuota(q: Quota, account: string, now: real, maxAge: real)
  {
    && account != "" && q.account == account
    && q.snapshotMs <= now + SKEW && now - q.snapshotMs <= maxAge
    && Percentage(q.fivePct) && Positive(q.fiveReset) && Percentage(q.weekPct) && Positive(q.weekReset)
    && (q.fiveReset.Some? ==> q.fiveReset.value <= now + FIVE_HOURS_MAX)
    && (q.weekReset.Some? ==> q.weekReset.value <= now + WEEK_MAX)
    && (q.fivePct.Some? || q.weekPct.Some?)
  }

  /** Complete, in the future, and of some length. */
  predicate Live(w: Option<Window>, now: real)
  {
    && w.Some? && w.value.usedPercent.Some? && w.value.durationMins.Some? && w.value.resetsAt.Some?
    && w.value.usedPercent.value >= 0.0 && w.value.durationMins.value > 0.0 && w.value.resetsAt.value * 1000.0 > now
  }

  predicate IsWeekly(w: Option<Window>, now: real)
  {
    Live(w, now) && 1440.0 <= w.value.durationMins.value < 20160.0
  }

  predicate IsFiveHour(w: Option<Window>, now: real)
  {
    Live(w, now) && w.value.durationMins.value < 1440.0
  }

  /** The bucket an answer's quota comes from. */
  function BucketOf(a: Answer): Option<Bucket>
  {
    if a.NotAnObject? then None else if a.byLimitId.Some? then a.byLimitId.value else a.rateLimits
  }

  /** The answer is about this account, and about Codex. */
  predicate About(a: Answer, account: string, digest: string -> string)
  {
    && a.Answer? && a.accountId.Some? && a.accountId.value != "" && digest(a.accountId.value) == account
    && BucketOf(a).Some? && (BucketOf(a).value.limitId == Absent || BucketOf(a).value.limitId == Named("codex"))
  }

  /** Of two windows of one kind the secondary stands. */
  function Choose(primary: Option<Window>, isPrimary: bool, secondary: Option<Window>, isSecondary: bool): Option<Window>
  {
    if isSecondary then secondary else if isPrimary then primary else None
  }

  function FromWindows(account: string, now: real, five: Option<Window>, week: Option<Window>): Quota
    requires five.Some? ==> Live(five, now)
    requires week.Some? ==> Live(week, now)
  {
    Quota(account, now,
          if five.Some? then five.value.usedPercent else None, if five.Some? then Some(five.value.resetsAt.value * 1000.0) else None,
          if week.Some? then week.value.usedPercent else None, if week.Some? then Some(week.value.resetsAt.value * 1000.0) else None)
  }

  /** The quota an answer publishes for an account, if any. */
  function QuotaOf(a: Answer, account: string, now: real, digest: string -> string): Option<Quota>
  {
    if !About(a, account, digest) then None
    else
      var b := BucketOf(a).value;
      var q := FromWindows(account, now,
        Choose(b.primary, IsFiveHour(b.primary, now), b.secondary, IsFiveHour(b.secondary, now)),
        Choose(b.primary, IsWeekly(b.primary, now), b.secondary, IsWeekly(b.secondary, now)));
      if ValidQuota(q, account, now, MAX_AGE) then Some(q) else None
  }

  /** The answer's windows one after the other, as far as they can be used. */
  method ParseQuota(a: Answer, account: string, now: real, digest: string -> string) returns (r: Option<Quota>)
    ensures r == QuotaOf(a, account, now, digest)
  {
    if a.NotAnObject? || a.accountId.None? || a.accountId.value == "" || digest(a.accountId.value) != account {
      return None;
    }
    var bucket := BucketOf(a);
    if bucket.None? || (bucket.value.limitId != Absent && bucket.value.limitId != Named("codex")) {
      return None;
    }
    var windows := [bucket.value.primary, bucket.value.secondary];
    var q := Quota(account, now, None, None, None, None);
    var i := 0;
    while i < 2
      invariant 0 <= i <= 2
      invariant i == 0 ==> q == FromWindows(account, now, None, None)
      invariant i == 1 ==> q == FromWindows(account, now,
                  Choose(windows[0], IsFiveHour(windows[0], now), None, false), Choose(windows[0], IsWeekly(windows[0], now), None, false))
      invariant i == 2 ==> q == FromWindows(account, now,
                  Choose(windows[0], IsFiveHour(windows[0], now), windows[1], IsFiveHour(windows[1], now)),
                  Choose(windows[0], IsWeekly(windows[0], now), windows[1], IsWeekly(windows[1], now)))
    {
      var w := windows[i];
      if Live(w, now) {
        if w.value.durationMins.value >= 1440.0 && w.value.durationMins.value < 20160.0 {
          q := q.(weekPct := w.value.usedPercent, weekReset := Some(w.value.resetsAt.value * 1000.0));
        } else if w.value.durationMins.value < 1440.0 {
          q := q.(fivePct := w.value.usedPercent, fiveReset := Some(w.value.resetsAt.value * 1000.0));
        }
      }
      i := i + 1;
    }
    r := if ValidQuota(q, account, now, MAX_AGE) then Some(q) else None;
  }

  /** The figures are this window's. */
  predicate Shows(w: Option<Window>, pct: Option<real>, reset: Option<real>)
  {
    w.Some? && pct == w.value.usedPercent && w.value.resetsAt.Some? && reset == Some(w.value.resetsAt.value * 1000.0)
  }

  /**
   What is published is the account's own, still ahead, and no further ahead than its window is long; every
   figure is that of a window of that length in the answer, and a percentage comes with its reset.
   */
  lemma PublishedIsSound(a: Answer, account: string, now: real, digest: string -> string)
    requires QuotaOf(a, account, now, digest).Some?
    ensures var q := QuotaOf(a, account, now, digest).value;
            && a.Answer? && a.accountId.Some? && q.account == digest(a.accountId.value) == account
            && (q.fivePct.Some? || q.weekPct.Some?)
            && (q.fivePct.Some? <==> q.fiveReset.Some?) && (q.weekPct.Some? <==> q.weekReset.Some?)
            && (q.fiveReset.Some? ==> now < q.fiveReset.value <= now + FIVE_HOURS_MAX)
            && (q.weekReset.Some? ==> now < q.weekReset.value <= now + WEEK_MAX)
    ensures var q, b := QuotaOf(a, account, now, digest).value, BucketOf(a);
            && b.Some?
            && (q.fivePct.Some? ==> exists w :: w in [b.value.primary, b.value.secondary] && IsFiveHour(w, now) && Shows(w, q.fivePct, q.fiveReset))
            && (q.weekPct.Some? ==> exists w :: w in [b.value.primary, b.value.secondary] && IsWeekly(w, now) && Shows(w, q.weekPct, q.weekReset))
  {
    var q, b := QuotaOf(a, account, now, digest).value, BucketOf(a).value;
    var windows := [b.primary, b.secondary];
    assert windows[0] in windows && windows[1] in windows;
    var five := Choose(b.primary, IsFiveHour(b.primary, now), b.secondary, IsFiveHour(b.secondary, now));
    var week := Choose(b.primary, IsWeekly(b.primary, now), b.secondary, IsWeekly(b.secondary, now));
    assert q.fivePct.Some? ==> IsFiveHour(five, now) && Shows(five, q.fivePct, q.fiveReset);
    assert q.weekPct.Some? ==> IsWeekly(week, now) && Shows(week, q.weekPct, q.weekReset);
  }

  /** A complete window, of a length from `lo` up to `hi` minutes, that ends after `now`. */
  ghost predicate Usable(w: Option<Window>, now: real, lo: real, hi: real)
  {
    match w
    case Some(Window(Some(used), Some(mins), Some(resetsAt))) =>
      used >= 0.0 && mins > 0.0 && lo <= mins < hi && resetsAt * 1000.0 > now
    case _ => false
  }

  /** Of the two windows of the bucket, the later one that is usable. */
  ghost predicate Stands(b: Bucket, now: real, lo: real, hi: real, w: Option<Window>)
  {
    if Usable(b.secondary, now, lo, hi) then w == b.secondary
    else if Usable(b.primary, now, lo, hi) then w == b.primary
    else w == None
  }

  /** The window ends after the epoch, and no later than `margin` after now. */
  ghost predicate EndsWithin(w: Option<Window>, now: real, margin: real)
  {
    w.Some? && w.value.resetsAt.Some? ==> 0.0 < w.value.resetsAt.value * 1000.0 <= now + margin
  }

  /**
   When a quota is published, and what it says: the answer names the account asked for, and has a bucket of
   Codex's with a usable window; the windows that stand end within six hours and within eight days; and the
   figures are theirs.
   */
  lemma PublishedExactly(a: Answer, account: string, now: real, digest: string -> string, b: Bucket,
                         five: Option<Window>, week: Option<Window>)
    requires a.Answer? && (if a.byLimitId.Some? then a.byLimitId.value else a.rateLimits) == Some(b)
    requires Stands(b, now, 0.0, 1440.0, five) && Stands(b, now, 1440.0, 20160.0, week)
    ensures var q := QuotaOf(a, account, now, digest);
            && (q.Some? <==>
                  && account != "" && a.accountId.Some? && a.accountId.value != "" && digest(a.accountId.value) == account
                  && b.limitId in {Absent, Named("codex")}
                  && (five.Some? || week.Some?)
                  && EndsWithin(five, now, 6.0 * 3600000.0) && EndsWithin(week, now, 8.0 * 86400000.0))
            && (q.Some? ==>
                  && q.value.account == account && q.value.snapshotMs == now
                  && (if five.Some? then Shows(five, q.value.fivePct, q.value.fiveReset) else q.value.fivePct == q.value.fiveReset == None)
                  && (if week.Some? then Shows(week, q.value.weekPct, q.value.weekReset) else q.value.weekPct == q.value.weekReset == None))
  {
    assert Usable(b.primary, now, 0.0, 1440.0) <==> IsFiveHour(b.primary, now);
    assert Usable(b.secondary, now, 0.0, 1440.0) <==> IsFiveHour(b.secondary, now);
    assert Usable(b.primary, now, 1440.0, 20160.0) <==> IsWeekly(b.primary, now);
    assert Usable(b.secondary, now, 1440.0, 20160.0) <==> IsWeekly(b.secondary, now);
    assert five == Choose(b.primary, IsFiveHour(b.primary, now), b.secondary, IsFiveHour(b.secondary, now));
    assert week == Choose(b.primary, IsWeekly(b.primary, now), b.secondary, IsWeekly(b.secondary, now));
  }

  /** An answer without a bucket, or none at all, publishes nothing. */
  lemma NothingPublished(a: Answer, account: string, now: real, digest: string -> string)
    requires a.NotAnObject? || (if a.byLimitId.Some? then a.byLimitId.value else a.rateLimits) == None
    ensures QuotaOf(a, account, now, digest) == None
  {
  }

  // ---------- the messages ----------

  /** What is sent to the server. */
  datatype Request = Initialize | Initialized | ReadRateLimits

  const SCRIPT: seq<Request> := [Initialize, Initialized, ReadRateLimits]

  /** What a line says: no object, or a message with its id, whether it is an error, and its result. */
  datatype Message = Junk | Message(id: int, isError: bool, hasResult: bool, answer: Answer)

  datatype Session = Session(read: bytes -> Message, account: string, now: real, digest: string -> string)

  datatype State = State(buffer: bytes, bytesRead: nat, done: bool, initialized: bool, result: Option<Quota>, sent: seq<Request>)

  const START: State := State([], 0, false, false, None, [Initialize])

  /** The first finish decides. */
  function Finish(s: State, value: Option<Quota>): State
  {
    if s.done then s else s.(done := true, result := value)
  }

  /** A good reply to the handshake, and one to the question. */
  predicate GoodHandshake(x: Session, line: bytes)
  {
    var m := x.read(line);
    m.Message? && m.id == 1 && !m.isError && m.hasResult
  }

  predicate GoodAnswer(x: Session, line: bytes, q: Quota)
  {
    var m := x.read(line);
    m.Message? && m.id == 2 && !m.isError && QuotaOf(m.answer, x.account, x.now, x.digest) == Some(q)
  }

  /** One line of the server's output. */
  function Handle(x: Session, s: State, line: bytes): State
  {
    if s.done then s
    else
      match x.read(line)
      case Junk => s
      case Message(id, isError, hasResult, answer) =>
        if id == 1 && !s.initialized then
          if isError || !hasResult then Finish(s, None)
          else s.(initialized := true, sent := s.sent + [Initialized, ReadRateLimits])
        else if id == 2 && s.initialized then
          if isError then Finish(s, None) else Finish(s, QuotaOf(answer, x.account, x.now, x.digest))
        else s
  }

  /** `indexOf('\n')`, the length standing for none. */
  function FirstNewline(b: bytes): (k: nat)
    ensures k <= |b| && NoNewline(b, 0, k) && (k < |b| ==> b[k] == NEWLINE)
  {
    if b == [] || b[0] == NEWLINE then 0
    else
      var k := FirstNewline(b[1..]);
      assert forall i | 1 <= i < 1 + k :: b[i] == b[1..][i - 1];
      1 + k
  }

  lemma HandleKeepsBuffer(x: Session, s: State, line: bytes)
    ensures Handle(x, s, line).buffer == s.buffer && Handle(x, s, line).bytesRead == s.bytesRead
  {
  }

  /** The first line off the buffer. */
  function Taken(x: Session, s: State): State
    requires FirstNewline(s.buffer) < |s.buffer|
  {
    var k := FirstNewline(s.buffer);
    Handle(x, s.(buffer := s.buffer[k + 1..]), s.buffer[..k])
  }

  /** Take complete lines off the buffer until there is none or the exchange is over. */
  function Drain(x: Session, s: State): State
    decreases |s.buffer|
  {
    var k := FirstNewline(s.buffer);
    if s.done || k == |s.buffer| then s
    else
      HandleKeepsBuffer(x, s.(buffer := s.buffer[k + 1..]), s.buffer[..k]);
      Drain(x, Taken(x, s))
  }

  lemma DrainStep(x: Session, s: State)
    requires !s.done && FirstNewline(s.buffer) < |s.buffer|
    ensures Drain(x, s) == Drain(x, Taken(x, s))
  {
  }

  lemma TakenBuffer(x: Session, s: State)
    requires FirstNewline(s.buffer) < |s.buffer|
    ensures Taken(x, s).buffer == s.buffer[FirstNewline(s.buffer) + 1..]
  {
    var k := FirstNewline(s.buffer);
    HandleKeepsBuffer(x, s.(buffer := s.buffer[k + 1..]), s.buffer[..k]);
  }

  lemma DrainWhenDone(x: Session, s: State)
    ensures s.done || FirstNewline(s.buffer) == |s.buffer| ==> Drain(x, s) == s
  {
  }

  /** A chunk of output. */
  function Feed(x: Session, s: State, chunk: bytes): State
  {
    if s.done then s
    else if s.bytesRead + |chunk| > LIMIT then Finish(s.(bytesRead := s.bytesRead + |chunk|), None)
    else Drain(x, s.(bytesRead := s.bytesRead + |chunk|, buffer := s.buffer + chunk))
  }

  datatype Event = Data(chunk: bytes) | TimeOut | ChildError | InputError | Close

  function React(x: Session, s: State, ev: Event): State
  {
    if ev.Data? then Feed(x, s, ev.chunk) else Finish(s, None)
  }

  function After(x: Session, events: seq<Event>): State
  {
    if events == [] then START else React(x, After(x, events[..|events| - 1]), events[|events| - 1])
  }

  // ---------- the object ----------

  class Exchange {
    const x: Session
    var buffer: bytes
    var bytesRead: nat
    var done: bool
    var initialized: bool
    var result: Option<Quota>
    var sent: seq<Request>

    function View(): State
      reads this
    {
      State(buffer, bytesRead, done, initialized, result, sent)
    }

    constructor (x: Session)
      ensures this.x == x && View() == START
    {
      this.x := x;
      buffer, bytesRead, done, initialized, result := [], 0, false, false, None;
      sent := [Initialize];
    }

    method FinishWith(value: Option<Quota>)
      modifies this
      ensures View() == Finish(old(View()), value)
    {
      if done {
        return;
      }
      done, result := true, value;
    }

    method Send(request: Request)
      modifies this`sent
      ensures sent == old(sent) + [request]
    {
      sent := sent + [request];
    }

    method HandleLine(line: bytes)
      requires !done
      modifies this
      ensures View() == Handle(x, old(View()), line)
    {
      var message := x.read(line);
      if message.Junk? {
        return;
      }
      if message.id == 1 && !initialized {
        if message.isError || !message.hasResult {
          FinishWith(None);
          return;
        }
        initialized := true;
        Send(Initialized);
        Send(ReadRateLimits);
      } else if message.id == 2 && initialized {
        if message.isError {
          FinishWith(None);
          return;
        }
        var quota := ParseQuota(message.answer, x.account, x.now, x.digest);
        FinishWith(quota);
      }
    }

    /** The first line, which ends at `at`. */
    method TakeFirst(at: nat)
      requires !done && at == FirstNewline(buffer) < |buffer|
      modifies this
      ensures View() == Taken(x, old(View())) && |buffer| < |old(buffer)|
    {
      var line := buffer[..at];
      buffer := buffer[at + 1..];
      HandleLine(line);
      HandleKeepsBuffer(x, old(View()).(buffer := old(buffer)[at + 1..]), line);
    }

    /** Every complete line, until there is none or the exchange is over. */
    method DrainBuffer()
      modifies this
      ensures View() == Drain(x, old(View()))
    {
      var at := FirstNewline(buffer);
      while !done && at < |buffer|
        invariant at == FirstNewline(buffer)
        invariant Drain(x, old(View())) == Drain(x, View())
        decreases |buffer|
      {
        DrainStep(x, View());
        TakeFirst(at);
        at := FirstNewline(buffer);
      }
      DrainWhenDone(x, View());
    }

    method OnData(chunk: bytes)
      modifies this
      ensures View() == Feed(x, old(View()), chunk)
    {
      if done {
        return;
      }
      bytesRead := bytesRead + |chunk|;
      if bytesRead > LIMIT {
        FinishWith(None);
        return;
      }
      buffer := buffer + chunk;
      DrainBuffer();
    }

    /** Any of the events. */
    method On(ev: Event)
      modifies this
      ensures View() == React(x, old(View()), ev)
    {
      if ev.Data? {
        OnData(ev.chunk);
      } else {
        FinishWith(None);
      }
    }

    /** A whole run, whatever comes in whatever order. */
    method Run(events: seq<Event>) returns (outcome: Option<Quota>)
      requires View() == START
      modifies this
      ensures View() == After(x, events) && outcome == After(x, events).result
    {
      var i := 0;
      while i < |events|
        invariant 0 <= i <= |events|
        invariant View() == After(x, events[..i])
      {
        assert events[..i + 1][..i] == events[..i];
        On(events[i]);
        i := i + 1;
      }
      assert events[..i] == events;
      outcome := result;
    }
  }

  // ---------- line by line ----------

  /** The reference: the lines one after the other, the rest of them ignored once it is over. */
  function HandleAll(x: Session, s: State, lines: seq<bytes>): State
    decreases |lines|
  {
    if lines == [] then s else HandleAll(x, Handle(x, s, lines[0]), lines[1..])
  }

  /** Two states that differ at most in what is left unread after the end. */
  ghost predicate Same(s: State, t: State)
  {
    && (s.done, s.initialized, s.result, s.sent) == (t.done, t.initialized, t.result, t.sent)
    && (!s.done ==> s.buffer == t.buffer && s.bytesRead == t.bytesRead)
  }

  lemma {:induction false} OverIsOver(x: Session, s: State, lines: seq<bytes>)
    requires s.done
    ensures HandleAll(x, s, lines) == s
    decreases |lines|
  {
    if lines != [] {
      OverIsOver(x, s, lines[1..]);
    }
  }

  lemma {:induction false} HandleInTwo(x: Session, s: State, a: seq<bytes>, b: seq<bytes>)
    ensures HandleAll(x, s, a + b) == HandleAll(x, HandleAll(x, s, a), b)
    decreases |a|
  {
    if a == [] {
      assert a + b == b;
    } else {
      assert (a + b)[1..] == a[1..] + b;
      HandleInTwo(x, Handle(x, s, a[0]), a[1..], b);
    }
  }

  lemma {:induction false} NoLineWithoutNewline(b: bytes)
    requires NoNewline(b, 0, |b|)
    ensures CompleteLines(b) == [] && TailStart(b) == 0 && Tail(b) == b
    decreases |b|
  {
    if b != [] {
      NoLineWithoutNewline(b[..|b| - 1]);
    }
  }

  lemma LineThenRest(line: bytes, rest: bytes)
    requires NoNewline(line, 0, |line|)
    ensures CompleteLines(line + [NEWLINE] + rest) == [line] + CompleteLines(rest)
    ensures Tail(line + [NEWLINE] + rest) == Tail(rest)
  {
    NoLineWithoutNewline(line);
    assert (line + [NEWLINE])[..|line|] == line;
    LinesFromBoundary(line + [NEWLINE], rest);
    TailFromBoundary(line + [NEWLINE], rest);
  }

  lemma Cut(b: bytes, k: nat)
    ensures k < |b| ==> b == b[..k] + [b[k]] + b[k + 1..]
  {
  }

  lemma FrontHasNoNewline(b: bytes, k: nat)
    ensures k <= |b| && NoNewline(b, 0, k) ==> NoNewline(b[..k], 0, k)
  {
  }

  /** The first line of a text, and the lines of the rest. */
  lemma FirstLine(b: bytes) returns (line: bytes, rest: bytes)
    requires FirstNewline(b) < |b|
    ensures line == b[..FirstNewline(b)] && rest == b[FirstNewline(b) + 1..]
    ensures CompleteLines(b) == [line] + CompleteLines(rest) && Tail(b) == Tail(rest)
  {
    var k := FirstNewline(b);
    line, rest := b[..k], b[k + 1..];
    Cut(b, k);
    FrontHasNoNewline(b, k);
    LineThenRest(line, rest);
  }

  lemma {:induction false} HandleAllKeepsBuffer(x: Session, s: State, lines: seq<bytes>, b: bytes)
    ensures HandleAll(x, s.(buffer := b), lines) == HandleAll(x, s, lines).(buffer := b)
    ensures HandleAll(x, s, lines).bytesRead == s.bytesRead
    decreases |lines|
  {
    if lines != [] {
      HandleAllKeepsBuffer(x, Handle(x, s, lines[0]), lines[1..], b);
    }
  }

  /** The state after these lines, and this left in the buffer. */
  function Handled(x: Session, s: State, lines: seq<bytes>, rest: bytes): State
  {
    HandleAll(x, s, lines).(buffer := rest)
  }

  lemma HandleOneMore(x: Session, s: State, lines: seq<bytes>, rest: bytes)
    requires FirstNewline(s.buffer) < |s.buffer|
    ensures Handled(x, s, [s.buffer[..FirstNewline(s.buffer)]] + lines, rest) == Handled(x, Taken(x, s), lines, rest)
  {
    var k := FirstNewline(s.buffer);
    var line := s.buffer[..k];
    assert ([line] + lines)[1..] == lines;
    assert Taken(x, s) == Handle(x, s, line).(buffer := s.buffer[k + 1..]);
    HandleAllKeepsBuffer(x, Handle(x, s, line), lines, s.buffer[k + 1..]);
  }

  /** Draining handles the buffer's complete lines and keeps its tail. */
  lemma {:induction false} DrainIsLines(x: Session, s: State, lines: seq<bytes>, tail: bytes)
    requires lines == CompleteLines(s.buffer) && tail == Tail(s.buffer)
    ensures Same(Drain(x, s), Handled(x, s, lines, tail))
    decreases |s.buffer|, 1
  {
    if s.done {
      DrainWhenDone(x, s);
      OverIsOver(x, s, lines);
    } else if FirstNewline(s.buffer) == |s.buffer| {
      DrainWhenDone(x, s);
      NoLineWithoutNewline(s.buffer);
    } else {
      var line, rest := FirstLine(s.buffer);
      DrainFirst(x, s, line, rest, CompleteLines(rest), tail);
    }
  }

  lemma DrainOneLine(x: Session, s: State, more: seq<bytes>, tail: bytes)
    requires !s.done && FirstNewline(s.buffer) < |s.buffer|
    requires Same(Drain(x, Taken(x, s)), Handled(x, Taken(x, s), more, tail))
    ensures Same(Drain(x, s), Handled(x, s, [s.buffer[..FirstNewline(s.buffer)]] + more, tail))
  {
    DrainStep(x, s);
    HandleOneMore(x, s, more, tail);
  }

  lemma {:induction false} DrainFirst(x: Session, s: State, line: bytes, rest: bytes, more: seq<bytes>, tail: bytes)
    requires !s.done && FirstNewline(s.buffer) < |s.buffer|
    requires line == s.buffer[..FirstNewline(s.buffer)] && rest == s.buffer[FirstNewline(s.buffer) + 1..]
    requires more == CompleteLines(rest) && tail == Tail(rest)
    ensures Same(Drain(x, s), Handled(x, s, [line] + more, tail))
    decreases |s.buffer|, 0
  {
    TakenBuffer(x, s);
    DrainIsLines(x, Taken(x, s), more, tail);
    DrainOneLine(x, s, more, tail);
  }

  // ---------- chunks ----------

  function Joined(chunks: seq<bytes>): bytes
  {
    if chunks == [] then [] else Joined(chunks[..|chunks| - 1]) + chunks[|chunks| - 1]
  }

  function FeedAll(x: Session, s: State, chunks: seq<bytes>): State
  {
    if chunks == [] then s else Feed(x, FeedAll(x, s, chunks[..|chunks| - 1]), chunks[|chunks| - 1])
  }

  /** What one pass over the whole output makes of it. */
  function Whole(x: Session, output: bytes): State
  {
    Handled(x, START, CompleteLines(output), Tail(output)).(bytesRead := |output|)
  }

  lemma {:induction false} HandleAllKeepsRead(x: Session, s: State, lines: seq<bytes>, n: nat)
    ensures HandleAll(x, s.(bytesRead := n), lines) == HandleAll(x, s, lines).(bytesRead := n)
    decreases |lines|
  {
    if lines != [] {
      assert Handle(x, s.(bytesRead := n), lines[0]) == Handle(x, s, lines[0]).(bytesRead := n);
      HandleAllKeepsRead(x, Handle(x, s, lines[0]), lines[1..], n);
    }
  }

  lemma WholeWithMore(x: Session, output: bytes, chunk: bytes)
    ensures Whole(x, output).done ==>
              Same(Whole(x, output + chunk), Whole(x, output))
    ensures Whole(x, output + chunk) ==
            Handled(x, Whole(x, output), CompleteLines(Tail(output) + chunk), Tail(Tail(output) + chunk)).(bytesRead := |output + chunk|)
  {
    var a, b := CompleteLines(output), CompleteLines(Tail(output) + chunk);
    LinesOfMore(output, chunk);
    HandleInTwo(x, START, a, b);
    var mid := HandleAll(x, START, a);
    HandleAllKeepsBuffer(x, mid, b, Tail(output));
    HandleAllKeepsRead(x, mid.(buffer := Tail(output)), b, |output|);
    if mid.done {
      OverIsOver(x, mid, b);
    }
  }

  lemma FeedIsDrain(x: Session, s: State, chunk: bytes)
    ensures !s.done && s.bytesRead + |chunk| <= LIMIT ==>
              Feed(x, s, chunk) == Drain(x, s.(bytesRead := s.bytesRead + |chunk|, buffer := s.buffer + chunk))
  {
  }

  lemma HandledApart(x: Session, s: State, next: State, lines: seq<bytes>, tail: bytes)
    requires next == s.(bytesRead := next.bytesRead, buffer := next.buffer)
    ensures Handled(x, next, lines, tail) == Handled(x, s, lines, tail).(bytesRead := next.bytesRead)
  {
    HandleAllKeepsBuffer(x, s.(bytesRead := next.bytesRead), lines, next.buffer);
    HandleAllKeepsRead(x, s, lines, next.bytesRead);
  }

  /** A chunk within the limit: the lines it completes are handled, and its tail is kept. */
  lemma FeedIsLines(x: Session, s: State, chunk: bytes, lines: seq<bytes>, tail: bytes)
    requires !s.done && s.bytesRead + |chunk| <= LIMIT
    requires lines == CompleteLines(s.buffer + chunk) && tail == Tail(s.buffer + chunk)
    ensures Same(Feed(x, s, chunk), Handled(x, s, lines, tail).(bytesRead := s.bytesRead + |chunk|))
  {
    var next := s.(bytesRead := s.bytesRead + |chunk|, buffer := s.buffer + chunk);
    DrainIsLines(x, next, lines, tail);
    FeedIsDrain(x, s, chunk);
    assert Same(Feed(x, s, chunk), Handled(x, next, lines, tail));
    assert Handled(x, next, lines, tail) == Handled(x, s, lines, tail).(bytesRead := next.bytesRead) by {
      HandledApart(x, s, next, lines, tail);
    }
  }

  lemma FeedIsMore(x: Session, s: State, output: bytes, chunk: bytes)
    requires Same(s, Whole(x, output)) && |output + chunk| <= LIMIT
    ensures s.done ==> Feed(x, s, chunk) == s
    ensures !s.done ==> Same(Feed(x, s, chunk),
              Handled(x, Whole(x, output), CompleteLines(Tail(output) + chunk), Tail(Tail(output) + chunk)).(bytesRead := |output + chunk|))
  {
    if !s.done {
      FeedIsLines(x, s, chunk, CompleteLines(Tail(output) + chunk), Tail(Tail(output) + chunk));
    }
  }

  /**
   Output of at most the limit: however it is cut into chunks, the same lines are handled and the same
   requests sent, with the same outcome, as in one pass over its lines.
   */
  lemma {:induction false} ChunksDoNotMatter(x: Session, chunks: seq<bytes>)
    requires |Joined(chunks)| <= LIMIT
    ensures Same(FeedAll(x, START, chunks), Whole(x, Joined(chunks)))
    decreases |chunks|
  {
    if chunks == [] {
      assert CompleteLines([]) == [];
    } else {
      var n := |chunks| - 1;
      var before, chunk := Joined(chunks[..n]), chunks[n];
      ChunksDoNotMatter(x, chunks[..n]);
      WholeWithMore(x, before, chunk);
      FeedIsMore(x, FeedAll(x, START, chunks[..n]), before, chunk);
    }
  }

  // ---------- every run ----------

  function AllData(events: seq<Event>): bytes
  {
    if events == [] then []
    else
      var last := events[|events| - 1];
      AllData(events[..|events| - 1]) + (if last.Data? then last.chunk else [])
  }

  ghost predicate Greeted(x: Session, lines: seq<bytes>)
  {
    exists i | 0 <= i < |lines| :: GoodHandshake(x, lines[i])
  }

  /** A good reply to the question, and before it one to the handshake. */
  ghost predicate Answered(x: Session, lines: seq<bytes>, q: Quota)
  {
    exists j | 0 <= j < |lines| :: GoodAnswer(x, lines[j], q) && Greeted(x, lines[..j])
  }

  ghost predicate Grounded(x: Session, s: State, lines: seq<bytes>)
  {
    && (s.initialized ==> Greeted(x, lines))
    && (s.result.Some? ==> s.done && Answered(x, lines, s.result.value))
    && s.sent == if s.initialized then SCRIPT else [Initialize]
  }

  lemma GroundedLater(x: Session, s: State, lines: seq<bytes>, more: seq<bytes>)
    requires Grounded(x, s, lines)
    ensures Grounded(x, s, lines + more)
  {
    if s.initialized {
      var i :| 0 <= i < |lines| && GoodHandshake(x, lines[i]);
      assert (lines + more)[i] == lines[i];
    }
    if s.result.Some? {
      var j :| 0 <= j < |lines| && GoodAnswer(x, lines[j], s.result.value) && Greeted(x, lines[..j]);
      assert (lines + more)[j] == lines[j] && (lines + more)[..j] == lines[..j];
    }
  }

  lemma GroundedStep(x: Session, s: State, lines: seq<bytes>, line: bytes)
    requires Grounded(x, s, lines)
    ensures Grounded(x, Handle(x, s, line), lines + [line])
  {
    GroundedLater(x, s, lines, [line]);
    assert (lines + [line])[|lines|] == line && (lines + [line])[..|lines|] == lines;
    assert [Initialize] + [Initialized, ReadRateLimits] == SCRIPT;
  }

  lemma {:induction false} GroundedAll(x: Session, s: State, lines: seq<bytes>, more: seq<bytes>)
    requires Grounded(x, s, lines)
    ensures Grounded(x, HandleAll(x, s, more), lines + more)
    decreases |more|
  {
    if more == [] {
      assert lines + more == lines;
    } else {
      GroundedStep(x, s, lines, more[0]);
      GroundedAll(x, Handle(x, s, more[0]), lines + [more[0]], more[1..]);
      assert lines + more == lines + [more[0]] + more[1..];
    }
  }

  lemma GroundedFeed(x: Session, s: State, data: bytes, chunk: bytes)
    requires Grounded(x, s, CompleteLines(data)) && (!s.done ==> s.buffer == Tail(data))
    ensures Grounded(x, Feed(x, s, chunk), CompleteLines(data + chunk))
    ensures !Feed(x, s, chunk).done ==> Feed(x, s, chunk).buffer == Tail(data + chunk)
  {
    var lines := CompleteLines(Tail(data) + chunk);
    LinesOfMore(data, chunk);
    GroundedLater(x, s, CompleteLines(data), lines);
    if !s.done && s.bytesRead + |chunk| <= LIMIT {
      FeedIsLines(x, s, chunk, lines, Tail(data + chunk));
      GroundedAll(x, s, CompleteLines(data), lines);
    }
  }

  /**
   Every run, whatever comes in whatever order: the requests sent are the script's beginning, the two last
   only after a good reply to the first; and a quota comes only from a good reply to the question, with one
   to the handshake before it, about the account asked for.
   */
  lemma {:induction false} EveryRunIsGrounded(x: Session, events: seq<Event>)
    ensures Grounded(x, After(x, events), CompleteLines(AllData(events)))
    ensures !After(x, events).done ==> After(x, events).buffer == Tail(AllData(events))
    decreases |events|
  {
    if events != [] {
      var n := |events| - 1;
      var s, ev, data := After(x, events[..n]), events[n], AllData(events[..n]);
      EveryRunIsGrounded(x, events[..n]);
      if ev.Data? {
        GroundedFeed(x, s, data, ev.chunk);
      } else {
        assert data + [] == data;
      }
    }
  }

  /** The first finish decides: nothing that comes later changes the outcome or sends another request. */
  lemma {:induction false} FirstFinishDecides(x: Session, events: seq<Event>, more: seq<Event>)
    requires After(x, events).done
    ensures After(x, events + more) == After(x, events)
    decreases |more|
  {
    if more == [] {
      assert events + more == events;
    } else {
      var n := |more| - 1;
      FirstFinishDecides(x, events, more[..n]);
      assert (events + more)[..|events| + n] == events + more[..n];
    }
  }

  lemma GroundedSends(x: Session, s: State, lines: seq<bytes>)
    ensures Grounded(x, s, lines) ==> s.sent <= SCRIPT
  {
  }

  /** The requests sent are always a beginning of the script. */
  lemma SentInOrder(x: Session, events: seq<Event>)
    ensures After(x, events).sent <= SCRIPT
  {
    EveryRunIsGrounded(x, events);
    GroundedSends(x, After(x, events), CompleteLines(AllData(events)));
  }

  /** What is published by a run is about the account asked for. */
  lemma PublishedByARun(x: Session, events: seq<Event>)
    requires After(x, events).result.Some?
    ensures After(x, events).result.value.account == x.account
    ensures Answered(x, CompleteLines(AllData(events)), After(x, events).result.value)
  {
    EveryRunIsGrounded(x, events);
    var lines, q := CompleteLines(AllData(events)), After(x, events).result.value;
    var j :| 0 <= j < |lines| && GoodAnswer(x, lines[j], q) && Greeted(x, lines[..j]);
    PublishedIsSound(x.read(lines[j]).answer, x.account, x.now, x.digest);
  }

  // ---------- what a whole output comes to ----------

  predicate Replies(x: Session, line: bytes, id: int)
  {
    x.read(line).Message? && x.read(line).id == id
  }

  /** The first line from `from` on that replies to this request; the number of lines when there is none. */
  function FirstReply(x: Session, lines: seq<bytes>, id: int, from: nat): (k: nat)
    requires from <= |lines|
    ensures from <= k <= |lines| && (forall i | from <= i < k :: !Replies(x, lines[i], id)) && (k < |lines| ==> Replies(x, lines[k], id))
    decreases |lines| - from
  {
    if from == |lines| || Replies(x, lines[from], id) then from else FirstReply(x, lines, id, from + 1)
  }

  lemma FirstReplySnoc(x: Session, lines: seq<bytes>, line: bytes, id: int, from: nat)
    requires from <= |lines|
    ensures var k, n := FirstReply(x, lines, id, from), |lines|;
            FirstReply(x, lines + [line], id, from) == if k < n then k else if Replies(x, line, id) then n else n + 1
  {
    var more, n := lines + [line], |lines|;
    var k, k' := FirstReply(x, lines, id, from), FirstReply(x, more, id, from);
    assert forall i | 0 <= i < n :: more[i] == lines[i];
    assert more[n] == line;
  }

  lemma {:induction false} HandleAllSnoc(x: Session, s: State, lines: seq<bytes>, line: bytes)
    ensures HandleAll(x, s, lines + [line]) == Handle(x, HandleAll(x, s, lines), line)
    decreases |lines|
  {
    if lines == [] {
      assert [line][1..] == [];
    } else {
      assert (lines + [line])[1..] == lines[1..] + [line];
      HandleAllSnoc(x, Handle(x, s, lines[0]), lines[1..], line);
    }
  }

  /**
   The state after these lines, told by the first replies alone: nothing is over before the handshake is answered;
   a bad answer to it ends the exchange, and after a good one the first reply to the question does.
   */
  ghost predicate FollowsReplies(x: Session, s: State, lines: seq<bytes>)
  {
    var h := FirstReply(x, lines, 1, 0);
    if h == |lines| then !s.initialized && !s.done && s.result == None
    else if !GoodHandshake(x, lines[h]) then !s.initialized && s.done && s.result == None
    else
      var j := FirstReply(x, lines, 2, h + 1);
      && s.initialized
      && (if j == |lines| then !s.done && s.result == None
          else s.done && forall q :: s.result == Some(q) <==> GoodAnswer(x, lines[j], q))
  }

  lemma FollowsOne(x: Session, s: State, lines: seq<bytes>, line: bytes)
    requires FollowsReplies(x, s, lines)
    ensures FollowsReplies(x, Handle(x, s, line), lines + [line])
  {
    var more, n, h := lines + [line], |lines|, FirstReply(x, lines, 1, 0);
    FirstReplySnoc(x, lines, line, 1, 0);
    assert more[n] == line;
    if h < n {
      assert more[h] == lines[h];
      FirstReplySnoc(x, lines, line, 2, h + 1);
      var j := FirstReply(x, lines, 2, h + 1);
      assert j < n ==> more[j] == lines[j];
    }
  }

  /** What any complete lines come to, from the start: exactly what their first replies say. */
  lemma {:induction false} OutcomeExactly(x: Session, lines: seq<bytes>)
    ensures FollowsReplies(x, HandleAll(x, START, lines), lines)
    decreases |lines|
  {
    if lines != [] {
      var n := |lines| - 1;
      OutcomeExactly(x, lines[..n]);
      FollowsOne(x, HandleAll(x, START, lines[..n]), lines[..n], lines[n]);
      HandleAllSnoc(x, START, lines[..n], lines[n]);
      assert lines == lines[..n] + [lines[n]];
    }
  }

  /** So, within the limit, does output in chunks of any size. */
  lemma ChunkedOutcomeExactly(x: Session, chunks: seq<bytes>)
    requires |Joined(chunks)| <= LIMIT
    ensures FollowsReplies(x, FeedAll(x, START, chunks), CompleteLines(Joined(chunks)))
  {
    ChunksDoNotMatter(x, chunks);
    OutcomeExactly(x, CompleteLines(Joined(chunks)));
  }

  function DataEvents(chunks: seq<bytes>): seq<Event>
  {
    seq(|chunks|, i requires 0 <= i < |chunks| => Data(chunks[i]))
  }

  lemma {:induction false} DataIsFed(x: Session, chunks: seq<bytes>)
    ensures After(x, DataEvents(chunks)) == FeedAll(x, START, chunks)
    decreases |chunks|
  {
    if chunks != [] {
      var n := |chunks| - 1;
      DataIsFed(x, chunks[..n]);
      assert DataEvents(chunks)[..n] == DataEvents(chunks[..n]);
    }
  }

  /** Anything but output, at any moment of any run, ends the exchange: what was answered by then stands. */
  lemma EverythingElseEnds(x: Session, events: seq<Event>, ev: Event)
    requires !ev.Data?
    ensures var s, next := After(x, events), After(x, events + [ev]);
            next.done && next.sent == s.sent && next.result == if s.done then s.result else None
  {
    assert (events + [ev])[..|events|] == events;
  }

  /**
   A whole exchange: output within the limit in chunks of any size, and then its end, whatever that is.  A quota
   is the result exactly when the first reply to the handshake was good and the first to the question after it was.
   */
  lemma ExchangeExactly(x: Session, chunks: seq<bytes>, end: Event, q: Quota)
    requires |Joined(chunks)| <= LIMIT && !end.Data?
    ensures var lines := CompleteLines(Joined(chunks));
            var h := FirstReply(x, lines, 1, 0);
            var s := After(x, DataEvents(chunks) + [end]);
            && s.done
            && (s.result == Some(q) <==>
                  h < |lines| && GoodHandshake(x, lines[h]) &&
                  FirstReply(x, lines, 2, h + 1) < |lines| && GoodAnswer(x, lines[FirstReply(x, lines, 2, h + 1)], q))
  {
    DataIsFed(x, chunks);
    ChunkedOutcomeExactly(x, chunks);
    EverythingElseEnds(x, DataEvents(chunks), end);
  }

  // ---------- past the limit ----------

  /** Reading on changes nothing that is over. */
  lemma {:induction false} WholeStays(x: Session, output: bytes, n: nat)
    requires n <= |output| && Whole(x, output[..n]).done
    ensures Same(Whole(x, output), Whole(x, output[..n]))
  {
    WholeWithMore(x, output[..n], output[n..]);
    assert output[..n] + output[n..] == output;
  }

  /** However the output is cut, an answer is that of the first bytes up to the limit. */
  lemma {:induction false} AnswersComeEarly(x: Session, chunks: seq<bytes>)
    requires |Joined(chunks)| > LIMIT
    ensures var s := FeedAll(x, START, chunks);
            s.done && (s.result.Some? ==> Whole(x, Joined(chunks)[..LIMIT]).result == s.result)
    decreases |chunks|
  {
    var n := |chunks| - 1;
    var front, chunk := chunks[..n], chunks[n];
    var before, all := Joined(front), Joined(chunks);
    if |before| > LIMIT {
      AnswersComeEarly(x, front);
      assert all[..LIMIT] == before[..LIMIT];
    } else {
      ChunksDoNotMatter(x, front);
      assert all[..LIMIT][..|before|] == before;
      if FeedAll(x, START, front).done {
        WholeStays(x, all[..LIMIT], |before|);
      }
    }
  }

  /** In one chunk there is no answer. */
  lemma AtOnce(x: Session, output: bytes)
    requires |output| > LIMIT
    ensures FeedAll(x, START, [output]).result == None && Joined([output]) == output
  {
    var once := [output];
    assert once[..0] == [];
    assert FeedAll(x, START, once) == Feed(x, START, output);
    assert Joined(once) == [] + output;
  }

  lemma {:induction false} DoneWhenAnswered(x: Session, lines: seq<bytes>, s: State)
    requires s.result.Some? ==> s.done
    ensures HandleAll(x, s, lines).result.Some? ==> HandleAll(x, s, lines).done
    decreases |lines|
  {
    if lines != [] {
      DoneWhenAnswered(x, lines[1..], Handle(x, s, lines[0]));
    }
  }

  /** Cut at the limit there is, when the first part holds one. */
  lemma CutAtLimit(x: Session, output: bytes)
    requires |output| > LIMIT
    ensures var cut := [output[..LIMIT], output[LIMIT..]];
            && Joined(cut) == output
            && (Whole(x, output[..LIMIT]).result.Some? ==> FeedAll(x, START, cut).result == Whole(x, output[..LIMIT]).result)
  {
    var a, b := output[..LIMIT], output[LIMIT..];
    var first, cut := [a], [a, b];
    assert cut[..1] == first && first[..0] == [];
    assert Joined(first) == a && Joined(cut) == a + b == output;
    ChunksDoNotMatter(x, first);
    if Whole(x, a).result.Some? {
      DoneWhenAnswered(x, CompleteLines(a), START);
    }
  }

  /**
   Output beyond the limit has one outcome for every way of cutting it exactly when its first bytes up to
   the limit hold no answer; that outcome is then none.
   */
  lemma OneOutcomeExactly(x: Session, output: bytes)
    requires |output| > LIMIT
    ensures (forall chunks | Joined(chunks) == output :: FeedAll(x, START, chunks).result == None)
       <==> Whole(x, output[..LIMIT]).result == None
    ensures FeedAll(x, START, [output]).result == None && Joined([output]) == output
  {
    AtOnce(x, output);
    var cut := [output[..LIMIT], output[LIMIT..]];
    CutAtLimit(x, output);
    forall chunks | Joined(chunks) == output && Whole(x, output[..LIMIT]).result == None
      ensures FeedAll(x, START, chunks).result == None
    {
      AnswersComeEarly(x, chunks);
    }
  }

  lemma AfterOne(x: Session, chunk: bytes)
    ensures After(x, [Data(chunk)]) == Feed(x, START, chunk)
  {
    var one := [Data(chunk)];
    assert one[..0] == [];
    assert After(x, one) == React(x, After(x, []), one[0]);
  }

  /** Past the limit an answer survives in a chunk of its own and is lost in a chunk that exceeds the limit. */
  lemma ChunksMatterPastTheLimit(x: Session, a: bytes, b: bytes, q: Quota)
    requires |a| <= LIMIT < |a| + |b| && After(x, [Data(a)]).result == Some(q)
    ensures After(x, [Data(a), Data(b)]).result == Some(q)
    ensures After(x, [Data(a + b)]).result == None
  {
    EveryRunIsGrounded(x, [Data(a)]);
    FirstFinishDecides(x, [Data(a)], [Data(b)]);
    assert [Data(a)] + [Data(b)] == [Data(a), Data(b)];
    AfterOne(x, a + b);
  }

  // ---------- such an output ----------

  const WEEKLY: Window := Window(Some(40.0), Some(10080.0), Some(100.0))
  const ANSWER: Answer := Answer(Some("me"), None, Some(Bucket(Absent, Some(WEEKLY), None)))
  const ANSWERED: Quota := Quota("me", 0.0, None, None, Some(40.0), Some(100000.0))

  /** A server that says `1` for a good handshake and `2` for a good answer, to the account `me`. */
  function ExampleSession(): Session
  {
    Session((line: bytes) => if line == [49] then Message(1, false, true, NotAnObject)
                             else if line == [50] then Message(2, false, true, ANSWER) else Junk,
            "me", 0.0, (id: string) => id)
  }

  const REPLIES: bytes := [49, 10, 50, 10]

  lemma ExampleLines()
    ensures CompleteLines(REPLIES) == [[49], [50]] && Tail(REPLIES) == []
  {
    var line1, line2: bytes := [49], [50];
    LineThenRest(line1, [50, 10]);
    LineThenRest(line2, []);
    assert line1 + [NEWLINE] + [50, 10] == REPLIES && line2 + [NEWLINE] + [] == [50, 10];
    assert CompleteLines([]) == [];
  }

  lemma ExampleQuota()
    ensures QuotaOf(ANSWER, "me", 0.0, ExampleSession().digest) == Some(ANSWERED)
  {
    var digest := ExampleSession().digest;
    assert digest("me") == "me" && About(ANSWER, "me", digest);
    assert IsWeekly(Some(WEEKLY), 0.0) && !IsFiveHour(Some(WEEKLY), 0.0) && !Live(None, 0.0);
    assert FromWindows("me", 0.0, None, Some(WEEKLY)) == ANSWERED;
    assert ValidQuota(ANSWERED, "me", 0.0, MAX_AGE);
  }

  lemma ExampleHandled()
    ensures HandleAll(ExampleSession(), START, [[49], [50]]).result == Some(ANSWERED)
  {
    var x := ExampleSession();
    ExampleQuota();
    var lines: seq<bytes> := [[49], [50]];
    assert lines[1..] == [[50]] && lines[1..][1..] == [];
    var greeted := Handle(x, START, lines[0]);
    assert greeted.initialized && !greeted.done;
    assert Handle(x, greeted, lines[1]).result == Some(ANSWERED);
  }

  lemma ExampleAnswers()
    ensures After(ExampleSession(), [Data(REPLIES)]).result == Some(ANSWERED)
  {
    var x := ExampleSession();
    ExampleLines();
    AfterOne(x, REPLIES);
    assert [] + REPLIES == REPLIES;
    FeedIsLines(x, START, REPLIES, [[49], [50]], []);
    ExampleHandled();
  }

  /** Its two replies and then too much: a quota when the replies come in a chunk of their own, else none. */
  lemma ExampleDependsOnChunks(more: bytes)
    requires |more| == LIMIT
    ensures After(ExampleSession(), [Data(REPLIES), Data(more)]).result == Some(ANSWERED)
    ensures After(ExampleSession(), [Data(REPLIES + more)]).result == None
  {
    var x := ExampleSession();
    ExampleLines();
    ExampleQuota();
    ExampleAnswers();
    ChunksMatterPastTheLimit(x, REPLIES, more, ANSWERED);
  }
}
