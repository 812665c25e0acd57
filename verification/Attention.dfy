/**
 The raised hand: one small file that says what a session is waiting on, and the append-only ledger of
 those waits.  `Apply` says what each hook event does to the pair; the class does it as the code does.

 Each hook changes the file under its lock, so events are taken one at a time.  Times are milliseconds.
 The empty string stands for "no call", which the code tests for truth.
 */
module Attention {
  import opened Basics

  datatype Kind = Permission | Input | IdleDone

  /** attention.json: for a permission prompt also the calls it waits on. */
  datatype Hand = Hand(kind: Kind, message: string, ts: int, calls: seq<string>)

  datatype Entry = Up(kind: Kind, t: int) | Down(kind: Kind, since: int, t: int)

  datatype State = State(hand: Option<Hand>, ledger: seq<Entry>)
  {
    /** A hand is up that someone waits on. */
    predicate Standing()
    {
      hand.Some? && hand.value.kind != IdleDone
    }
  }

  const START := State(None, [])

  /** What a hook reports.  `now` is when it acts, `eventMs` when the hook process started. */
  datatype Event =
    | Raise(kind: Kind, message: string, call: string, now: int)
    | Lower(now: int)
    | ToolStart(eventMs: int, now: int)
    | ToolResult(key: string, eventMs: int, now: int)

  const WHITESPACE: set<char> :=
    {' ', '\t', '\n', '\r', '\U{000b}', '\U{000c}', '\U{00a0}', '\U{1680}', '\U{2000}', '\U{2001}', '\U{2002}',
     '\U{2003}', '\U{2004}', '\U{2005}', '\U{2006}', '\U{2007}', '\U{2008}', '\U{2009}', '\U{200a}', '\U{2028}',
     '\U{2029}', '\U{202f}', '\U{205f}', '\U{3000}', '\U{feff}'}

  /** A bare tool name, as a permission request reports, rather than prose. */
  predicate IsToolName(s: string)
  {
    s != "" && forall c | c in s :: c !in WHITESPACE
  }

  /** The message a prompt reported twice keeps: a tool name over prose, else the newer one. */
  function MergedMessage(standing: string, reported: string): string
  {
    if IsToolName(standing) && !IsToolName(reported) then standing else if reported != "" then reported else standing
  }

  /** One prompt is one hand: a report that names no call, or a call already standing, restates it. */
  predicate Restates(h: Hand, kind: Kind, call: string)
  {
    h.kind == kind && (call == "" || h.calls == [] || call in h.calls)
  }

  function CallsWith(calls: seq<string>, call: string): seq<string>
  {
    if call != "" && call !in calls then calls + [call] else calls
  }

  function RaiseHand(s: State, kind: Kind, message: string, ts: int, call: string): State
  {
    var down := if s.Standing() then [Down(s.hand.value.kind, s.hand.value.ts, ts)] else [];
    if kind == IdleDone then State(Some(Hand(IdleDone, message, ts, [])), s.ledger + down)
    else
      var standingCalls := if s.Standing() then s.hand.value.calls else [];
      var calls := if kind == Permission then CallsWith(standingCalls, call) else [];
      if s.Standing() && Restates(s.hand.value, kind, call) then
        State(Some(Hand(kind, MergedMessage(s.hand.value.message, message), s.hand.value.ts, calls)), s.ledger)
      else State(Some(Hand(kind, message, ts, calls)), s.ledger + down + [Up(kind, ts)])
  }

  function LowerHand(s: State, now: int): State
  {
    State(None, s.ledger + if s.Standing() then [Down(s.hand.value.kind, s.hand.value.ts, now)] else [])
  }

  /** The call's result settles this hand: it waits on that call, or the turn it had ended runs again. */
  predicate Answered(hand: Option<Hand>, key: string, eventMs: int)
  {
    hand.Some? &&
    match hand.value.kind
    case IdleDone => hand.value.ts <= eventMs
    case Permission => key in hand.value.calls
    case Input => false
  }

  function Without(calls: seq<string>, key: string): seq<string>
  {
    if calls == [] then []
    else (if calls[0] == key then [] else [calls[0]]) + Without(calls[1..], key)
  }

  function Settle(s: State, key: string, eventMs: int, now: int): State
  {
    if !Answered(s.hand, key, eventMs) then s
    else
      var h := s.hand.value;
      var rest := Without(h.calls, key);
      if h.kind == Permission && rest != [] then s.(hand := Some(h.(calls := rest))) else LowerHand(s, now)
  }

  function Apply(s: State, ev: Event): State
  {
    match ev
    case Raise(kind, message, call, now) => RaiseHand(s, kind, message, now, call)
    case Lower(now) => if s.hand.None? then s else LowerHand(s, now)
    case ToolStart(eventMs, now) => if s.hand.None? || s.hand.value.ts > eventMs then s else LowerHand(s, now)
    case ToolResult(key, eventMs, now) => Settle(s, key, eventMs, now)
  }

  /** The state after a run, the newest event last. */
  function After(events: seq<Event>): State
  {
    if events == [] then START else Apply(After(events[..|events| - 1]), events[|events| - 1])
  }

  // ---------- the ledger over every run ----------

  ghost predicate Closed(ledger: seq<Entry>)
  {
    ledger == [] || ledger[|ledger| - 1].Down?
  }

  /** Ups and downs alternate, and each down carries the kind and time of the up it closes. */
  ghost predicate Alternates(ledger: seq<Entry>)
  {
    ledger == [] ||
    var init, last := ledger[..|ledger| - 1], ledger[|ledger| - 1];
    Alternates(init) &&
    match last
    case Up(_, _) => Closed(init)
    case Down(kind, since, _) => init != [] && init[|init| - 1] == Up(kind, since)
  }

  /** The ledger is a record of the hand: its last wait is open exactly while that very hand stands. */
  ghost predicate Recorded(s: State)
  {
    && Alternates(s.ledger)
    && (s.Standing() <==> !Closed(s.ledger))
    && (s.Standing() ==> s.ledger[|s.ledger| - 1] == Up(s.hand.value.kind, s.hand.value.ts))
  }

  lemma AppendEntry(ledger: seq<Entry>, e: Entry)
    ensures (ledger + [e])[..|ledger|] == ledger && (ledger + [e])[|ledger|] == e
  {
  }

  lemma LowerKeepsRecorded(s: State, now: int)
    requires Recorded(s)
    ensures Recorded(LowerHand(s, now))
  {
    if s.Standing() {
      AppendEntry(s.ledger, Down(s.hand.value.kind, s.hand.value.ts, now));
    } else {
      assert s.ledger + [] == s.ledger;
    }
  }

  lemma UpOpens(ledger: seq<Entry>, kind: Kind, t: int)
    ensures Alternates(ledger) && Closed(ledger) ==> Alternates(ledger + [Up(kind, t)]) && !Closed(ledger + [Up(kind, t)])
  {
    AppendEntry(ledger, Up(kind, t));
  }

  lemma RaiseKeepsRecorded(s: State, kind: Kind, message: string, ts: int, call: string)
    requires Recorded(s)
    ensures Recorded(RaiseHand(s, kind, message, ts, call))
  {
    LowerKeepsRecorded(s, ts);
    var down := if s.Standing() then [Down(s.hand.value.kind, s.hand.value.ts, ts)] else [];
    assert LowerHand(s, ts).ledger == s.ledger + down;
    if kind != IdleDone && !(s.Standing() && Restates(s.hand.value, kind, call)) {
      UpOpens(s.ledger + down, kind, ts);
    }
  }

  /** Over every run of events the ledger alternates, its downs close its ups, and it is open while a hand stands. */
  lemma {:induction false} LedgerRecordsTheHand(events: seq<Event>)
    ensures Recorded(After(events))
    decreases |events|
  {
    if events != [] {
      var s, ev := After(events[..|events| - 1]), events[|events| - 1];
      LedgerRecordsTheHand(events[..|events| - 1]);
      match ev
      case Raise(kind, message, call, now) => RaiseKeepsRecorded(s, kind, message, now, call);
      case Lower(now) => LowerKeepsRecorded(s, now);
      case ToolStart(_, now) => LowerKeepsRecorded(s, now);
      case ToolResult(_, _, now) => LowerKeepsRecorded(s, now);
    }
  }

  // ---------- what each event does ----------

  lemma {:induction false} WithoutDrops(calls: seq<string>, key: string)
    ensures forall c :: c in Without(calls, key) <==> c in calls && c != key
    decreases |calls|
  {
    if calls != [] {
      WithoutDrops(calls[1..], key);
      assert calls == [calls[0]] + calls[1..];
    }
  }

  /** No hand is left, and if someone waited on one, the ledger closes that wait at `t`, and no more. */
  ghost predicate Lowered(s: State, r: State, t: int)
  {
    && r.hand == None
    && (if s.Standing() then r.ledger == s.ledger + [Down(s.hand.value.kind, s.hand.value.ts, t)] else r.ledger == s.ledger)
  }

  /** A prompt or a session's end lowers whatever is up. */
  lemma LowerLowers(s: State, now: int)
    ensures Lowered(s, Apply(s, Lower(now)), now)
  {
    assert s.ledger + [] == s.ledger;
  }

  /** A tool's start lowers exactly a hand that is not stamped after it. */
  lemma StartLowers(s: State, eventMs: int, now: int)
    ensures var r := Apply(s, ToolStart(eventMs, now));
            if s.hand.Some? && s.hand.value.ts <= eventMs then Lowered(s, r, now) else r == s
  {
    assert s.ledger + [] == s.ledger;
  }

  /** The end of a turn is a hand that no one waits on: it closes a wait and opens none. */
  lemma IdleDoneWaitsOnNoOne(s: State, message: string, call: string, now: int)
    ensures var r := Apply(s, Raise(IdleDone, message, call, now));
            r.hand == Some(Hand(IdleDone, message, now, [])) && Lowered(s, r.(hand := None), now)
  {
    assert s.ledger + [] == s.ledger;
  }

  /** The standing hand is for this very prompt: the same kind, and not two different calls. */
  ghost predicate SamePrompt(s: State, kind: Kind, call: string)
  {
    && s.Standing() && s.hand.value.kind == kind
    && (call != "" && s.hand.value.calls != [] ==> call in s.hand.value.calls)
  }

  /**
   A report of a wait leaves a hand of its kind standing.  The same prompt again writes nothing and keeps its
   stamp, and its message unless the new one says more; another one closes the wait before it and opens its own.
   */
  lemma RaiseRaises(s: State, kind: Kind, message: string, call: string, now: int)
    requires kind != IdleDone
    ensures var r := Apply(s, Raise(kind, message, call, now));
            && r.hand.Some? && r.hand.value.kind == kind
            && (SamePrompt(s, kind, call) ==>
                  && r.ledger == s.ledger && r.hand.value.ts == s.hand.value.ts
                  && r.hand.value.message in {s.hand.value.message, message}
                  && (r.hand.value.message == "" ==> s.hand.value.message == "" == message)
                  && (IsToolName(r.hand.value.message) <==> IsToolName(s.hand.value.message) || IsToolName(message))
                  && (message != "" && (IsToolName(message) || !IsToolName(s.hand.value.message)) ==> r.hand.value.message == message))
            && (!SamePrompt(s, kind, call) ==>
                  && r.hand.value.ts == now && r.hand.value.message == message
                  && exists lowered :: Lowered(s, lowered, now) && r.ledger == lowered.ledger + [Up(kind, now)])
  {
    var lowered := LowerHand(s, now);
    LowerLowers(s, now);
    assert s.ledger + [] == s.ledger;
    assert Lowered(s, lowered, now);
    assert !SamePrompt(s, kind, call) ==> Apply(s, Raise(kind, message, call, now)).ledger == lowered.ledger + [Up(kind, now)];
  }

  /**
   A permission prompt raised beside a standing one keeps every call that waits, in its order, and adds its own
   once; a question waits on no call.
   */
  lemma RaiseKeepsCalls(s: State, kind: Kind, message: string, call: string, now: int)
    ensures var calls := Apply(s, Raise(kind, message, call, now)).hand.value.calls;
            if kind == Permission then
              var before := if s.Standing() then s.hand.value.calls else [];
              && before <= calls && |calls| <= |before| + 1
              && (forall c :: c in calls <==> c in before || (c == call && call != ""))
              && (call in before ==> calls == before)
            else calls == []
  {
  }

  /**
   A result lowers the hand of a turn that had ended, unless that is newer than the event, and never one for a
   question.  A permission prompt that names the call goes on without it, and falls with the last one it names.
   */
  lemma ResultSettles(s: State, key: string, eventMs: int, now: int)
    ensures var r := Apply(s, ToolResult(key, eventMs, now));
            match s.hand
            case None => r == s
            case Some(Hand(Input, _, _, _)) => r == s
            case Some(Hand(IdleDone, _, ts, _)) => if ts <= eventMs then Lowered(s, r, now) else r == s
            case Some(Hand(Permission, message, ts, calls)) =>
              if key !in calls then r == s
              else if forall c | c in calls :: c == key then Lowered(s, r, now)
              else
                && r.ledger == s.ledger
                && r.hand == Some(Hand(Permission, message, ts, r.hand.value.calls))
                && forall c :: c in r.hand.value.calls <==> c in calls && c != key
  {
    assert s.ledger + [] == s.ledger;
    if s.hand.Some? {
      WithoutDrops(s.hand.value.calls, key);
      var rest := Without(s.hand.value.calls, key);
      if rest != [] {
        assert rest[0] in rest;
      }
    }
  }

  lemma AfterMore(events: seq<Event>, ev: Event)
    ensures After(events + [ev]) == Apply(After(events), ev)
  {
    assert (events + [ev])[..|events|] == events;
  }

  /** From a prompt or a session's end on, no one waits and nothing is written until a wait is reported. */
  lemma {:induction false} LoweredUntilRaised(events: seq<Event>, now: int, rest: seq<Event>)
    requires forall ev | ev in rest :: ev.Raise? ==> ev.kind == IdleDone
    ensures var s, r := After(events + [Lower(now)]), After(events + [Lower(now)] + rest);
            Lowered(After(events), s, now) && !r.Standing() && r.ledger == s.ledger
    decreases |rest|
  {
    var front := events + [Lower(now)];
    AfterMore(events, Lower(now));
    LowerLowers(After(events), now);
    if rest == [] {
      assert front + rest == front;
    } else {
      var init, last := rest[..|rest| - 1], rest[|rest| - 1];
      LoweredUntilRaised(events, now, init);
      assert front + rest == front + init + [last];
      AfterMore(front + init, last);
      var s := After(front + init);
      match last
      case Raise(_, message, call, t) => IdleDoneWaitsOnNoOne(s, message, call, t);
      case Lower(t) => LowerLowers(s, t);
      case ToolStart(eventMs, t) => StartLowers(s, eventMs, t);
      case ToolResult(key, eventMs, t) => ResultSettles(s, key, eventMs, t);
    }
  }

  /** Nothing that answers this hand: an older start, or the result of a call it does not wait on. */
  predicate Elsewhere(h: Hand, ev: Event)
  {
    || (ev.ToolStart? && ev.eventMs < h.ts)
    || (ev.ToolResult? && !(h.kind == Permission && ev.key in h.calls))
  }

  /** And a hand that someone waits on stands as it is through everything else that tools report. */
  lemma {:induction false} StandsUntilAnswered(events: seq<Event>, rest: seq<Event>)
    requires After(events).Standing() && forall ev | ev in rest :: Elsewhere(After(events).hand.value, ev)
    ensures After(events + rest) == After(events)
    decreases |rest|
  {
    if rest == [] {
      assert events + rest == events;
    } else {
      var init, last := rest[..|rest| - 1], rest[|rest| - 1];
      StandsUntilAnswered(events, init);
      assert events + rest == events + init + [last];
      AfterMore(events + init, last);
      assert last in rest;
      if last.ToolStart? {
        StartLowers(After(events), last.eventMs, last.now);
      } else {
        ResultSettles(After(events), last.key, last.eventMs, last.now);
      }
    }
  }

  // ---------- the time waited ----------

  /** A closed wait clipped to the window that starts at `since`. */
  function ClosedWait(e: Entry, since: int): int
  {
    if e.Down? && e.t >= since then Max(0, e.t - Max(e.since, since)) else 0
  }

  function ClosedWaits(ledger: seq<Entry>, since: int): int
  {
    if ledger == [] then 0
    else ClosedWaits(ledger[..|ledger| - 1], since) + ClosedWait(ledger[|ledger| - 1], since)
  }

  function OpenWait(s: State, since: int, now: int): int
  {
    if s.Standing() then Max(0, now - Max(s.hand.value.ts, since)) else 0
  }

  function Waited(s: State, since: int, now: int): int
  {
    ClosedWaits(s.ledger, since) + OpenWait(s, since, now)
  }

  /** A run whose clock never goes back, up to `now`. */
  ghost predicate Timed(events: seq<Event>, now: int)
  {
    events == [] ||
    var init, last := events[..|events| - 1], events[|events| - 1];
    last.now <= now && Timed(init, last.now)
  }

  /** Whether a hand stood at instant `t`: the state after every event up to it. */
  predicate StandingAt(events: seq<Event>, t: int)
  {
    if events == [] then false
    else if events[|events| - 1].now <= t then After(events).Standing()
    else StandingAt(events[..|events| - 1], t)
  }

  /** How many milliseconds of [lo, hi) had a hand up. */
  function StandingTime(events: seq<Event>, lo: int, hi: int): nat
    decreases hi - lo
  {
    if hi <= lo then 0 else StandingTime(events, lo, hi - 1) + if StandingAt(events, hi - 1) then 1 else 0
  }

  /** Nothing recorded lies after `now`. */
  ghost predicate UpTo(s: State, now: int)
  {
    && (forall e | e in s.ledger :: e.t <= now)
    && (s.hand.Some? ==> s.hand.value.ts <= now)
  }

  lemma ApplyUpTo(s: State, ev: Event, now: int)
    ensures UpTo(s, now) && now <= ev.now ==> UpTo(Apply(s, ev), ev.now)
  {
  }

  lemma {:induction false} RunUpTo(events: seq<Event>, now: int)
    requires Timed(events, now)
    ensures UpTo(After(events), now)
    decreases |events|
  {
    if events != [] {
      var last := events[|events| - 1];
      RunUpTo(events[..|events| - 1], last.now);
      ApplyUpTo(After(events[..|events| - 1]), last, last.now);
    }
  }

  lemma ClosedWaitsAppend(ledger: seq<Entry>, e: Entry, since: int)
    ensures ClosedWaits(ledger + [e], since) == ClosedWaits(ledger, since) + ClosedWait(e, since)
  {
    AppendEntry(ledger, e);
  }

  /** Lowering at `t` closes exactly the wait that was open until then. */
  lemma LowerAccounts(s: State, since: int, t: int)
    requires UpTo(s, t)
    ensures ClosedWaits(LowerHand(s, t).ledger, since) == Waited(s, since, t)
  {
    if s.Standing() {
      ClosedWaitsAppend(s.ledger, Down(s.hand.value.kind, s.hand.value.ts, t), since);
    } else {
      assert s.ledger + [] == s.ledger;
    }
  }

  lemma RaiseAccounts(s: State, kind: Kind, message: string, t: int, call: string, since: int, now: int)
    requires UpTo(s, t) && t <= now
    ensures var r := RaiseHand(s, kind, message, t, call);
            Waited(r, since, now) == Waited(s, since, t) + if r.Standing() then Max(0, now - Max(t, since)) else 0
  {
    var down := if s.Standing() then [Down(s.hand.value.kind, s.hand.value.ts, t)] else [];
    assert LowerHand(s, t).ledger == s.ledger + down;
    LowerAccounts(s, since, t);
    ClosedWaitsAppend(s.ledger + down, Up(kind, t), since);
  }

  /** An event at `t` splits the time waited: what was waited until `t`, and what is waited from it on. */
  lemma EventAccounts(s: State, ev: Event, since: int, now: int)
    requires UpTo(s, ev.now) && ev.now <= now
    ensures Waited(Apply(s, ev), since, now)
         == Waited(s, since, ev.now) + if Apply(s, ev).Standing() then Max(0, now - Max(ev.now, since)) else 0
  {
    LowerAccounts(s, since, ev.now);
    match ev
    case Raise(kind, message, call, t) => RaiseAccounts(s, kind, message, t, call, since, now);
    case _ =>
  }

  lemma {:induction false} StandingTimeSplit(events: seq<Event>, lo: int, mid: int, hi: int)
    requires mid <= hi
    ensures StandingTime(events, lo, hi)
         == StandingTime(events, lo, mid) + StandingTime(events, Max(lo, mid), hi)
    decreases hi - mid
  {
    if mid < hi {
      StandingTimeSplit(events, lo, mid, hi - 1);
    }
  }

  /** Before the last event the run without it decides; from it on, the state it left. */
  lemma {:induction false} StandingTimeBefore(events: seq<Event>, lo: int, hi: int)
    requires events != [] && hi <= events[|events| - 1].now
    ensures StandingTime(events, lo, hi) == StandingTime(events[..|events| - 1], lo, hi)
    decreases hi - lo
  {
    if lo < hi {
      StandingTimeBefore(events, lo, hi - 1);
    }
  }

  lemma {:induction false} StandingTimeSince(events: seq<Event>, lo: int, hi: int)
    requires events != [] && events[|events| - 1].now <= lo
    ensures StandingTime(events, lo, hi) == if After(events).Standing() then Max(0, hi - lo) else 0
    decreases hi - lo
  {
    if lo < hi {
      StandingTimeSince(events, lo, hi - 1);
    }
  }

  lemma {:induction false} NoEventsNoTime(lo: int, hi: int)
    ensures StandingTime([], lo, hi) == 0
    decreases hi - lo
  {
    if lo < hi {
      NoEventsNoTime(lo, hi - 1);
    }
  }

  /** With a clock that never goes back, the time waited is the measure of the time with a hand up. */
  lemma {:induction false} WaitedIsStandingTime(events: seq<Event>, since: int, now: int)
    requires Timed(events, now)
    ensures Waited(After(events), since, now) == StandingTime(events, since, now)
    decreases |events|
  {
    if events == [] {
      NoEventsNoTime(since, now);
    } else {
      var init, last := events[..|events| - 1], events[|events| - 1];
      WaitedIsStandingTime(init, since, last.now);
      RunUpTo(init, last.now);
      EventAccounts(After(init), last, since, now);
      StandingTimeSplit(events, since, last.now, now);
      StandingTimeBefore(events, since, last.now);
      StandingTimeSince(events, Max(since, last.now), now);
    }
  }

  lemma {:induction false} StandingTimeBounded(events: seq<Event>, lo: int, hi: int)
    ensures StandingTime(events, lo, hi) <= Max(0, hi - lo)
    decreases hi - lo
  {
    if lo < hi {
      StandingTimeBounded(events, lo, hi - 1);
    }
  }

  // ---------- permission prompts ----------

  /** A result changes nothing but a hand it answers; a start lowers no hand stamped after it. */
  lemma OthersStayUp(s: State, key: string, eventMs: int, now: int)
    ensures !Answered(s.hand, key, eventMs) ==> Apply(s, ToolResult(key, eventMs, now)) == s
    ensures Answered(s.hand, key, eventMs) ==> Apply(s, ToolResult(key, eventMs, now)).hand != s.hand
    ensures s.hand.Some? && s.hand.value.ts > eventMs ==> Apply(s, ToolStart(eventMs, now)) == s
    ensures s.hand.Some? && s.hand.value.ts <= eventMs ==> Apply(s, ToolStart(eventMs, now)).hand == None
  {
    if Answered(s.hand, key, eventMs) && s.hand.value.kind == Permission {
      WithoutDrops(s.hand.value.calls, key);
    }
  }

  function Results(s: State, keys: seq<string>, eventMs: int, now: int): State
  {
    if keys == [] then s
    else Settle(Results(s, keys[..|keys| - 1], eventMs, now), keys[|keys| - 1], eventMs, now)
  }

  /**
   A permission hand naming several calls, answered by any results in any order: it stands, the same
   prompt with the same stamp and an untouched ledger, exactly while one of its calls is unanswered.
   */
  lemma {:induction false} FallsWithItsLastCall(s: State, keys: seq<string>, eventMs: int, now: int)
    requires s.hand.Some? && s.hand.value.kind == Permission && s.hand.value.calls != []
    ensures var h, r := s.hand.value, Results(s, keys, eventMs, now);
            if exists c | c in h.calls :: c !in keys
            then r.ledger == s.ledger && r.hand.Some? && r.hand.value == h.(calls := r.hand.value.calls)
              && forall c :: c in r.hand.value.calls <==> c in h.calls && c !in keys
            else r == State(None, s.ledger + [Down(Permission, h.ts, now)])
    decreases |keys|
  {
    var h := s.hand.value;
    if keys == [] {
      assert h.calls[0] in h.calls;
    } else {
      var init, key := keys[..|keys| - 1], keys[|keys| - 1];
      FallsWithItsLastCall(s, init, eventMs, now);
      assert keys == init + [key];
      var r := Results(s, init, eventMs, now);
      if r.hand.Some? {
        WithoutDrops(r.hand.value.calls, key);
        var rest := Without(r.hand.value.calls, key);
        if rest != [] {
          assert rest[0] in rest;
        }
      }
    }
  }

  /**
   One prompt reported twice, by its PermissionRequest and by a Notification, in either order: one up in
   the ledger, the first report's stamp, the tool's name, and the call it waits on.
   */
  lemma OnePromptOneHand(s: State, tool: string, prose: string, call: string, t1: int, t2: int)
    requires !s.Standing() && IsToolName(tool) && !IsToolName(prose) && call != ""
    ensures var request, notice := t => Raise(Permission, tool, call, t), t => Raise(Permission, prose, "", t);
            var once := State(Some(Hand(Permission, tool, t1, [call])), s.ledger + [Up(Permission, t1)]);
            && Apply(Apply(s, request(t1)), notice(t2)) == once
            && Apply(Apply(s, notice(t1)), request(t2)) == once
  {
    assert s.ledger + [] == s.ledger;
    assert [] + [call] == [call];
    var first := RaiseHand(s, Permission, tool, t1, call);
    assert first == State(Some(Hand(Permission, tool, t1, [call])), s.ledger + [Up(Permission, t1)]);
    var noticed := RaiseHand(s, Permission, prose, t1, "");
    assert noticed == State(Some(Hand(Permission, prose, t1, [])), s.ledger + [Up(Permission, t1)]);
  }

  // ---------- the files ----------

  class AttentionStore {
    var hand: Option<Hand>
    var ledger: seq<Entry>

    function Contents(): State
      reads this
    {
      State(hand, ledger)
    }

    constructor ()
      ensures Contents() == START
    {
      hand, ledger := None, [];
    }

    /** Raise or restate a hand. */
    method WriteAttention(kind: Kind, message: string, ts: int, call: string)
      modifies this
      ensures Contents() == old(RaiseHand(Contents(), kind, message, ts, call))
    {
      var standing := if hand.Some? && hand.value.kind != IdleDone then hand else None;
      var next := Hand(kind, message, ts, []);
      if kind != IdleDone {
        var calls := if standing.Some? then standing.value.calls else [];
        var restated := standing.Some? && standing.value.kind == kind &&
                        (call == "" || calls == [] || call in calls);
        if call != "" && call !in calls {
          calls := calls + [call];
        }
        if restated {
          next := Hand(kind, MergedMessage(standing.value.message, message), standing.value.ts, []);
        } else {
          if standing.Some? {
            ledger := ledger + [Down(standing.value.kind, standing.value.ts, ts)];
          }
          ledger := ledger + [Up(kind, ts)];
        }
        if kind == Permission && calls != [] {
          next := next.(calls := calls);
        }
      } else if standing.Some? {
        ledger := ledger + [Down(standing.value.kind, standing.value.ts, ts)];
      }
      hand := Some(next);
    }

    /** The ledger closes the wait, then the file goes. */
    method Fall(now: int)
      modifies this
      ensures Contents() == old(LowerHand(Contents(), now))
    {
      if hand.Some? && hand.value.kind != IdleDone {
        ledger := ledger + [Down(hand.value.kind, hand.value.ts, now)];
      }
      hand := None;
    }

    /** A prompt or a session's end (`eventMs` None) lowers any hand, a tool's start one not stamped after it. */
    method ClearAttention(eventMs: Option<int>, now: int)
      modifies this
      ensures Contents() == old(Apply(Contents(), match eventMs case None => Lower(now) case Some(m) => ToolStart(m, now)))
    {
      if hand.None? || (eventMs.Some? && hand.value.ts > eventMs.value) {
        return;
      }
      Fall(now);
    }

    /** A tool call's start, or its result with the key its prompt named it by. */
    method NoteToolCall(starts: bool, key: string, eventMs: int, now: int)
      modifies this
      ensures Contents() == old(Apply(Contents(), if starts then ToolStart(eventMs, now) else ToolResult(key, eventMs, now)))
    {
      if starts {
        ClearAttention(Some(eventMs), now);
        return;
      }
      if !Answered(hand, key, eventMs) {
        return;
      }
      var rest := Without(hand.value.calls, key);
      if hand.value.kind == Permission && rest != [] {
        hand := Some(hand.value.(calls := rest));
      } else {
        Fall(now);
      }
    }

    method Handle(ev: Event)
      modifies this
      ensures Contents() == old(Apply(Contents(), ev))
    {
      match ev
      case Raise(kind, message, call, now) => WriteAttention(kind, message, now, call);
      case Lower(now) => ClearAttention(None, now);
      case ToolStart(eventMs, now) => NoteToolCall(true, "", eventMs, now);
      case ToolResult(key, eventMs, now) => NoteToolCall(false, key, eventMs, now);
    }

    /** Every closed wait clipped to the window, and the hand standing now. */
    method WaitedMs(since: int, now: int) returns (total: int)
      ensures total == Waited(Contents(), since, now)
    {
      total := 0;
      var i := 0;
      while i < |ledger|
        invariant 0 <= i <= |ledger| && total == ClosedWaits(ledger[..i], since)
      {
        assert ledger[..i + 1][..i] == ledger[..i];
        var e := ledger[i];
        if e.Down? && e.t >= since {
          total := total + Max(0, e.t - Max(e.since, since));
        }
        i := i + 1;
      }
      assert ledger[..|ledger|] == ledger;
      if hand.Some? && hand.value.kind != IdleDone {
        total := total + Max(0, now - Max(hand.value.ts, since));
      }
    }

    /** What a surface reads after any run of hooks: the time this session really waited. */
    method WaitedAfter(events: seq<Event>, since: int, now: int) returns (total: int)
      requires Contents() == START && Timed(events, now)
      modifies this
      ensures total == StandingTime(events, since, now) <= Max(0, now - since)
    {
      var i := 0;
      while i < |events|
        invariant 0 <= i <= |events| && Contents() == After(events[..i])
      {
        assert events[..i + 1][..i] == events[..i];
        Handle(events[i]);
        i := i + 1;
      }
      assert events[..|events|] == events;
      WaitedIsStandingTime(events, since, now);
      StandingTimeBounded(events, since, now);
      total := WaitedMs(since, now);
    }
  }
}
