/**
 The Pre/Post staging protocol of the file-edit tools, one hook at a time: overlapping calls on one file are
 marked ambiguous, so that no edit is credited to a call that may not have made it.
 */
module Staging {
  import opened Basics

  type Blob = string

  /** A hash of the file and one of the call id, both taken as injective; an empty id names no call. */
  datatype Key = Key(file: string, id: string)

  /** The file as a hook finds it: gone, not capturable, or captured. */
  datatype Snapshot = Missing | Skip | Content(blob: Blob)
  {
    function Stored(): Option<Blob>
    {
      if Content? then Some(blob) else None
    }
  }

  datatype Staged = Staged(tool: string, before: Option<Blob>, ts: int, ambiguous: bool)

  datatype Attribution = Correlated | Ambiguous | Interval

  /** A log record, from this protocol or (Interval, other sources) from another capture. */
  datatype Record = Record(file: string, call: string, tool: string, before: Option<Blob>, after: Option<Blob>,
                           attribution: Attribution, startMs: int, ts: int, undone: bool)

  datatype State = State(staging: map<Key, Staged>, log: seq<Record>, skips: seq<string>)

  const START := State(map[], [], [])

  datatype Event =
    | Pre(key: Key, tool: string, snap: Snapshot, now: int)
    | Post(key: Key, snap: Snapshot, now: int)
    | Failure(key: Key)
    | TurnEnd
    | Foreign(record: Record)

  predicate SharesFile(staging: map<Key, Staged>, file: string)
  {
    exists k | k in staging :: k.file == file
  }

  function MarkFile(staging: map<Key, Staged>, file: string): map<Key, Staged>
  {
    map k | k in staging :: if k.file == file then staging[k].(ambiguous := true) else staging[k]
  }

  function HandlePre(s: State, key: Key, tool: string, snap: Snapshot, now: int): State
  {
    if key in s.staging then
      if key.id != "" then s
      else s.(staging := s.staging[key := s.staging[key].(ambiguous := true)])
    else if snap.Skip? then s
    else
      var staged := Staged(tool, snap.Stored(), now, SharesFile(s.staging, key.file));
      s.(staging := MarkFile(s.staging, key.file)[key := staged])
  }

  /** The newest record of a file. */
  function LastFor(log: seq<Record>, file: string): Option<Record>
  {
    if log == [] then None
    else if log[|log| - 1].file == file then Some(log[|log| - 1])
    else LastFor(log[..|log| - 1], file)
  }

  /** Another capture already recorded this end state after the call began. */
  predicate AlreadyRecorded(log: seq<Record>, file: string, after: Option<Blob>, since: int)
  {
    var last := LastFor(log, file);
    last.Some? && !last.value.undone && last.value.after == after && last.value.ts >= since
  }

  /** The rule that tells a change of blank lines only is a parameter. */
  type BlankRule = (Blob, Blob) -> bool

  /** A creation or a deletion is never dropped as one. */
  predicate BlankOnly(blank: BlankRule, before: Option<Blob>, after: Option<Blob>)
  {
    before.Some? && after.Some? && blank(before.value, after.value)
  }

  /** What Post adds to the log for a staged call, if anything. */
  function Logged(blank: BlankRule, log: seq<Record>, key: Key, st: Staged, snap: Snapshot, now: int): Option<Record>
  {
    var after := snap.Stored();
    if snap.Skip? || st.before == after || BlankOnly(blank, st.before, after) || AlreadyRecorded(log, key.file, after, st.ts) then None
    else Some(Record(key.file, key.id, st.tool, st.before, after,
                     if st.ambiguous then Ambiguous else Correlated, st.ts, now, false))
  }

  function HandlePost(blank: BlankRule, s: State, key: Key, snap: Snapshot, now: int): State
  {
    if key !in s.staging then s.(skips := s.skips + [key.file])
    else
      var logged := Logged(blank, s.log, key, s.staging[key], snap, now);
      State(s.staging - {key},
            if logged.Some? then s.log + [logged.value] else s.log,
            if snap.Skip? then s.skips + [key.file] else s.skips)
  }

  function Apply(blank: BlankRule, s: State, ev: Event): State
  {
    match ev
    case Pre(key, tool, snap, now) => HandlePre(s, key, tool, snap, now)
    case Post(key, snap, now) => HandlePost(blank, s, key, snap, now)
    case Failure(key) => s.(staging := s.staging - {key})
    case TurnEnd => s.(staging := map[])
    case Foreign(record) => s.(log := s.log + [record])
  }

  function After(blank: BlankRule, events: seq<Event>): State
  {
    if events == [] then START else Apply(blank, After(blank, events[..|events| - 1]), events[|events| - 1])
  }

  // ---------- what every run keeps ----------

  /** Two calls staged on one file at once are both marked. */
  ghost predicate OverlapsMarked(staging: map<Key, Staged>)
  {
    forall k, other | k in staging && other in staging && k != other && k.file == other.file :: staging[k].ambiguous
  }

  lemma {:induction false} OverlapsAreMarked(blank: BlankRule, events: seq<Event>)
    ensures OverlapsMarked(After(blank, events).staging)
    decreases |events|
  {
    if events != [] {
      OverlapsAreMarked(blank, events[..|events| - 1]);
    }
  }

  /** A mark lasts as long as the call is staged, and so does the baseline taken by its Pre. */
  lemma MarkAndBaselineKept(blank: BlankRule, s: State, ev: Event, k: Key)
    requires k in s.staging && k in Apply(blank, s, ev).staging
    ensures var was, now := s.staging[k], Apply(blank, s, ev).staging[k];
            (was.ambiguous ==> now.ambiguous) && now.(ambiguous := was.ambiguous) == was
  {
  }

  /** When the call staged now was staged: the event that put it there. */
  function StagedBy(blank: BlankRule, events: seq<Event>, key: Key): (i: nat)
    requires key in After(blank, events).staging
    ensures i < |events|
  {
    var init := events[..|events| - 1];
    if key in After(blank, init).staging then StagedBy(blank, init, key) else |init|
  }

  /** Nothing else is staged on the key's file. */
  ghost predicate Alone(staging: map<Key, Staged>, key: Key)
  {
    forall k | k in staging && k.file == key.file :: k == key
  }

  /** The state after the first `n` events. */
  function At(blank: BlankRule, events: seq<Event>, n: nat): State
    requires n <= |events|
  {
    After(blank, events[..n])
  }

  /** The Pre that staged the call, and every moment since: no other call was ever staged on its file. */
  ghost predicate AloneSince(blank: BlankRule, events: seq<Event>, key: Key, i: nat)
    requires i < |events|
  {
    && events[i].Pre? && events[i].key == key
    && key !in At(blank, events, i).staging
    && forall m | i <= m <= |events| :: Alone(At(blank, events, m).staging, key)
  }

  lemma AloneExtends(blank: BlankRule, events: seq<Event>, key: Key, i: nat)
    requires i < |events| - 1 && AloneSince(blank, events[..|events| - 1], key, i)
    requires Alone(After(blank, events).staging, key)
    ensures AloneSince(blank, events, key, i)
  {
    var init := events[..|events| - 1];
    forall m | i <= m <= |events| ensures Alone(At(blank, events, m).staging, key) {
      if m < |events| {
        assert events[..m] == init[..m];
        assert Alone(At(blank, init, m).staging, key);
      } else {
        assert events[..m] == events;
      }
    }
    assert events[..i] == init[..i];
  }

  lemma NewlyStaged(blank: BlankRule, s: State, ev: Event, key: Key)
    requires key !in s.staging && key in Apply(blank, s, ev).staging && !Apply(blank, s, ev).staging[key].ambiguous
    ensures ev.Pre? && ev.key == key && Alone(s.staging, key) && Alone(Apply(blank, s, ev).staging, key)
    ensures var staged := Apply(blank, s, ev).staging[key]; (staged.before, staged.ts) == (ev.snap.Stored(), ev.now)
  {
    assert !SharesFile(s.staging, key.file);
  }

  lemma AtEnd(blank: BlankRule, events: seq<Event>)
    ensures At(blank, events, |events|) == After(blank, events)
  {
    assert events[..|events|] == events;
  }

  lemma AloneFromItsPre(blank: BlankRule, events: seq<Event>, key: Key)
    requires key in After(blank, events).staging && !After(blank, events).staging[key].ambiguous
    requires key !in After(blank, events[..|events| - 1]).staging
    ensures AloneSince(blank, events, key, |events| - 1)
  {
    var i := |events| - 1;
    NewlyStaged(blank, After(blank, events[..i]), events[i], key);
    AtEnd(blank, events);
    forall m | i <= m <= |events| ensures Alone(At(blank, events, m).staging, key) {
      assert m == i || m == |events|;
    }
  }

  /** An unmarked call has been alone on its file since its own Pre, and still has that Pre's baseline. */
  lemma {:induction false} UnmarkedWasAlone(blank: BlankRule, events: seq<Event>, key: Key)
    requires key in After(blank, events).staging && !After(blank, events).staging[key].ambiguous
    ensures AloneSince(blank, events, key, StagedBy(blank, events, key))
    ensures var i, staged := StagedBy(blank, events, key), After(blank, events).staging[key];
            (staged.before, staged.ts) == (events[i].snap.Stored(), events[i].now)
    decreases |events|
  {
    var init, ev := events[..|events| - 1], events[|events| - 1];
    var before := After(blank, init);
    if key in before.staging {
      MarkAndBaselineKept(blank, before, ev, key);
      UnmarkedWasAlone(blank, init, key);
      OverlapsAreMarked(blank, events);
      AloneExtends(blank, events, key, StagedBy(blank, events, key));
    } else {
      NewlyStaged(blank, before, ev, key);
      AloneFromItsPre(blank, events, key);
    }
  }

  /**
   A record logged `correlated` is that of a call whose file had no other call staged at any moment from
   just before its own Pre to its Post; its before-state and start are that Pre's.
   */
  lemma CorrelatedWasAlone(blank: BlankRule, events: seq<Event>, key: Key, snap: Snapshot, now: int)
    requires key in After(blank, events).staging
    requires var r := Logged(blank, After(blank, events).log, key, After(blank, events).staging[key], snap, now);
             r.Some? && r.value.attribution == Correlated
    ensures var r := Logged(blank, After(blank, events).log, key, After(blank, events).staging[key], snap, now).value;
            var i := StagedBy(blank, events, key);
            && AloneSince(blank, events, key, i)
            && (r.file, r.call, r.after) == (key.file, key.id, snap.Stored())
            && (r.before, r.startMs) == (events[i].snap.Stored(), events[i].now)
  {
    UnmarkedWasAlone(blank, events, key);
  }

  /**
   Conversely, a call whose file held another staged call at some moment since its Pre is never logged
   `correlated`, whatever its Post finds.
   */
  lemma OverlapIsNeverCorrelated(blank: BlankRule, events: seq<Event>, key: Key, m: nat, snap: Snapshot, now: int)
    requires key in After(blank, events).staging
    requires StagedBy(blank, events, key) <= m <= |events| && !Alone(At(blank, events, m).staging, key)
    ensures var r := Logged(blank, After(blank, events).log, key, After(blank, events).staging[key], snap, now);
            r.Some? ==> r.value.attribution == Ambiguous
  {
    if !After(blank, events).staging[key].ambiguous {
      UnmarkedWasAlone(blank, events, key);
    }
  }

  /** Nothing else was staged on the file at any moment since the call's Pre, whose baseline the record has. */
  ghost predicate AloneUntil(blank: BlankRule, before: seq<Event>, key: Key, r: Record)
    requires key in After(blank, before).staging
  {
    var i := StagedBy(blank, before, key);
    && AloneSince(blank, before, key, i)
    && (r.file, r.call) == (key.file, key.id)
    && (r.before, r.startMs) == (before[i].snap.Stored(), before[i].now)
  }

  /** Where a log record is from: another capture, or the Post of a call that, if correlated, was alone on its file. */
  ghost predicate CameFrom(blank: BlankRule, before: seq<Event>, ev: Event, r: Record)
  {
    || ev == Foreign(r)
    || (&& ev.Post? && ev.key in After(blank, before).staging
        && Logged(blank, After(blank, before).log, ev.key, After(blank, before).staging[ev.key], ev.snap, ev.now) == Some(r)
        && (r.attribution == Correlated ==> AloneUntil(blank, before, ev.key, r)))
  }

  /**
   Every record of the log, after any run, is another capture's or some Post's; and each of those that is
   correlated is of a call that had its file to itself from its Pre to that Post.
   */
  lemma {:induction false} CorrelatedRecordsWereAlone(blank: BlankRule, events: seq<Event>, r: Record)
    requires r in After(blank, events).log
    ensures exists n | 0 <= n < |events| :: CameFrom(blank, events[..n], events[n], r)
    decreases |events|
  {
    var n := |events| - 1;
    var before, ev := events[..n], events[n];
    if r in After(blank, before).log {
      CorrelatedRecordsWereAlone(blank, before, r);
      var m :| 0 <= m < n && CameFrom(blank, before[..m], before[m], r);
      assert before[..m] == events[..m];
    } else if ev.Post? {
      if r.attribution == Correlated {
        CorrelatedWasAlone(blank, before, ev.key, ev.snap, ev.now);
      }
      assert CameFrom(blank, events[..n], events[n], r);
    } else {
      assert CameFrom(blank, events[..n], events[n], r);
    }
  }

  // ---------- what a run stages and logs ----------

  /** The event ends the call, whatever it finds. */
  predicate Ends(ev: Event, key: Key)
  {
    ((ev.Post? || ev.Failure?) && ev.key == key) || ev.TurnEnd?
  }

  /** A Pre that found the file capturable, with nothing that ends the call after it. */
  ghost predicate Begun(events: seq<Event>, key: Key, i: nat)
    requires i < |events|
  {
    && events[i].Pre? && events[i].key == key && !events[i].snap.Skip?
    && forall j | i < j < |events| :: !Ends(events[j], key)
  }

  lemma BegunExtends(init: seq<Event>, ev: Event, key: Key)
    ensures (exists i | 0 <= i <= |init| :: Begun(init + [ev], key, i)) <==>
              || (ev.Pre? && ev.key == key && !ev.snap.Skip?)
              || (!Ends(ev, key) && exists i | 0 <= i < |init| :: Begun(init, key, i))
  {
    var events := init + [ev];
    if i :| 0 <= i <= |init| && Begun(events, key, i) {
      if i < |init| {
        assert events[|init|] == ev;
        assert forall j | i < j < |init| :: events[j] == init[j];
        assert Begun(init, key, i);
      }
    }
    if ev.Pre? && ev.key == key && !ev.snap.Skip? {
      assert Begun(events, key, |init|);
    }
    if !Ends(ev, key) {
      if i :| 0 <= i < |init| && Begun(init, key, i) {
        assert Begun(events, key, i);
      }
    }
  }

  /** A call is staged exactly between a Pre that found its file capturable and the first event that ends it. */
  lemma {:induction false} StagedExactly(blank: BlankRule, events: seq<Event>, key: Key)
    ensures key in After(blank, events).staging <==> exists i | 0 <= i < |events| :: Begun(events, key, i)
    decreases |events|
  {
    if events != [] {
      var init, ev := events[..|events| - 1], events[|events| - 1];
      StagedExactly(blank, init, key);
      BegunExtends(init, ev, key);
      assert events == init + [ev];
    }
  }

  /** What stands staged is what its own Pre took, but for the mark. */
  lemma {:induction false} StagedAsTaken(blank: BlankRule, events: seq<Event>, key: Key)
    requires key in After(blank, events).staging
    ensures var ev, staged := events[StagedBy(blank, events, key)], After(blank, events).staging[key];
            && ev.Pre? && ev.key == key && !ev.snap.Skip?
            && (staged.tool, staged.before, staged.ts) == (ev.tool, ev.snap.Stored(), ev.now)
    decreases |events|
  {
    var init, ev := events[..|events| - 1], events[|events| - 1];
    if key in After(blank, init).staging {
      StagedAsTaken(blank, init, key);
      MarkAndBaselineKept(blank, After(blank, init), ev, key);
    }
  }

  /** Another call without an id began on the same file; the two cannot be told apart. */
  ghost predicate BegunAgain(events: seq<Event>, key: Key, i: nat)
  {
    key.id == "" && exists j | i < j < |events| :: events[j].Pre? && events[j].key == key
  }

  /** The call had its file to itself from its Pre on. */
  ghost predicate Undisturbed(blank: BlankRule, events: seq<Event>, key: Key, i: nat)
    requires i < |events|
  {
    AloneSince(blank, events, key, i) && !BegunAgain(events, key, i)
  }

  lemma UndisturbedBefore(blank: BlankRule, events: seq<Event>, key: Key, i: nat)
    requires i < |events| - 1
    ensures Undisturbed(blank, events, key, i) ==>
              Undisturbed(blank, events[..|events| - 1], key, i) && Alone(After(blank, events).staging, key)
  {
    if Undisturbed(blank, events, key, i) {
      var init := events[..|events| - 1];
      forall m | i <= m <= |init| ensures Alone(At(blank, init, m).staging, key) {
        assert events[..m] == init[..m];
        assert Alone(At(blank, events, m).staging, key);
      }
      assert events[..i] == init[..i];
      AtEnd(blank, events);
      assert Alone(At(blank, events, |events|).staging, key);
    }
  }

  lemma MarkedByEvent(blank: BlankRule, s: State, ev: Event, key: Key)
    requires key in s.staging && key in Apply(blank, s, ev).staging
    ensures !s.staging[key].ambiguous && Apply(blank, s, ev).staging[key].ambiguous ==>
              (ev.Pre? && ev.key == key && key.id == "") || !Alone(Apply(blank, s, ev).staging, key)
    ensures ev.Pre? && ev.key == key && key.id == "" ==> Apply(blank, s, ev).staging[key].ambiguous
  {
  }

  lemma MarkedWhenStaged(blank: BlankRule, s: State, ev: Event, key: Key)
    requires key !in s.staging && key in Apply(blank, s, ev).staging && Apply(blank, s, ev).staging[key].ambiguous
    ensures !Alone(s.staging, key)
  {
  }

  lemma NotAloneBefore(blank: BlankRule, events: seq<Event>, key: Key)
    requires events != [] && !Alone(After(blank, events[..|events| - 1]).staging, key)
    ensures !AloneSince(blank, events, key, |events| - 1)
  {
    var i := |events| - 1;
    assert !Alone(At(blank, events, i).staging, key);
  }

  lemma MarkedAtItsPre(blank: BlankRule, events: seq<Event>, key: Key)
    requires key in After(blank, events).staging && key !in After(blank, events[..|events| - 1]).staging
    ensures After(blank, events).staging[key].ambiguous <==> !Undisturbed(blank, events, key, |events| - 1)
  {
    if After(blank, events).staging[key].ambiguous {
      MarkedWhenStaged(blank, After(blank, events[..|events| - 1]), events[|events| - 1], key);
      NotAloneBefore(blank, events, key);
    } else {
      AloneFromItsPre(blank, events, key);
    }
  }

  /** A call is marked exactly when it did not have its file to itself. */
  lemma {:induction false} MarkedExactly(blank: BlankRule, events: seq<Event>, key: Key)
    requires key in After(blank, events).staging
    ensures After(blank, events).staging[key].ambiguous <==> !Undisturbed(blank, events, key, StagedBy(blank, events, key))
    decreases |events|
  {
    var n := |events| - 1;
    var init, ev, i := events[..n], events[n], StagedBy(blank, events, key);
    var s := After(blank, init);
    if key !in s.staging {
      MarkedAtItsPre(blank, events, key);
    } else {
      MarkedExactly(blank, init, key);
      MarkedByEvent(blank, s, ev, key);
      if After(blank, events).staging[key].ambiguous {
        UndisturbedBefore(blank, events, key, i);
      } else {
        MarkAndBaselineKept(blank, s, ev, key);
        UnmarkedWasAlone(blank, events, key);
      }
    }
  }

  /** The newest record of the file is one of this end state, made since `since` and not undone. */
  ghost predicate EndStateLogged(log: seq<Record>, file: string, after: Option<Blob>, since: int)
  {
    exists n | 0 <= n < |log| ::
      && log[n].file == file && (forall m | n < m < |log| :: log[m].file != file)
      && log[n].after == after && log[n].ts >= since && !log[n].undone
  }

  /** Where the newest record of a file is. */
  lemma {:induction false} NewestAt(log: seq<Record>, file: string) returns (n: nat)
    ensures LastFor(log, file).None? ==> forall m | 0 <= m < |log| :: log[m].file != file
    ensures LastFor(log, file).Some? ==> n < |log| && log[n] == LastFor(log, file).value
    ensures LastFor(log, file).Some? ==> log[n].file == file && forall m | n < m < |log| :: log[m].file != file
    decreases |log|
  {
    n := 0;
    if log != [] {
      var init := log[..|log| - 1];
      if log[|log| - 1].file == file {
        n := |log| - 1;
      } else {
        n := NewestAt(init, file);
        assert forall m | 0 <= m < |init| :: init[m] == log[m];
      }
    }
  }

  lemma LastForIsLast(log: seq<Record>, file: string, after: Option<Blob>, since: int)
    ensures AlreadyRecorded(log, file, after, since) <==> EndStateLogged(log, file, after, since)
  {
    var n := NewestAt(log, file);
    if LastFor(log, file).Some? && EndStateLogged(log, file, after, since) {
      var k :| 0 <= k < |log| && log[k].file == file && (forall m | k < m < |log| :: log[m].file != file) &&
               log[k].after == after && log[k].ts >= since && !log[k].undone;
      assert k == n;
    }
  }

  /**
   A Post logs its call exactly when the file was capturable, ended in another state than its Pre found, by more
   than blank lines, and no other capture has that end state as the file's newest since.  It logs one record,
   with that Pre's tool, baseline and time, `Correlated` exactly when the call had its file to itself.
   */
  lemma PostLogsExactly(blank: BlankRule, events: seq<Event>, key: Key, snap: Snapshot, now: int)
    requires key in After(blank, events).staging
    ensures var s, r := After(blank, events), After(blank, events + [Post(key, snap, now)]);
            var i := StagedBy(blank, events, key);
            var pre, after := events[i], snap.Stored();
            && pre.Pre? && pre.key == key && !pre.snap.Skip?
            && r.staging == s.staging - {key}
            && r.skips == (if snap.Skip? then s.skips + [key.file] else s.skips)
            && (if && !snap.Skip? && pre.snap != snap
                   && (pre.snap.Content? && snap.Content? ==> !blank(pre.snap.blob, snap.blob))
                   && !EndStateLogged(s.log, key.file, after, pre.now)
                then r.log == s.log + [Record(key.file, key.id, pre.tool, pre.snap.Stored(), after,
                       if Undisturbed(blank, events, key, i) then Correlated else Ambiguous, pre.now, now, false)]
                else r.log == s.log)
  {
    var s, ev, i := After(blank, events), Post(key, snap, now), StagedBy(blank, events, key);
    assert (events + [ev])[..|events|] == events;
    StagedAsTaken(blank, events, key);
    MarkedExactly(blank, events, key);
    LastForIsLast(s.log, key.file, snap.Stored(), events[i].now);
  }

  /** A call that is not staged leaves a note, and nothing but a Post and another capture writes to the log. */
  lemma OthersLogNothing(blank: BlankRule, s: State, ev: Event)
    ensures match ev
            case Post(key, _, _) => key !in s.staging ==> Apply(blank, s, ev) == s.(skips := s.skips + [key.file])
            case Foreign(record) => Apply(blank, s, ev) == s.(log := s.log + [record])
            case _ => Apply(blank, s, ev).log == s.log && Apply(blank, s, ev).skips == s.skips
  {
  }

  // ---------- the store ----------

  class CaptureStore {
    const blank: BlankRule
    var staging: map<Key, Staged>
    var log: seq<Record>
    var skips: seq<string>

    function Contents(): State
      reads this
    {
      State(staging, log, skips)
    }

    constructor (blank: BlankRule)
      ensures this.blank == blank && Contents() == START
    {
      this.blank := blank;
      staging, log, skips := map[], [], [];
    }

    /** Go through the staged calls, in any order, and mark those on the same file. */
    method MarkOthers(file: string) returns (ambiguous: bool)
      modifies this`staging
      ensures staging == MarkFile(old(staging), file)
      ensures ambiguous <==> SharesFile(old(staging), file)
    {
      ambiguous := false;
      var left := staging.Keys;
      ghost var before := staging;
      while left != {}
        invariant left <= before.Keys == staging.Keys
        invariant forall k | k in before :: staging[k] ==
                    if k.file == file && k !in left then before[k].(ambiguous := true) else before[k]
        invariant ambiguous <==> exists k | k in before && k !in left :: k.file == file
        decreases |left|
      {
        var k :| k in left;
        if k.file == file {
          ambiguous := true;
          staging := staging[k := staging[k].(ambiguous := true)];
        }
        left := left - {k};
      }
      assert staging == MarkFile(before, file);
    }

    method PreTool(key: Key, tool: string, snap: Snapshot, now: int)
      modifies this
      ensures Contents() == old(HandlePre(Contents(), key, tool, snap, now))
    {
      if key.id != "" && key in staging {
        return;
      }
      if key in staging {
        staging := staging[key := staging[key].(ambiguous := true)];
        return;
      }
      if snap.Skip? {
        return;
      }
      var ambiguous := MarkOthers(key.file);
      staging := staging[key := Staged(tool, snap.Stored(), now, ambiguous)];
    }

    /** The newest record of a file, searched from the end of the log. */
    method LastRecordFor(file: string) returns (last: Option<Record>)
      ensures last == LastFor(log, file)
    {
      var i := |log|;
      assert log[..i] == log;
      while i > 0
        invariant 0 <= i <= |log| && LastFor(log, file) == LastFor(log[..i], file)
      {
        assert log[..i][..i - 1] == log[..i - 1];
        if log[i - 1].file == file {
          return Some(log[i - 1]);
        }
        i := i - 1;
      }
      return None;
    }

    method PostTool(key: Key, snap: Snapshot, now: int)
      modifies this
      ensures Contents() == old(HandlePost(blank, Contents(), key, snap, now))
    {
      if key !in staging {
        skips := skips + [key.file];
        return;
      }
      var staged := staging[key];
      if snap.Skip? {
        skips := skips + [key.file];
        staging := staging - {key};
        return;
      }
      var after := snap.Stored();
      if staged.before == after {
        staging := staging - {key};
        return;
      }
      if BlankOnly(blank, staged.before, after) {
        staging := staging - {key};
        return;
      }
      var last := LastRecordFor(key.file);
      if last.Some? && !last.value.undone && last.value.after == after && last.value.ts >= staged.ts {
        staging := staging - {key};
        return;
      }
      log := log + [Record(key.file, key.id, staged.tool, staged.before, after,
                           if staged.ambiguous then Ambiguous else Correlated, staged.ts, now, false)];
      staging := staging - {key};
    }

    method Handle(ev: Event)
      modifies this
      ensures Contents() == old(Apply(blank, Contents(), ev))
    {
      match ev
      case Pre(key, tool, snap, now) => PreTool(key, tool, snap, now);
      case Post(key, snap, now) => PostTool(key, snap, now);
      case Failure(key) => staging := staging - {key};
      case TurnEnd => staging := map[];
      case Foreign(record) => log := log + [record];
    }

    /** Any run of hooks, one at a time. */
    method Run(events: seq<Event>)
      requires Contents() == START
      modifies this
      ensures Contents() == After(blank, events)
      ensures OverlapsMarked(staging)
    {
      var i := 0;
      while i < |events|
        invariant 0 <= i <= |events| && Contents() == After(blank, events[..i])
      {
        assert events[..i + 1][..i] == events[..i];
        Handle(events[i]);
        i := i + 1;
      }
      assert events[..|events|] == events;
      OverlapsAreMarked(blank, events);
    }
  }
}
