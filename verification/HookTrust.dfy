/**
 Several processes repairing the trust of one hook at once: a lock file, then read, compare, re-check and
 rename on a shared configuration.

 Every access to a shared file is one step, and a run is any interleaving of the steps of any number of
 processes, with crashes, with edits by programs that obey no lock, and with waiters that take a lock
 for stale.  A step that is not enabled does nothing, so every list of steps is a run.
 */
module HookTrust {
  import opened Basics

  type Process = nat

  // ---------- the files ----------

  /** A trust table is named by the group and handler index of its hook. */
  datatype Table = Table(key: (nat, nat), hash: string)

  /** hooks.json, one entry per handler: the fingerprint of each handler that runs herdr's command. */
  type Hooks = seq<seq<Option<string>>>

  function GroupCandidates(g: nat, handlers: seq<Option<string>>, h: nat): seq<Table>
    requires h <= |handlers|
    decreases |handlers| - h
  {
    if h == |handlers| then []
    else (if handlers[h].Some? then [Table((g, h), handlers[h].value)] else []) + GroupCandidates(g, handlers, h + 1)
  }

  function CandidatesFrom(hooks: Hooks, g: nat): seq<Table>
    requires g <= |hooks|
    decreases |hooks| - g
  {
    if g == |hooks| then [] else GroupCandidates(g, hooks[g], 0) + CandidatesFrom(hooks, g + 1)
  }

  function Candidates(hooks: Option<Hooks>): seq<Table>
  {
    if hooks.None? then [] else CandidatesFrom(hooks.value, 0)
  }

  /** The handler at the table's place runs herdr's command, and the table holds its fingerprint. */
  predicate Names(hooks: Option<Hooks>, t: Table)
  {
    && hooks.Some? && t.key.0 < |hooks.value| && t.key.1 < |hooks.value[t.key.0]|
    && hooks.value[t.key.0][t.key.1] == Some(t.hash)
  }

  lemma {:induction false} GroupNames(g: nat, handlers: seq<Option<string>>, h: nat)
    requires h <= |handlers|
    ensures forall t :: t in GroupCandidates(g, handlers, h) <==>
              t.key.0 == g && h <= t.key.1 < |handlers| && handlers[t.key.1] == Some(t.hash)
    decreases |handlers| - h
  {
    if h < |handlers| {
      GroupNames(g, handlers, h + 1);
    }
  }

  lemma {:induction false} CandidatesNameFrom(hooks: Hooks, g: nat)
    requires g <= |hooks|
    ensures forall t :: t in CandidatesFrom(hooks, g) <==> g <= t.key.0 && Names(Some(hooks), t)
    decreases |hooks| - g
  {
    if g < |hooks| {
      GroupNames(g, hooks[g], 0);
      CandidatesNameFrom(hooks, g + 1);
    }
  }

  /** Every hook of herdr's, in whatever group and at whatever place, is a candidate with its own key and hash. */
  lemma CandidatesExactly(hooks: Option<Hooks>)
    ensures forall t :: t in Candidates(hooks) <==> Names(hooks, t)
    ensures Candidates(hooks) == [] <==> !exists t :: Names(hooks, t)
  {
    if hooks.Some? {
      CandidatesNameFrom(hooks.value, 0);
    }
    if Candidates(hooks) != [] {
      assert Names(hooks, Candidates(hooks)[0]);
    }
  }

  predicate DistinctKeys(ts: seq<Table>)
  {
    forall i, j | 0 <= i < j < |ts| :: ts[i].key != ts[j].key
  }

  lemma {:induction false} GroupDistinct(g: nat, handlers: seq<Option<string>>, h: nat)
    requires h <= |handlers|
    ensures DistinctKeys(GroupCandidates(g, handlers, h))
    ensures forall t | t in GroupCandidates(g, handlers, h) :: t.key.0 == g && t.key.1 >= h
    decreases |handlers| - h
  {
    if h < |handlers| {
      GroupDistinct(g, handlers, h + 1);
    }
  }

  lemma {:induction false} CandidatesDistinctFrom(hooks: Hooks, g: nat)
    requires g <= |hooks|
    ensures DistinctKeys(CandidatesFrom(hooks, g))
    ensures forall t | t in CandidatesFrom(hooks, g) :: t.key.0 >= g
    decreases |hooks| - g
  {
    if g < |hooks| {
      GroupDistinct(g, hooks[g], 0);
      CandidatesDistinctFrom(hooks, g + 1);
      var a, b := GroupCandidates(g, hooks[g], 0), CandidatesFrom(hooks, g + 1);
      assert forall i | 0 <= i < |a| :: a[i] in a;
      assert forall i | 0 <= i < |b| :: b[i] in b;
    }
  }

  /** config.toml: its trust tables, and everything else. */
  datatype Item = Other(text: string) | Defines(table: Table)

  type Config = seq<Item>

  function Tables(c: Config): seq<Table>
  {
    if c == [] then []
    else (if c[0].Defines? then [c[0].table] else []) + Tables(c[1..])
  }

  function Keys(c: Config): set<(nat, nat)>
  {
    set t | t in Tables(c) :: t.key
  }

  /** What a TOML parser accepts: no key is defined twice. */
  predicate Parses(c: Config)
  {
    DistinctKeys(Tables(c))
  }

  function Missing(candidates: seq<Table>, c: Config): seq<Table>
  {
    if candidates == [] then []
    else (if candidates[0].key in Keys(c) then [] else [candidates[0]]) + Missing(candidates[1..], c)
  }

  function AsItems(ts: seq<Table>): Config
  {
    seq(|ts|, i requires 0 <= i < |ts| => Defines(ts[i]))
  }

  /** The configuration with the missing tables appended after a line end; no existing byte changes. */
  function Repaired(c: Config, hooks: Option<Hooks>): Config
  {
    c + [Other("\n")] + AsItems(Missing(Candidates(hooks), c))
  }

  lemma {:induction false} TablesAppend(a: Config, b: Config)
    ensures Tables(a + b) == Tables(a) + Tables(b)
    decreases |a|
  {
    if a == [] {
      assert a + b == b;
    } else {
      TablesAppend(a[1..], b);
      assert (a + b)[1..] == a[1..] + b;
    }
  }

  lemma {:induction false} TablesOfItems(ts: seq<Table>)
    ensures Tables(AsItems(ts)) == ts
    decreases |ts|
  {
    if ts != [] {
      TablesOfItems(ts[1..]);
      assert AsItems(ts)[1..] == AsItems(ts[1..]);
    }
  }

  lemma {:induction false} MissingMembers(candidates: seq<Table>, c: Config)
    ensures forall t :: t in Missing(candidates, c) <==> t in candidates && t.key !in Keys(c)
    decreases |candidates|
  {
    if candidates != [] {
      MissingMembers(candidates[1..], c);
      assert candidates == [candidates[0]] + candidates[1..];
    }
  }

  lemma {:induction false} MissingDistinct(candidates: seq<Table>, c: Config)
    requires DistinctKeys(candidates)
    ensures DistinctKeys(Missing(candidates, c))
    decreases |candidates|
  {
    if candidates != [] {
      var rest := candidates[1..];
      MissingDistinct(rest, c);
      MissingMembers(rest, c);
      var m := Missing(rest, c);
      assert forall i | 0 <= i < |m| :: m[i] in m;
    }
  }

  lemma OtherDefinesNothing(c: Config, text: string)
    ensures Tables(c + [Other(text)]) == Tables(c)
  {
    TablesAppend(c, [Other(text)]);
    assert Tables([Other(text)]) == [];
  }

  lemma RepairedTables(c: Config, hooks: Option<Hooks>)
    ensures Tables(Repaired(c, hooks)) == Tables(c) + Missing(Candidates(hooks), c)
  {
    var m := Missing(Candidates(hooks), c);
    TablesAppend(c + [Other("\n")], AsItems(m));
    OtherDefinesNothing(c, "\n");
    TablesOfItems(m);
  }

  lemma DistinctAppend(a: seq<Table>, b: seq<Table>)
    requires DistinctKeys(a) && DistinctKeys(b) && forall t, u | t in a && u in b :: t.key != u.key
    ensures DistinctKeys(a + b)
  {
    var s := a + b;
    forall i, j | 0 <= i < j < |s| ensures s[i].key != s[j].key {
      if i < |a| <= j {
        assert s[i] in a && s[j] in b;
      }
    }
  }

  lemma {:induction false} NothingMissing(candidates: seq<Table>, c: Config)
    requires forall t | t in candidates :: t.key in Keys(c)
    ensures Missing(candidates, c) == []
    decreases |candidates|
  {
    if candidates != [] {
      NothingMissing(candidates[1..], c);
    }
  }

  lemma RepairParses(c: Config, hooks: Option<Hooks>)
    requires Parses(c)
    ensures c <= Repaired(c, hooks) && Parses(Repaired(c, hooks))
  {
    if hooks.Some? {
      CandidatesDistinctFrom(hooks.value, 0);
    }
    MissingMembers(Candidates(hooks), c);
    MissingDistinct(Candidates(hooks), c);
    RepairedTables(c, hooks);
    DistinctAppend(Tables(c), Missing(Candidates(hooks), c));
  }

  /** What a repair of `c` makes of its tables: it keeps them, and adds those of the hooks whose key they lack. */
  ghost predicate AddsMissing(c: Config, hooks: Option<Hooks>, text: Config)
  {
    && c <= text
    && (forall t :: t in Tables(text) <==> t in Tables(c) || (Names(hooks, t) && t.key !in Keys(c)))
    && (forall t | Names(hooks, t) :: t.key in Keys(text))
  }

  lemma CandidatesTrusted(c: Config, hooks: Option<Hooks>)
    ensures forall t | t in Candidates(hooks) :: t.key in Keys(Repaired(c, hooks))
    ensures Missing(Candidates(hooks), Repaired(c, hooks)) == []
  {
    MissingMembers(Candidates(hooks), c);
    RepairedTables(c, hooks);
    var a, m := Tables(c), Missing(Candidates(hooks), c);
    forall t | t in Candidates(hooks) ensures t.key in Keys(Repaired(c, hooks)) {
      if t.key in Keys(c) {
        var u :| u in a && u.key == t.key;
        assert u in a + m;
      } else {
        assert t in a + m;
      }
    }
    NothingMissing(Candidates(hooks), Repaired(c, hooks));
  }

  /**
   A repair keeps the configuration's text, defines nothing twice, and adds exactly the entries of the hooks
   whose keys the text lacked; then none is missing.
   */
  lemma RepairAddsWhatIsMissing(c: Config, hooks: Option<Hooks>)
    requires Parses(c)
    ensures c <= Repaired(c, hooks) && Parses(Repaired(c, hooks))
    ensures AddsMissing(c, hooks, Repaired(c, hooks))
    ensures Missing(Candidates(hooks), Repaired(c, hooks)) == []
  {
    RepairParses(c, hooks);
    CandidatesTrusted(c, hooks);
    CandidatesExactly(hooks);
    MissingMembers(Candidates(hooks), c);
    RepairedTables(c, hooks);
  }

  // ---------- the steps ----------

  /** Where a process is, with what it has read.  `Leaving` runs the `finally` that removes the lock. */
  datatype Phase =
    | Idle
    | Waiting
    | Reclaiming
    | Locked
    | HasHooks(hooks: Option<Hooks>)
    | HasConfig(hooks: Option<Hooks>, original: Option<Config>)
    | Prepared(hooks: Option<Hooks>, original: Option<Config>)
    | ConfigSame(hooks: Option<Hooks>, original: Option<Config>)
    | Checked(hooks: Option<Hooks>, original: Option<Config>)
    | Leaving
    | Done
    | Failed
    | Dead

  datatype Act =
    | Begin         // the unlocked first look: nothing to trust ends the call
    | Acquire       // open the lock file exclusively
    | FindStale     // the lock's age is over the limit
    | RemoveStale   // unlink the lock file, whatever it is by now
    | GiveUp        // the deadline passed
    | ReadHooks
    | ReadConfig
    | Prepare       // compute and validate the new text
    | RecheckConfig
    | RecheckHooks
    | Publish       // rename the new text over the configuration
    | Release       // unlink the lock file, whatever it is by now
    | Crash
    | EditConfig(config: Option<Config>)   // someone else's write, under no lock
    | EditHooks(hooks: Option<Hooks>)

  /** A rename: the text the process had read, the hooks it had read, and the text it published. */
  datatype Publication = Publication(process: Process, read: Config, hooks: Option<Hooks>, text: Config)

  datatype State = State(lock: Option<Process>, config: Option<Config>, hooks: Option<Hooks>,
                         phases: map<Process, Phase>, published: seq<Publication>)
  {
    function At(p: Process): Phase
    {
      if p in phases then phases[p] else Idle
    }

    function To(p: Process, phase: Phase): State
    {
      this.(phases := phases[p := phase])
    }
  }

  function TextOf(c: Option<Config>): Config
  {
    if c.None? then [] else c.value
  }

  function Next(s: State, p: Process, act: Act): State
  {
    match act
    case Begin =>
      if !s.At(p).Idle? then s else if Candidates(s.hooks) == [] then s.To(p, Done) else s.To(p, Waiting)
    case Acquire => if s.At(p).Waiting? && s.lock.None? then s.To(p, Locked).(lock := Some(p)) else s
    case FindStale => if s.At(p).Waiting? && s.lock.Some? then s.To(p, Reclaiming) else s
    case RemoveStale => if s.At(p).Reclaiming? then s.To(p, Waiting).(lock := None) else s
    case GiveUp => if s.At(p).Waiting? then s.To(p, Failed) else s
    case ReadHooks =>
      if !s.At(p).Locked? then s
      else if Candidates(s.hooks) == [] then s.To(p, Leaving) else s.To(p, HasHooks(s.hooks))
    case ReadConfig => if s.At(p).HasHooks? then s.To(p, HasConfig(s.At(p).hooks, s.config)) else s
    case Prepare =>
      if !s.At(p).HasConfig? then s
      else
        var hooks, original := s.At(p).hooks, s.At(p).original;
        var text := TextOf(original);
        if !Parses(text) || Missing(Candidates(hooks), text) == [] || !Parses(Repaired(text, hooks)) then s.To(p, Leaving)
        else s.To(p, Prepared(hooks, original))
    case RecheckConfig =>
      if !s.At(p).Prepared? then s
      else if s.config != s.At(p).original then s.To(p, Leaving)
      else s.To(p, ConfigSame(s.At(p).hooks, s.At(p).original))
    case RecheckHooks =>
      if !s.At(p).ConfigSame? then s
      else if s.hooks != s.At(p).hooks then s.To(p, Leaving)
      else s.To(p, Checked(s.At(p).hooks, s.At(p).original))
    case Publish =>
      if !s.At(p).Checked? then s
      else
        var read, hooks := TextOf(s.At(p).original), s.At(p).hooks;
        var text := Repaired(read, hooks);
        s.To(p, Leaving).(config := Some(text), published := s.published + [Publication(p, read, hooks, text)])
    case Release => if s.At(p).Leaving? then s.To(p, Done).(lock := None) else s
    case Crash => s.To(p, Dead)
    case EditConfig(c) => s.(config := c)
    case EditHooks(h) => s.(hooks := h)
  }

  type Run = seq<(Process, Act)>

  function After(s: State, run: Run): State
  {
    if run == [] then s
    else
      var (p, act) := run[|run| - 1];
      Next(After(s, run[..|run| - 1]), p, act)
  }

  ghost predicate Initial(s: State)
  {
    s.lock.None? && s.phases == map[] && s.published == []
  }

  // ---------- every publication, in every run ----------

  /** A publication is the text read, kept whole, with exactly the entries it lacked added; nothing is defined twice. */
  ghost predicate Sound(pub: Publication)
  {
    && pub.text == Repaired(pub.read, pub.hooks)
    && Parses(pub.read) && Parses(pub.text)
    && AddsMissing(pub.read, pub.hooks, pub.text)
  }

  /** Past its validation a process holds a text that parses. */
  ghost predicate Validated(s: State)
  {
    forall p: Process | s.At(p).Prepared? || s.At(p).ConfigSame? || s.At(p).Checked? :: Parses(TextOf(s.At(p).original))
  }

  lemma SoundPublication(p: Process, read: Config, hooks: Option<Hooks>)
    requires Parses(read)
    ensures Sound(Publication(p, read, hooks, Repaired(read, hooks)))
  {
    RepairAddsWhatIsMissing(read, hooks);
  }

  /** A step moves only the process that takes it. */
  lemma OthersStay(s: State, p: Process, act: Act, q: Process)
    ensures q != p ==> Next(s, p, act).At(q) == s.At(q)
  {
  }

  lemma StepStaysValidated(s: State, p: Process, act: Act)
    requires Validated(s)
    ensures Validated(Next(s, p, act))
  {
    var next := Next(s, p, act);
    forall q: Process | next.At(q).Prepared? || next.At(q).ConfigSame? || next.At(q).Checked?
      ensures Parses(TextOf(next.At(q).original))
    {
      if q != p {
        OthersStay(s, p, act, q);
      } else {
        var was := s.At(p);
        assert was.Prepared? || was.ConfigSame? || was.Checked? ==> Parses(TextOf(was.original));
      }
    }
  }

  lemma StepPublishesSoundly(s: State, p: Process, act: Act)
    requires Validated(s) && forall pub | pub in s.published :: Sound(pub)
    ensures forall pub | pub in Next(s, p, act).published :: Sound(pub)
  {
    if act.Publish? && s.At(p).Checked? {
      SoundPublication(p, TextOf(s.At(p).original), s.At(p).hooks);
    }
  }

  /** Any processes, any interleaving, crashes, edits and reclaimed locks included. */
  lemma {:induction false} EveryPublicationIsSound(s: State, run: Run)
    requires Initial(s)
    ensures Validated(After(s, run)) && forall pub | pub in After(s, run).published :: Sound(pub)
    decreases |run|
  {
    if run != [] {
      var init := run[..|run| - 1];
      var (p, act) := run[|run| - 1];
      EveryPublicationIsSound(s, init);
      StepStaysValidated(After(s, init), p, act);
      StepPublishesSoundly(After(s, init), p, act);
    }
  }

  lemma StepKeepsParsing(s: State, p: Process, act: Act)
    requires Validated(s) && Parses(TextOf(s.config))
    requires act.EditConfig? ==> Parses(TextOf(act.config))
    ensures Parses(TextOf(Next(s, p, act).config))
  {
    if act.Publish? && s.At(p).Checked? {
      RepairParses(TextOf(s.At(p).original), s.At(p).hooks);
    }
  }

  ghost predicate EditsParse(run: Run)
  {
    forall i | 0 <= i < |run| && run[i].1.EditConfig? :: Parses(TextOf(run[i].1.config))
  }

  /** So if everyone else's writes parse, the configuration always does: no key is ever defined twice. */
  lemma {:induction false} NeverDefinedTwice(s: State, run: Run)
    requires Initial(s) && Parses(TextOf(s.config)) && EditsParse(run)
    ensures Parses(TextOf(After(s, run).config))
    decreases |run|
  {
    if run != [] {
      var init := run[..|run| - 1];
      NeverDefinedTwice(s, init);
      EveryPublicationIsSound(s, init);
      StepKeepsParsing(After(s, init), run[|run| - 1].0, run[|run| - 1].1);
    }
  }

  // ---------- a repair that no one disturbs ----------

  /** What one process does by itself, step after step. */
  function Alone(s: State, p: Process, acts: seq<Act>): State
    decreases |acts|
  {
    if acts == [] then s else Next(Alone(s, p, acts[..|acts| - 1]), p, acts[|acts| - 1])
  }

  const LOOK: seq<Act> := [Begin, Acquire, ReadHooks, ReadConfig]

  /** The steps of one repair, from its first look to the removal of its lock. */
  const REPAIR: seq<Act> := LOOK + [Prepare, RecheckConfig, RecheckHooks, Publish, Release]

  lemma OneStep(s: State, p: Process, acts: seq<Act>, act: Act)
    ensures Alone(s, p, acts + [act]) == Next(Alone(s, p, acts), p, act)
  {
    assert (acts + [act])[..|acts|] == acts;
  }

  /** Some entry of the hooks has no table in the text. */
  ghost predicate Lacks(text: Config, hooks: Option<Hooks>)
  {
    exists t :: Names(hooks, t) && t.key !in Keys(text)
  }

  lemma LacksMissing(text: Config, hooks: Option<Hooks>)
    ensures Lacks(text, hooks) <==> Missing(Candidates(hooks), text) != []
  {
    CandidatesExactly(hooks);
    MissingMembers(Candidates(hooks), text);
    var m := Missing(Candidates(hooks), text);
    if m != [] {
      assert m[0] in m;
    }
  }

  lemma AfterLook(s: State, p: Process)
    requires s.At(p).Idle? && s.lock.None?
    ensures var next := Alone(s, p, LOOK);
            && (next.config, next.hooks) == (s.config, s.hooks)
            && (if Candidates(s.hooks) == [] then next.At(p).Done? && next.lock.None?
                else next.At(p) == HasConfig(s.hooks, s.config) && next.lock == Some(p))
  {
    OneStep(s, p, [], Begin);
    OneStep(s, p, [Begin], Acquire);
    OneStep(s, p, [Begin, Acquire], ReadHooks);
    OneStep(s, p, [Begin, Acquire, ReadHooks], ReadConfig);
    assert [] + [Begin] == [Begin] && [Begin] + [Acquire] == [Begin, Acquire];
    assert [Begin, Acquire] + [ReadHooks] == [Begin, Acquire, ReadHooks] && [Begin, Acquire, ReadHooks] + [ReadConfig] == LOOK;
  }

  /** The rest of the steps, from the state after the first four. */
  lemma AfterRest(s: State, now: State, p: Process, rest: seq<Act>)
    requires now == Alone(s, p, LOOK) && rest == [Prepare, RecheckConfig, RecheckHooks, Publish, Release]
    ensures Alone(s, p, LOOK + rest) ==
            Next(Next(Next(Next(Next(now, p, Prepare), p, RecheckConfig), p, RecheckHooks), p, Publish), p, Release)
  {
    OneStep(s, p, LOOK, Prepare);
    OneStep(s, p, LOOK + [Prepare], RecheckConfig);
    OneStep(s, p, LOOK + [Prepare] + [RecheckConfig], RecheckHooks);
    OneStep(s, p, LOOK + [Prepare] + [RecheckConfig] + [RecheckHooks], Publish);
    OneStep(s, p, LOOK + [Prepare] + [RecheckConfig] + [RecheckHooks] + [Publish], Release);
    assert LOOK + rest == LOOK + [Prepare] + [RecheckConfig] + [RecheckHooks] + [Publish] + [Release];
  }

  lemma PreparedOrLeft(s: State, p: Process)
    requires s.At(p) == HasConfig(s.hooks, s.config)
    ensures var next, text := Next(Next(Next(s, p, Prepare), p, RecheckConfig), p, RecheckHooks), TextOf(s.config);
            && (next.config, next.hooks, next.lock) == (s.config, s.hooks, s.lock)
            && next.At(p) == if Parses(text) && Missing(Candidates(s.hooks), text) != [] then Checked(s.hooks, s.config) else Leaving
  {
    if Parses(TextOf(s.config)) {
      RepairParses(TextOf(s.config), s.hooks);
    }
  }

  lemma UndisturbedSteps(s: State, p: Process)
    requires s.At(p).Idle? && s.lock.None?
    ensures var next, text := Alone(s, p, REPAIR), TextOf(s.config);
            && next.At(p).Done? && next.lock.None? && next.hooks == s.hooks
            && next.config == (if Parses(text) && Missing(Candidates(s.hooks), text) != [] then Some(Repaired(text, s.hooks)) else s.config)
  {
    var now, rest := Alone(s, p, LOOK), REPAIR[|LOOK|..];
    AfterLook(s, p);
    assert REPAIR == LOOK + rest;
    AfterRest(s, now, p, rest);
    if now.At(p).HasConfig? {
      PreparedOrLeft(now, p);
    }
  }

  /**
   A repair that no one disturbs ends with its lock removed, and trusts every hook of herdr's that had no table,
   wherever the hooks name it; when there is none, or the configuration does not parse, it changes nothing.
   */
  lemma UndisturbedRepair(s: State, p: Process)
    requires s.At(p).Idle? && s.lock.None?
    ensures var next, text := Alone(s, p, REPAIR), TextOf(s.config);
            && next.At(p).Done? && next.lock.None? && next.hooks == s.hooks
            && (if Parses(text) && Lacks(text, s.hooks)
                then next.config.Some? && AddsMissing(text, s.hooks, next.config.value) && Parses(next.config.value)
                else next.config == s.config)
  {
    UndisturbedSteps(s, p);
    LacksMissing(TextOf(s.config), s.hooks);
    if Parses(TextOf(s.config)) {
      RepairAddsWhatIsMissing(TextOf(s.config), s.hooks);
    }
  }

  // ---------- exclusion ----------

  /** Inside the section that the lock protects. */
  predicate Inside(phase: Phase)
  {
    !(phase.Idle? || phase.Waiting? || phase.Reclaiming? || phase.Done? || phase.Failed? || phase.Dead?)
  }

  /** The step unlinks the lock of a process that is still inside. */
  predicate ReclaimsLive(s: State, p: Process, act: Act)
  {
    act.RemoveStale? && s.At(p).Reclaiming? && s.lock.Some? && Inside(s.At(s.lock.value))
  }

  /** No lock of a live process is ever reclaimed. */
  ghost predicate SparesLive(s: State, run: Run)
  {
    run == [] ||
    var init := run[..|run| - 1];
      var (p, act) := run[|run| - 1];
    SparesLive(s, init) && !ReclaimsLive(After(s, init), p, act)
  }

  /** Whoever is inside holds the lock; so there is at most one. */
  ghost predicate Exclusive(s: State)
  {
    forall p: Process | Inside(s.At(p)) :: s.lock == Some(p)
  }

  function ReadConfigOf(phase: Phase): Option<Option<Config>>
  {
    match phase
    case HasConfig(_, original) => Some(original)
    case Prepared(_, original) => Some(original)
    case ConfigSame(_, original) => Some(original)
    case Checked(_, original) => Some(original)
    case _ => None
  }

  lemma StepKeepsExclusive(s: State, p: Process, act: Act)
    requires Exclusive(s) && !ReclaimsLive(s, p, act)
    ensures Exclusive(Next(s, p, act))
  {
  }

  /** As long as no live lock is reclaimed, the section is mutually exclusive. */
  lemma {:induction false} MutualExclusion(s: State, run: Run)
    requires Initial(s) && SparesLive(s, run)
    ensures Exclusive(After(s, run))
    ensures forall p: Process, q: Process | Inside(After(s, run).At(p)) && Inside(After(s, run).At(q)) :: p == q
    decreases |run|
  {
    if run != [] {
      var init := run[..|run| - 1];
      var (p, act) := run[|run| - 1];
      MutualExclusion(s, init);
      StepKeepsExclusive(After(s, init), p, act);
    }
  }

  // ---------- what is published stays, whoever else writes ----------

  /** What one text keeps of another; a repair of the one keeps it too. */
  type Keeping = (Config, Config) -> bool

  ghost predicate RepairsKeep(keeps: Keeping)
  {
    && (forall a :: keeps(a, a))
    && (forall a, b, hooks :: keeps(a, b) ==> keeps(a, Repaired(b, hooks)))
  }

  /** Everything published so far is kept by this text. */
  ghost predicate KeepsAll(keeps: Keeping, s: State, text: Config)
  {
    forall pub | pub in s.published :: keeps(pub.text, text)
  }

  /** Whoever else writes the configuration keeps what was published by then, and may change all the rest. */
  ghost predicate EditsKeep(keeps: Keeping, s: State, run: Run)
  {
    run == [] ||
    var init := run[..|run| - 1];
    var act := run[|run| - 1].1;
    EditsKeep(keeps, s, init) && (act.EditConfig? ==> KeepsAll(keeps, After(s, init), TextOf(act.config)))
  }

  /** The configuration keeps it, and so does the text any process inside goes on with. */
  ghost predicate Kept(keeps: Keeping, s: State)
  {
    && KeepsAll(keeps, s, TextOf(s.config))
    && forall p: Process | ReadConfigOf(s.At(p)).Some? :: KeepsAll(keeps, s, TextOf(ReadConfigOf(s.At(p)).value))
  }

  lemma PublishKeeps(keeps: Keeping, s: State, p: Process)
    requires RepairsKeep(keeps) && Exclusive(s) && Kept(keeps, s) && s.At(p).Checked?
    ensures Kept(keeps, Next(s, p, Publish))
  {
    var next := Next(s, p, Publish);
    assert ReadConfigOf(s.At(p)).Some?;
    forall q: Process ensures ReadConfigOf(next.At(q)).None? {
      if q != p {
        OthersStay(s, p, Publish, q);
        assert Inside(s.At(p)) && (Inside(s.At(q)) ==> s.lock == Some(q));
      }
    }
  }

  lemma StepKeepsKept(keeps: Keeping, s: State, p: Process, act: Act)
    requires RepairsKeep(keeps) && Exclusive(s) && Kept(keeps, s)
    requires act.EditConfig? ==> KeepsAll(keeps, s, TextOf(act.config))
    ensures Kept(keeps, Next(s, p, act))
  {
    if act.Publish? && s.At(p).Checked? {
      PublishKeeps(keeps, s, p);
    } else {
      var next := Next(s, p, act);
      assert next.published == s.published;
      forall q: Process | ReadConfigOf(next.At(q)).Some? ensures KeepsAll(keeps, next, TextOf(ReadConfigOf(next.At(q)).value)) {
        OthersStay(s, p, act, q);
        assert ReadConfigOf(s.At(q)) == ReadConfigOf(next.At(q)) || ReadConfigOf(next.At(q)).value == s.config;
      }
    }
  }

  /** With no live lock reclaimed, what one repair published, every later one keeps. */
  lemma {:induction false} RunsKeep(keeps: Keeping, s: State, run: Run)
    requires RepairsKeep(keeps) && Initial(s) && SparesLive(s, run) && EditsKeep(keeps, s, run)
    ensures Kept(keeps, After(s, run))
    decreases |run|
  {
    if run != [] {
      var init := run[..|run| - 1];
      var (p, act) := run[|run| - 1];
      RunsKeep(keeps, s, init);
      MutualExclusion(s, init);
      StepKeepsKept(keeps, After(s, init), p, act);
    }
  }

  /** The one does not drop this table of the other. */
  function KeepsTable(t: Table): Keeping
  {
    (a: Config, b: Config) => t in Tables(a) ==> t in Tables(b)
  }

  /** The one stands at the front of the other. */
  function IsFront(): Keeping
  {
    (a: Config, b: Config) => a <= b
  }

  /**
   No live lock reclaimed, and everyone else free to write anything at any moment: an entry that a repair
   has published is lost only where someone else then writes a configuration without it.
   */
  lemma NothingPublishedIsLost(s: State, run: Run, t: Table)
    requires Initial(s) && SparesLive(s, run) && EditsKeep(KeepsTable(t), s, run)
    ensures (exists pub | pub in After(s, run).published :: t in Tables(pub.text)) ==> t in Tables(TextOf(After(s, run).config))
  {
    forall a, b, hooks | KeepsTable(t)(a, b) ensures KeepsTable(t)(a, Repaired(b, hooks)) {
      RepairedTables(b, hooks);
    }
    RunsKeep(KeepsTable(t), s, run);
    assert KeepsAll(KeepsTable(t), After(s, run), TextOf(After(s, run).config));
  }

  /** And if they keep the published texts at the front, every one of them stays there, byte for byte. */
  lemma PublicationsStay(s: State, run: Run)
    requires Initial(s) && SparesLive(s, run) && EditsKeep(IsFront(), s, run)
    ensures forall pub | pub in After(s, run).published :: pub.text <= TextOf(After(s, run).config)
  {
    RunsKeep(IsFront(), s, run);
    assert KeepsAll(IsFront(), After(s, run), TextOf(After(s, run).config));
  }

  // ---------- what a rename overwrites ----------

  /**
   A rename drops a table of the configuration it replaces exactly when the text the process had read lacks
   that table and the repair does not add it.
   */
  lemma PublishDropsExactly(s: State, p: Process, t: Table)
    requires s.At(p).Checked? && t in Tables(TextOf(s.config))
    ensures t !in Tables(TextOf(Next(s, p, Publish).config)) <==>
              var read := TextOf(s.At(p).original);
              t !in Tables(read) && (t !in Candidates(s.At(p).hooks) || t.key in Keys(read))
  {
    var read := TextOf(s.At(p).original);
    RepairedTables(read, s.At(p).hooks);
    MissingMembers(Candidates(s.At(p).hooks), read);
  }

  /** Between its re-check of the configuration and its rename. */
  predicate InWindow(phase: Phase)
  {
    phase.ConfigSame? || phase.Checked?
  }

  /** No one else writes the configuration while a process is in its window. */
  ghost predicate EditsMissWindows(s: State, run: Run)
  {
    run == [] ||
    var init := run[..|run| - 1];
    var act := run[|run| - 1].1;
    EditsMissWindows(s, init) && (act.EditConfig? ==> forall p: Process :: !InWindow(After(s, init).At(p)))
  }

  /** What a process in its window had read is still the configuration. */
  ghost predicate Current(s: State)
  {
    forall p: Process | InWindow(s.At(p)) :: s.At(p).original == s.config
  }

  lemma StepKeepsCurrent(s: State, p: Process, act: Act)
    requires Exclusive(s) && Current(s) && (act.EditConfig? ==> forall q: Process :: !InWindow(s.At(q)))
    ensures Current(Next(s, p, act))
  {
    var next := Next(s, p, act);
    forall q: Process | InWindow(next.At(q)) ensures next.At(q).original == next.config {
      OthersStay(s, p, act, q);
      assert Inside(s.At(q)) && Inside(s.At(p)) ==> p == q;
      assert q == p || InWindow(s.At(q));
    }
  }

  /**
   The re-check refuses every foreign write but one in the window: without those, and with no live lock
   reclaimed, a rename only appends to the configuration it replaces.
   */
  lemma {:induction false} RepairsOnlyAppend(s: State, run: Run)
    requires Initial(s) && SparesLive(s, run) && EditsMissWindows(s, run)
    ensures Current(After(s, run))
    ensures forall p: Process :: TextOf(After(s, run).config) <= TextOf(Next(After(s, run), p, Publish).config)
    decreases |run|
  {
    if run != [] {
      var init := run[..|run| - 1];
      var (p, act) := run[|run| - 1];
      RepairsOnlyAppend(s, init);
      MutualExclusion(s, init);
      StepKeepsCurrent(After(s, init), p, act);
    }
  }

  /** Whoever else writes the configuration only adds to its end. */
  ghost predicate EditsAppend(s: State, run: Run)
  {
    run == [] ||
    var init := run[..|run| - 1];
    var act := run[|run| - 1].1;
    EditsAppend(s, init) && (act.EditConfig? ==> TextOf(After(s, init).config) <= TextOf(act.config))
  }

  lemma StepAppends(s: State, p: Process, act: Act)
    requires TextOf(s.config) <= TextOf(Next(s, p, Publish).config)
    requires act.EditConfig? ==> TextOf(s.config) <= TextOf(act.config)
    ensures TextOf(s.config) <= TextOf(Next(s, p, act).config)
  {
  }

  /** Then the configuration only grows, at its end, from every step of the run to every later one. */
  lemma {:induction false} ConfigOnlyGrows(s: State, run: Run, n: nat)
    requires Initial(s) && SparesLive(s, run) && EditsMissWindows(s, run) && EditsAppend(s, run) && n <= |run|
    ensures TextOf(After(s, run[..n]).config) <= TextOf(After(s, run).config)
    decreases |run|
  {
    if n == |run| {
      assert run[..n] == run;
    } else {
      var init := run[..|run| - 1];
      var (p, act) := run[|run| - 1];
      assert init[..n] == run[..n];
      ConfigOnlyGrows(s, init, n);
      RepairsOnlyAppend(s, init);
      StepAppends(After(s, init), p, act);
    }
  }

  // ---------- when live locks are reclaimed ----------

  predicate Untouched(run: Run)
  {
    forall i | 0 <= i < |run| :: !run[i].1.EditConfig? && !run[i].1.EditHooks?
  }

  /** What a process can have read when nothing is edited: one of two texts; it repairs only the first. */
  ghost predicate ReadsOneOf(phase: Phase, first: Option<Config>, hooks: Option<Hooks>)
  {
    && (phase.HasHooks? || ReadConfigOf(phase).Some? ==> phase.hooks == hooks)
    && (ReadConfigOf(phase).Some? ==>
          phase.original == first || (phase.HasConfig? && phase.original == Some(Repaired(TextOf(first), hooks))))
  }

  ghost predicate TwoTexts(s: State, first: Option<Config>, hooks: Option<Hooks>)
  {
    && s.hooks == hooks
    && (s.published != [] ==> s.config == Some(Repaired(TextOf(first), hooks)))
    && (forall pub | pub in s.published :: pub.text == Repaired(TextOf(first), hooks))
    && (s.published == [] ==> s.config == first)
    && forall p: Process :: ReadsOneOf(s.At(p), first, hooks)
  }

  lemma PhaseReadsOneOf(s: State, p: Process, act: Act, first: Option<Config>, hooks: Option<Hooks>)
    requires TwoTexts(s, first, hooks) && ReadsOneOf(s.At(p), first, hooks) && !act.EditConfig? && !act.EditHooks?
    requires Missing(Candidates(hooks), Repaired(TextOf(first), hooks)) == []
    ensures ReadsOneOf(Next(s, p, act).At(p), first, hooks)
  {
  }

  lemma StepKeepsFiles(s: State, p: Process, act: Act, first: Option<Config>, hooks: Option<Hooks>)
    requires TwoTexts(s, first, hooks) && ReadsOneOf(s.At(p), first, hooks) && !act.EditConfig? && !act.EditHooks?
    ensures var next := Next(s, p, act);
            && next.hooks == hooks
            && (next.published == [] ==> next.config == first)
            && (next.published != [] ==> next.config == Some(Repaired(TextOf(first), hooks)))
            && (forall pub | pub in next.published :: pub.text == Repaired(TextOf(first), hooks))
  {
  }

  lemma StepKeepsTwoTexts(s: State, p: Process, act: Act, first: Option<Config>, hooks: Option<Hooks>)
    requires TwoTexts(s, first, hooks) && !act.EditConfig? && !act.EditHooks? && Parses(TextOf(first))
    ensures TwoTexts(Next(s, p, act), first, hooks)
  {
    assert ReadsOneOf(s.At(p), first, hooks);
    StepKeepsFiles(s, p, act, first, hooks);
    forall q: Process ensures ReadsOneOf(Next(s, p, act).At(q), first, hooks) {
      if q != p {
        assert ReadsOneOf(s.At(q), first, hooks);
        OthersStay(s, p, act, q);
      } else {
        CandidatesTrusted(TextOf(first), hooks);
        PhaseReadsOneOf(s, p, act, first, hooks);
      }
    }
  }

  /**
   Reclaiming live locks loses nothing while neither file is edited by anyone else: once anything is
   published it is the one repair of the first text, and it stays, however many processes are inside at once.
   */
  lemma {:induction false} ReclaimAloneLosesNothing(s: State, run: Run)
    requires Initial(s) && Parses(TextOf(s.config)) && Untouched(run)
    ensures TwoTexts(After(s, run), s.config, s.hooks)
    ensures After(s, run).config == if After(s, run).published == [] then s.config else Some(Repaired(TextOf(s.config), s.hooks))
    ensures forall pub | pub in After(s, run).published :: After(s, run).config == Some(pub.text)
    decreases |run|
  {
    if run != [] {
      ReclaimAloneLosesNothing(s, run[..|run| - 1]);
      StepKeepsTwoTexts(After(s, run[..|run| - 1]), run[|run| - 1].0, run[|run| - 1].1, s.config, s.hooks);
    }
  }

  /** Every lock found stale belonged to a process that had died. */
  ghost predicate FindsOnlyDead(s: State, run: Run)
  {
    run == [] ||
    var init, (p, act) := run[..|run| - 1], run[|run| - 1];
    var was := After(s, init);
    FindsOnlyDead(s, init) && (act.FindStale? ==> was.lock.Some? && was.At(was.lock.value).Dead?)
  }

  /** One more step of a run; `now` is its last state. */
  lemma Extend(s: State, run: Run, now: State, p: Process, act: Act) returns (longer: Run, next: State)
    requires After(s, run) == now
    ensures longer == run + [(p, act)] && next == Next(now, p, act) && After(s, longer) == next
    ensures SparesLive(s, longer) <==> SparesLive(s, run) && !ReclaimsLive(now, p, act)
    ensures FindsOnlyDead(s, longer) <==>
            FindsOnlyDead(s, run) && (act.FindStale? ==> now.lock.Some? && now.At(now.lock.value).Dead?)
  {
    longer, next := run + [(p, act)], Next(now, p, act);
    assert longer[..|run|] == run;
  }

  lemma LeaveDeadLock(s: State) returns (run: Run, now: State)
    requires Initial(s) && Candidates(s.hooks) != []
    ensures After(s, run) == now && FindsOnlyDead(s, run) && now.hooks == s.hooks
    ensures now.lock == Some(1) && now.At(1).Dead? && now.At(2).Idle? && now.At(3).Idle?
  {
    run, now := Extend(s, [], s, 1, Begin);
    run, now := Extend(s, run, now, 1, Acquire);
    run, now := Extend(s, run, now, 1, Crash);
  }

  lemma FindTwice(s: State, run0: Run, now0: State) returns (run: Run, now: State)
    requires After(s, run0) == now0 && FindsOnlyDead(s, run0) && Candidates(now0.hooks) != []
    requires now0.lock == Some(1) && now0.At(1).Dead? && now0.At(2).Idle? && now0.At(3).Idle?
    ensures After(s, run) == now && FindsOnlyDead(s, run)
    ensures now.At(2).Reclaiming? && now.At(3).Reclaiming?
  {
    run, now := Extend(s, run0, now0, 2, Begin);
    run, now := Extend(s, run, now, 2, FindStale);
    run, now := Extend(s, run, now, 3, Begin);
    run, now := Extend(s, run, now, 3, FindStale);
  }

  /** A waiter that found a lock stale removes whatever lock there is by now, and takes it. */
  lemma ReclaimAndEnter(s: State, run0: Run, now0: State, p: Process) returns (run: Run, now: State)
    requires After(s, run0) == now0 && FindsOnlyDead(s, run0) && now0.At(p).Reclaiming?
    ensures After(s, run) == now && FindsOnlyDead(s, run)
    ensures now.lock == Some(p) && Inside(now.At(p)) && forall q | q != p :: now.At(q) == now0.At(q)
    ensures now0.lock.Some? && Inside(now0.At(now0.lock.value)) && now0.lock.value != p ==> !SparesLive(s, run)
  {
    run, now := Extend(s, run0, now0, p, RemoveStale);
    run, now := Extend(s, run, now, p, Acquire);
  }

  /**
   A dead process's lock, found stale by two waiters: the second removes the first one's live lock, and
   both are inside.  Finding only dead locks stale is not enough; the removal itself must spare the living.
   */
  lemma TwoWaitersReclaimOneDeadLock(s: State) returns (run: Run, now: State)
    requires Initial(s) && Candidates(s.hooks) != []
    ensures After(s, run) == now && FindsOnlyDead(s, run) && !SparesLive(s, run)
    ensures Inside(now.At(2)) && Inside(now.At(3))
  {
    run, now := LeaveDeadLock(s);
    run, now := FindTwice(s, run, now);
    run, now := ReclaimAndEnter(s, run, now, 2);
    run, now := ReclaimAndEnter(s, run, now, 3);
  }

  /** A waiter that meets no lock goes through its checks. */
  lemma GoThroughChecks(s: State, run0: Run, now0: State, p: Process) returns (run: Run, now: State)
    requires After(s, run0) == now0 && now0.At(p).Waiting? && now0.lock.None?
    requires Parses(TextOf(now0.config)) && Missing(Candidates(now0.hooks), TextOf(now0.config)) != []
    ensures After(s, run) == now && (SparesLive(s, run0) ==> SparesLive(s, run))
    ensures now == now0.To(p, Checked(now0.hooks, now0.config)).(lock := Some(p)) && |run| > |run0|
  {
    RepairParses(TextOf(now0.config), now0.hooks);
    run, now := Extend(s, run0, now0, p, Acquire);
    run, now := Extend(s, run, now, p, ReadHooks);
    run, now := Extend(s, run, now, p, ReadConfig);
    run, now := Extend(s, run, now, p, Prepare);
    run, now := Extend(s, run, now, p, RecheckConfig);
    run, now := Extend(s, run, now, p, RecheckHooks);
  }

  lemma ToTwice(s: State, p: Process, a: Phase, b: Phase)
    ensures s.To(p, a).To(p, b) == s.To(p, b)
  {
    assert s.phases[p := a][p := b] == s.phases[p := b];
  }

  lemma SlowProcess(s: State) returns (run: Run, now: State)
    requires Initial(s) && Parses(TextOf(s.config))
    requires Missing(Candidates(s.hooks), TextOf(s.config)) != []
    ensures After(s, run) == now && SparesLive(s, run) && run != []
    ensures now == s.To(1, Checked(s.hooks, s.config)).(lock := Some(1))
  {
    run, now := Extend(s, [], s, 1, Begin);
    ToTwice(s, 1, Waiting, Checked(s.hooks, s.config));
    assert now == s.To(1, Waiting);
    run, now := GoThroughChecks(s, run, now, 1);
  }

  /**
   In the window nothing is refused: with no live lock reclaimed, whatever someone else writes between a
   process's last re-check and its rename is overwritten whole.
   */
  lemma EditInTheWindowIsOverwritten(s: State, c: Option<Config>) returns (run: Run, now: State)
    requires Initial(s) && Parses(TextOf(s.config))
    requires Missing(Candidates(s.hooks), TextOf(s.config)) != []
    ensures After(s, run) == now && SparesLive(s, run)
    ensures |run| > 1 && After(s, run[..|run| - 1]).config == c && run[|run| - 1] == (1, Publish)
    ensures now.config == Some(Repaired(TextOf(s.config), s.hooks))
  {
    run, now := SlowProcess(s);
    run, now := Extend(s, run, now, 3, EditConfig(c));
    var edited := run;
    run, now := Extend(s, run, now, 1, Publish);
    assert run[..|run| - 1] == edited;
  }

  /** A waiter removes the lock it finds, whoever holds it. */
  lemma RemovesAnyLock(s: State, run0: Run, now0: State, p: Process) returns (run: Run, now: State)
    requires After(s, run0) == now0 && now0.At(p).Idle? && now0.lock.Some? && Candidates(now0.hooks) != []
    ensures After(s, run) == now
    ensures now == now0.To(p, Waiting).(lock := None)
  {
    run, now := Extend(s, run0, now0, p, Begin);
    run, now := Extend(s, run, now, p, FindStale);
    run, now := Extend(s, run, now, p, RemoveStale);
    ToTwice(now0, p, Waiting, Reclaiming);
    ToTwice(now0, p, Reclaiming, Waiting);
  }

  lemma EditBehindSlowProcess(s: State, hooks: Option<Hooks>) returns (run: Run, now: State)
    requires Initial(s) && Parses(TextOf(s.config))
    requires Missing(Candidates(s.hooks), TextOf(s.config)) != []
    ensures After(s, run) == now
    ensures (now.lock, now.config, now.hooks, now.published) == (Some(1), s.config, hooks, [])
    ensures now.At(1) == Checked(s.hooks, s.config) && now.At(2).Idle?
  {
    run, now := SlowProcess(s);
    run, now := Extend(s, run, now, 3, EditHooks(hooks));
  }

  /** A slow process, past its re-checks, whose lock a second one removes after the hooks were edited. */
  lemma OvertakeSlowProcess(s: State, hooks: Option<Hooks>) returns (run: Run, now: State)
    requires Initial(s) && Parses(TextOf(s.config))
    requires Missing(Candidates(s.hooks), TextOf(s.config)) != [] && Candidates(hooks) != []
    ensures After(s, run) == now
    ensures (now.lock, now.config, now.hooks, now.published) == (None, s.config, hooks, [])
    ensures now.At(1) == Checked(s.hooks, s.config) && now.At(2) == Waiting
  {
    run, now := EditBehindSlowProcess(s, hooks);
    run, now := RemovesAnyLock(s, run, now, 2);
  }

  /**
   With both, a live lock reclaimed and the hooks edited after the re-check, a published entry can be
   lost: any table the new hooks lack trust for, and the old ones do not name.
   */
  lemma ReclaimAndEditLoseAnEntry(s: State, hooks: Option<Hooks>, t: Table) returns (run: Run, now: State)
    requires Initial(s) && Parses(TextOf(s.config))
    requires Missing(Candidates(s.hooks), TextOf(s.config)) != []
    requires t in Missing(Candidates(hooks), TextOf(s.config))
    requires forall u | u in Candidates(s.hooks) :: u.key != t.key
    ensures After(s, run) == now
    ensures exists pub | pub in now.published :: t in Tables(pub.text)
    ensures t.key !in Keys(TextOf(now.config))
  {
    var c := TextOf(s.config);
    run, now := OvertakeSlowProcess(s, hooks);
    run, now := GoThroughChecks(s, run, now, 2);
    run, now := Extend(s, run, now, 2, Publish);
    var pub := Publication(2, c, hooks, Repaired(c, hooks));
    assert now.published == [pub];
    RepairedTables(c, hooks);
    assert t in Tables(pub.text);
    run, now := Extend(s, run, now, 1, Publish);
    assert pub in now.published;
    RepairedTables(c, s.hooks);
    MissingMembers(Candidates(hooks), c);
    MissingMembers(Candidates(s.hooks), c);
  }
}
