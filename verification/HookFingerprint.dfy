/**
 Codex's trust fingerprint of a command hook: which hooks are refused, how the others are normalized, and
 the canonical text that is hashed.

 - `Normalize` checks a hook in the order the code does and gives the first refusal, or the identity: the
   only things Codex's trust in the hook may depend on.
 - `FingerprintText` prints the identity as canonical JSON.
 - `FingerprintIsIdentity` says that this loses nothing and adds nothing, so two hooks are trusted alike
   exactly when they are the same hook to Codex.

 The hash itself is taken as injective, so it is not applied here.
 */
module HookFingerprint {
  import opened Basics
  import opened CanonicalJson

  /** A field of a parsed hooks file, of any type; an integer may be too large to be exact. */
  datatype Raw = Undefined | JsNull | Flag(flag: bool) | Integer(number: int) | Fraction | Chars(text: Text) | Object

  const MAX_SAFE: int := 0x1F_FFFF_FFFF_FFFF

  datatype Hook = Hook(kind: Raw, command: Raw, commandWindows: Raw, command_windows: Raw,
                       timeout: Raw, runsAsync: Raw, statusMessage: Raw, additionalContextLimit: Raw)
  datatype Group = Group(matcher: Raw, hooks: seq<Hook>)

  /** What a hook is, to Codex: the only things its trust may depend on. */
  datatype Identity = Identity(event: Text, command: Text, timeout: nat, runsAsync: bool,
                               statusMessage: Option<Text>, additionalContextLimit: Option<nat>, matcher: Option<Text>)

  datatype Refusal = UnsupportedEvent | NotACommand | EmptyCommand | BadAsync | BadStatus | BadMatcher | BadTimeout | BadLimit
  datatype Result<+T> = Ok(value: T) | Refused(why: Refusal)

  const EVENTS: seq<string> := [
    "pre_tool_use", "permission_request", "post_tool_use", "pre_compact", "post_compact", "session_start",
    "session_end", "user_prompt_submit", "subagent_start", "subagent_stop", "stop", "interrupt"]
  const CONTEXT_EVENTS: seq<string> := [
    "pre_tool_use", "post_tool_use", "session_start", "user_prompt_submit", "subagent_start"]
  const NO_MATCHER_EVENTS: seq<string> := ["user_prompt_submit", "stop", "interrupt"]

  predicate Names(list: seq<string>, event: Text)
  {
    exists i | 0 <= i < |list| :: Units(list[i]) == event
  }

  predicate IsLower(u: Unit) { 'a' as int <= u <= 'z' as int }

  predicate IsUpper(u: Unit) { 'A' as int <= u <= 'Z' as int }

  /** An underscore between a lower-case and an upper-case letter, then all in lower case. */
  function SnakeCase(name: Text): Text
    decreases |name|
  {
    if name == [] then []
    else
      var first := if IsUpper(name[0]) then name[0] + 32 else name[0];
      var gap := if |name| > 1 && IsLower(name[0]) && IsUpper(name[1]) then ['_' as int] else [];
      [first] + gap + SnakeCase(name[1..])
  }

  predicate IsWord(w: Text)
  {
    |w| >= 2 && forall i | 0 <= i < |w| :: IsLower(w[i])
  }

  type Word = w: Text | IsWord(w) witness ['a' as int, 'a' as int]

  /** The words run together, each with a capital, as `SessionStart` is written. */
  function Pascal(words: seq<Word>): Text
  {
    if words == [] then [] else [words[0][0] - 32] + words[0][1..] + Pascal(words[1..])
  }

  /** The words with underscores between, as `session_start` is. */
  function Snake(words: seq<Word>): Text
  {
    if words == [] then []
    else if |words| == 1 then words[0]
    else words[0] + ['_' as int] + Snake(words[1..])
  }

  lemma Regroup(a: Text, b: Text, c: Text)
    ensures a + b + c == a + (b + c)
  {
  }

  lemma FirstUnit(name: Text, lower: Unit, gap: Text)
    requires name != [] && lower == if IsUpper(name[0]) then name[0] + 32 else name[0]
    requires gap == if |name| > 1 && IsLower(name[0]) && IsUpper(name[1]) then ['_' as int] else []
    ensures SnakeCase(name) == [lower] + (gap + SnakeCase(name[1..]))
  {
    Regroup([lower], gap, SnakeCase(name[1..]));
  }

  lemma OneUnit(c: Unit, t: Text, lower: Unit, gap: Text)
    requires lower == if IsUpper(c) then c + 32 else c
    requires gap == if t != [] && IsLower(c) && IsUpper(t[0]) then ['_' as int] else []
    ensures SnakeCase([c] + t) == [lower] + (gap + SnakeCase(t))
  {
    var name := [c] + t;
    assert name[0] == c && name[1..] == t && (t != [] ==> name[1] == t[0]);
    FirstUnit(name, lower, gap);
  }

  lemma HeadAndTail(w: Text)
    requires w != []
    ensures w == [w[0]] + w[1..]
  {
  }

  /** What follows a word: nothing, or an underscore and the rest. */
  function AfterWord(rest: Text): Text
  {
    if rest == [] then [] else ['_' as int] + SnakeCase(rest)
  }

  lemma {:induction false} LowerPrefix(w: Text, rest: Text)
    requires w != [] && (forall i | 0 <= i < |w| :: IsLower(w[i])) && (rest != [] ==> IsUpper(rest[0]))
    ensures SnakeCase(w + rest) == w + AfterWord(rest)
    decreases |w|
  {
    var c, v := w[0], w[1..];
    HeadAndTail(w);
    Regroup([c], v, rest);
    if v == [] {
      assert v + rest == rest && w == [c];
      OneUnit(c, rest, c, if rest == [] then [] else ['_' as int]);
    } else {
      LowerPrefix(v, rest);
      assert (v + rest)[0] == v[0];
      OneUnit(c, v + rest, c, []);
      assert [] + SnakeCase(v + rest) == SnakeCase(v + rest);
      Regroup([c], v, AfterWord(rest));
    }
  }

  lemma CapitalWord(w: Word, rest: Text)
    requires rest != [] ==> IsUpper(rest[0])
    ensures SnakeCase([w[0] - 32] + w[1..] + rest) == w + AfterWord(rest)
  {
    var c, v := w[0], w[1..];
    Regroup([c - 32], v, rest);
    assert (v + rest)[0] == w[1];
    OneUnit(c - 32, v + rest, c, []);
    assert [] + SnakeCase(v + rest) == SnakeCase(v + rest);
    LowerPrefix(v, rest);
    HeadAndTail(w);
    Regroup([c], v, AfterWord(rest));
  }

  /** Either spelling of an event's name comes to the one with underscores. */
  lemma {:induction false} EitherSpelling(words: seq<Word>)
    ensures SnakeCase(Pascal(words)) == Snake(words)
    decreases |words|
  {
    if words != [] {
      var rest := Pascal(words[1..]);
      EitherSpelling(words[1..]);
      assert |words| > 1 ==> rest[0] == words[1][0] - 32;
      CapitalWord(words[0], rest);
      Regroup(words[0], ['_' as int], SnakeCase(rest));
    }
  }

  lemma {:induction false} WithoutCapitals(name: Text)
    requires forall i | 0 <= i < |name| :: !IsUpper(name[i])
    ensures SnakeCase(name) == name
    decreases |name|
  {
    if name != [] {
      WithoutCapitals(name[1..]);
    }
  }

  /** `??` */
  function Either(a: Raw, b: Raw): Raw
  {
    if a.Undefined? || a.JsNull? then b else a
  }

  /** White space and line ends, as `trim` sees them. */
  predicate IsBlank(u: Unit)
  {
    9 <= u <= 13 || u == 32 || u == 160 || u == 0x1680 || 0x2000 <= u <= 0x200A || u == 0x2028 || u == 0x2029
    || u == 0x202F || u == 0x205F || u == 0x3000 || u == 0xFEFF
  }

  function CommandOf(hook: Hook, windows: bool): Raw
  {
    if windows then Either(Either(hook.commandWindows, hook.command_windows), hook.command) else hook.command
  }

  predicate UnsignedInteger(r: Raw)
  {
    r.Undefined? || r.JsNull? || (r.Integer? && 0 <= r.number <= MAX_SAFE)
  }

  predicate OptionalText(r: Raw)
  {
    r.Undefined? || r.JsNull? || r.Chars?
  }

  function TextOf(r: Raw): Option<Text>
  {
    if r.Chars? then Some(r.text) else None
  }

  /** The two events Codex waits for briefly. */
  predicate Short(event: Text)
  {
    event == Units("session_end") || event == Units("interrupt")
  }

  function DefaultTimeout(event: Text): nat
  {
    if Short(event) then 1 else 600
  }

  function Timeout(event: Text, r: Raw): (t: nat)
    ensures t >= 1 && (Short(event) ==> t <= 3)
  {
    var asked := if r.Integer? then r.number else DefaultTimeout(event);
    Max(1, if Short(event) then Min(asked, 3) else asked)
  }

  const DEFAULT_LIMIT: nat := 2500

  function Limit(event: Text, r: Raw): Option<nat>
    requires UnsignedInteger(r)
  {
    if Names(CONTEXT_EVENTS, event) && r.Integer? && r.number != DEFAULT_LIMIT then Some(r.number) else None
  }

  /** The first reason a hook is refused for, or its identity. */
  function Normalize(eventName: Text, group: Group, index: nat, windows: bool): Result<Identity>
  {
    var event := SnakeCase(eventName);
    if !Names(EVENTS, event) then Refused(UnsupportedEvent)
    else if index >= |group.hooks| || group.hooks[index].kind != Chars(Units("command")) then Refused(NotACommand)
    else
      var hook := group.hooks[index];
      var command := CommandOf(hook, windows);
      if !command.Chars? || (forall i | 0 <= i < |command.text| :: IsBlank(command.text[i])) then Refused(EmptyCommand)
      else if !hook.runsAsync.Undefined? && !hook.runsAsync.Flag? then Refused(BadAsync)
      else if !OptionalText(hook.statusMessage) then Refused(BadStatus)
      else if !OptionalText(group.matcher) then Refused(BadMatcher)
      else if !UnsignedInteger(hook.timeout) then Refused(BadTimeout)
      else if !UnsignedInteger(hook.additionalContextLimit) then Refused(BadLimit)
      else
        Ok(Identity(
          event, command.text, Timeout(event, hook.timeout), hook.runsAsync == Flag(true), TextOf(hook.statusMessage),
          Limit(event, hook.additionalContextLimit), if Names(NO_MATCHER_EVENTS, event) then None else TextOf(group.matcher)))
  }

  function Optional(key: string, v: Option<Json>): seq<Member>
  {
    if v.None? then [] else [Member(Units(key), v.value)]
  }

  function HandlerMembers(id: Identity): seq<Member>
  {
    [Member(Units("type"), Str(Units("command"))), Member(Units("command"), Str(id.command)),
     Member(Units("timeout"), Num(id.timeout)), Member(Units("async"), Bool(id.runsAsync))]
    + Optional("statusMessage", if id.statusMessage.None? then None else Some(Str(id.statusMessage.value)))
    + Optional("additionalContextLimit", if id.additionalContextLimit.None? then None else Some(Num(id.additionalContextLimit.value)))
  }

  function IdentityMembers(id: Identity): seq<Member>
  {
    [Member(Units("event_name"), Str(id.event)), Member(Units("hooks"), Arr([Obj(HandlerMembers(id))]))]
    + Optional("matcher", if id.matcher.None? then None else Some(Str(id.matcher.value)))
  }

  /** The text the fingerprint is the hash of. */
  function FingerprintText(eventName: Text, group: Group, index: nat, windows: bool): Result<Text>
  {
    match Normalize(eventName, group, index, windows)
    case Refused(why) => Refused(why)
    case Ok(id) => Ok(Print(Obj(IdentityMembers(id))))
  }

  // ---------- what is accepted, and as what ----------

  ghost predicate IsNull(r: Raw)
  {
    r == Undefined || r == JsNull
  }

  /** The command in force: on Windows its own spellings come first, as far as they are not null. */
  ghost predicate InForce(hook: Hook, windows: bool, r: Raw)
  {
    if windows && !IsNull(hook.commandWindows) then r == hook.commandWindows
    else if windows && !IsNull(hook.command_windows) then r == hook.command_windows
    else r == hook.command
  }

  /** A nonnegative integer that a number holds exactly, or nothing. */
  ghost predicate Exact(r: Raw)
  {
    IsNull(r) || exists n :: r == Integer(n) && 0 <= n < 0x20_0000_0000_0000
  }

  /** The check of which this is the refusal. */
  ghost predicate Passes(eventName: Text, group: Group, index: nat, windows: bool, check: Refusal)
  {
    match check
    case UnsupportedEvent => exists event :: event in EVENTS && Units(event) == SnakeCase(eventName)
    case NotACommand => index < |group.hooks| && group.hooks[index].kind == Chars(Units("command"))
    case EmptyCommand =>
      index < |group.hooks| &&
      exists text :: InForce(group.hooks[index], windows, Chars(text)) && exists i :: 0 <= i < |text| && !IsBlank(text[i])
    case BadAsync => index < |group.hooks| && group.hooks[index].runsAsync in {Undefined, Flag(false), Flag(true)}
    case BadStatus => index < |group.hooks| && (IsNull(group.hooks[index].statusMessage) || group.hooks[index].statusMessage.Chars?)
    case BadMatcher => IsNull(group.matcher) || group.matcher.Chars?
    case BadTimeout => index < |group.hooks| && Exact(group.hooks[index].timeout)
    case BadLimit => index < |group.hooks| && Exact(group.hooks[index].additionalContextLimit)
  }

  /** The place of a check among the others. */
  function Place(check: Refusal): nat
  {
    match check
    case UnsupportedEvent => 0
    case NotACommand => 1
    case EmptyCommand => 2
    case BadAsync => 3
    case BadStatus => 4
    case BadMatcher => 5
    case BadTimeout => 6
    case BadLimit => 7
  }

  /** The first check that fails is the reason; every one before it passes. */
  ghost predicate FailsFirst(eventName: Text, group: Group, index: nat, windows: bool, why: Refusal)
  {
    && !Passes(eventName, group, index, windows, why)
    && forall check | Place(check) < Place(why) :: Passes(eventName, group, index, windows, check)
  }

  /** The seconds that are asked for, or else the event's own, held to what the event allows. */
  ghost predicate Waits(event: Text, asked: Raw, seconds: nat)
  {
    var short := event in {Units("session_end"), Units("interrupt")};
    var wanted := if asked.Integer? then asked.number else if short then 1 else 600;
    if wanted < 1 then seconds == 1 else if short && wanted > 3 then seconds == 3 else seconds == wanted
  }

  /** What an accepted hook is to Codex, part by part. */
  ghost predicate Means(event: Text, group: Group, hook: Hook, windows: bool, id: Identity)
  {
    && id.event == event
    && InForce(hook, windows, Chars(id.command))
    && Waits(event, hook.timeout, id.timeout)
    && (id.runsAsync <==> hook.runsAsync == Flag(true))
    && (forall t :: id.statusMessage == Some(t) <==> hook.statusMessage == Chars(t))
    && (forall n :: id.additionalContextLimit == Some(n) <==>
          && event in {Units("pre_tool_use"), Units("post_tool_use"), Units("session_start"), Units("user_prompt_submit"), Units("subagent_start")}
          && hook.additionalContextLimit == Integer(n) && n != 2500)
    && (forall t :: id.matcher == Some(t) <==>
          event !in {Units("user_prompt_submit"), Units("stop"), Units("interrupt")} && group.matcher == Chars(t))
  }

  lemma NamesAll(event: Text)
    ensures Names(CONTEXT_EVENTS, event) <==>
            event in {Units("pre_tool_use"), Units("post_tool_use"), Units("session_start"), Units("user_prompt_submit"), Units("subagent_start")}
    ensures Names(NO_MATCHER_EVENTS, event) <==> event in {Units("user_prompt_submit"), Units("stop"), Units("interrupt")}
  {
    var c, m := CONTEXT_EVENTS, NO_MATCHER_EVENTS;
    assert c[0] == "pre_tool_use" && c[1] == "post_tool_use" && c[2] == "session_start" && c[3] == "user_prompt_submit" && c[4] == "subagent_start";
    assert m[0] == "user_prompt_submit" && m[1] == "stop" && m[2] == "interrupt";
  }

  lemma EventChecked(eventName: Text, group: Group, index: nat, windows: bool)
    ensures Names(EVENTS, SnakeCase(eventName)) <==> Passes(eventName, group, index, windows, UnsupportedEvent)
  {
    if event :| event in EVENTS && Units(event) == SnakeCase(eventName) {
      var i :| 0 <= i < |EVENTS| && EVENTS[i] == event;
    }
  }

  lemma CommandChecked(eventName: Text, group: Group, index: nat, windows: bool)
    requires index < |group.hooks|
    ensures var r := CommandOf(group.hooks[index], windows);
            && InForce(group.hooks[index], windows, r)
            && ((r.Chars? && !forall i | 0 <= i < |r.text| :: IsBlank(r.text[i])) <==> Passes(eventName, group, index, windows, EmptyCommand))
  {
    var r := CommandOf(group.hooks[index], windows);
    if r.Chars? && !forall i | 0 <= i < |r.text| :: IsBlank(r.text[i]) {
      assert InForce(group.hooks[index], windows, Chars(r.text));
    }
  }

  lemma ExactChecked(r: Raw)
    ensures UnsignedInteger(r) <==> Exact(r)
  {
    if r.Integer? {
      assert r == Integer(r.number);
    }
  }

  lemma Identified(event: Text, group: Group, hook: Hook, windows: bool, command: Text)
    requires CommandOf(hook, windows) == Chars(command) && InForce(hook, windows, Chars(command))
    requires OptionalText(hook.statusMessage) && OptionalText(group.matcher)
    requires UnsignedInteger(hook.timeout) && UnsignedInteger(hook.additionalContextLimit)
    ensures Means(event, group, hook, windows,
              Identity(event, command, Timeout(event, hook.timeout), hook.runsAsync == Flag(true), TextOf(hook.statusMessage),
                Limit(event, hook.additionalContextLimit), if Names(NO_MATCHER_EVENTS, event) then None else TextOf(group.matcher)))
  {
    NamesAll(event);
    assert Waits(event, hook.timeout, Timeout(event, hook.timeout));
  }

  /** The checks as they are made; those of one hook need one. */
  predicate Clears(eventName: Text, group: Group, index: nat, windows: bool, check: Refusal)
  {
    if check == UnsupportedEvent then Names(EVENTS, SnakeCase(eventName))
    else if check == BadMatcher then OptionalText(group.matcher)
    else
      index < |group.hooks| &&
      var hook := group.hooks[index];
      match check
      case NotACommand => hook.kind == Chars(Units("command"))
      case EmptyCommand => CommandOf(hook, windows).Chars? && !forall i | 0 <= i < |CommandOf(hook, windows).text| :: IsBlank(CommandOf(hook, windows).text[i])
      case BadAsync => hook.runsAsync.Undefined? || hook.runsAsync.Flag?
      case BadStatus => OptionalText(hook.statusMessage)
      case BadTimeout => UnsignedInteger(hook.timeout)
      case BadLimit => UnsignedInteger(hook.additionalContextLimit)
      case _ => false
  }

  lemma ClearsIsPasses(eventName: Text, group: Group, index: nat, windows: bool, check: Refusal)
    ensures Clears(eventName, group, index, windows, check) <==> Passes(eventName, group, index, windows, check)
  {
    if check == UnsupportedEvent {
      EventChecked(eventName, group, index, windows);
    } else if index < |group.hooks| {
      match check
      case EmptyCommand => CommandChecked(eventName, group, index, windows);
      case BadTimeout => ExactChecked(group.hooks[index].timeout);
      case BadLimit => ExactChecked(group.hooks[index].additionalContextLimit);
      case _ =>
    }
  }

  lemma ClearedInOrder(eventName: Text, group: Group, index: nat, windows: bool, check: Refusal)
    ensures var r := Normalize(eventName, group, index, windows);
            && (r.Refused? ==> !Clears(eventName, group, index, windows, r.why))
            && (r.Ok? || Place(check) < Place(r.why) ==> Clears(eventName, group, index, windows, check))
  {
  }

  lemma RefusedFirst(eventName: Text, group: Group, index: nat, windows: bool)
    ensures var r := Normalize(eventName, group, index, windows);
            && (r.Refused? ==> FailsFirst(eventName, group, index, windows, r.why))
            && (r.Ok? ==> forall check :: Passes(eventName, group, index, windows, check))
  {
    forall check
      ensures Clears(eventName, group, index, windows, check) <==> Passes(eventName, group, index, windows, check)
      ensures var r := Normalize(eventName, group, index, windows);
              r.Ok? || Place(check) < Place(r.why) ==> Passes(eventName, group, index, windows, check)
    {
      ClearsIsPasses(eventName, group, index, windows, check);
      ClearedInOrder(eventName, group, index, windows, check);
    }
    ClearedInOrder(eventName, group, index, windows, UnsupportedEvent);
  }

  /**
   Which hooks are refused, and for which reason; and what an accepted one is to Codex: the command in force on
   the platform, the seconds it may take, and its other parts where the event has them.
   */
  lemma NormalizedExactly(eventName: Text, group: Group, index: nat, windows: bool)
    ensures var r := Normalize(eventName, group, index, windows);
            && (r.Refused? ==> FailsFirst(eventName, group, index, windows, r.why))
            && (r.Ok? ==>
                  && (forall check :: Passes(eventName, group, index, windows, check))
                  && Means(SnakeCase(eventName), group, group.hooks[index], windows, r.value))
  {
    RefusedFirst(eventName, group, index, windows);
    if Normalize(eventName, group, index, windows).Ok? {
      var hook := group.hooks[index];
      CommandChecked(eventName, group, index, windows);
      Identified(SnakeCase(eventName), group, hook, windows, CommandOf(hook, windows).text);
    }
  }

  // ---------- the text is the identity ----------

  function Get(ms: seq<Member>, key: Text): Option<Json>
  {
    if ms == [] then None else if ms[0].key == key then Some(ms[0].value) else Get(ms[1..], key)
  }

  lemma {:induction false} GetAt(ms: seq<Member>, i: nat)
    requires DistinctKeys(ms) && i < |ms|
    ensures Get(ms, ms[i].key) == Some(ms[i].value)
    decreases |ms|
  {
    if i > 0 {
      assert ms[0].key != ms[i].key;
      GetAt(ms[1..], i - 1);
    }
  }

  lemma {:induction false} GotIsMember(ms: seq<Member>, key: Text)
    requires Get(ms, key).Some?
    ensures exists i | 0 <= i < |ms| :: ms[i] == Member(key, Get(ms, key).value)
    decreases |ms|
  {
    if ms[0].key == key {
      assert ms[0] == Member(key, Get(ms, key).value);
    } else {
      GotIsMember(ms[1..], key);
      var i :| 0 <= i < |ms[1..]| && ms[1..][i] == Member(key, Get(ms, key).value);
      assert ms[i + 1] == Member(key, Get(ms, key).value);
    }
  }

  /** Equal objects have equal values at every key. */
  lemma GetOfEquiv(x: seq<Member>, y: seq<Member>, key: Text)
    requires Equiv(Obj(x), Obj(y)) && DistinctKeys(x) && DistinctKeys(y)
    ensures Get(x, key).Some? <==> Get(y, key).Some?
    ensures Get(x, key).Some? ==> Equiv(Get(x, key).value, Get(y, key).value)
  {
    if Get(x, key).Some? {
      GotIsMember(x, key);
      var i :| 0 <= i < |x| && x[i] == Member(key, Get(x, key).value);
      assert Meets(x[i], y);
      var j :| 0 <= j < |y| && x[i].key == y[j].key && Equiv(x[i].value, y[j].value);
      GetAt(y, j);
    }
    if Get(y, key).Some? {
      GotIsMember(y, key);
      var j :| 0 <= j < |y| && y[j] == Member(key, Get(y, key).value);
      assert IsMet(x, y[j]);
      var i :| 0 <= i < |x| && x[i].key == y[j].key && Equiv(x[i].value, y[j].value);
      GetAt(x, i);
    }
  }

  /** The key names are different texts. */
  lemma KeysDiffer()
    ensures Units("timeout") != Units("command")
  {
    assert Units("timeout")[0] == 't' as int && Units("command")[0] == 'c' as int;
  }

  lemma HandlerIsWellFormed(id: Identity)
    ensures DistinctKeys(HandlerMembers(id)) && WellFormed(Obj(HandlerMembers(id)))
  {
    KeysDiffer();
  }

  lemma IdentityIsWellFormed(id: Identity)
    ensures DistinctKeys(IdentityMembers(id)) && WellFormed(Obj(IdentityMembers(id)))
  {
    HandlerIsWellFormed(id);
    assert WellFormed(Arr([Obj(HandlerMembers(id))]));
  }

  /** The handler of the text has every part under its key, and nothing else. */
  lemma HandlerFields(id: Identity)
    ensures |HandlerMembers(id)| == 4 + (if id.statusMessage.Some? then 1 else 0) + (if id.additionalContextLimit.Some? then 1 else 0)
    ensures Get(HandlerMembers(id), Units("type")) == Some(Str(Units("command")))
    ensures Get(HandlerMembers(id), Units("command")) == Some(Str(id.command))
    ensures Get(HandlerMembers(id), Units("timeout")) == Some(Num(id.timeout))
    ensures Get(HandlerMembers(id), Units("async")) == Some(Bool(id.runsAsync))
    ensures Get(HandlerMembers(id), Units("statusMessage")) == if id.statusMessage.None? then None else Some(Str(id.statusMessage.value))
    ensures Get(HandlerMembers(id), Units("additionalContextLimit")) ==
            if id.additionalContextLimit.None? then None else Some(Num(id.additionalContextLimit.value))
  {
    KeysDiffer();
    var ms := HandlerMembers(id);
    HandlerIsWellFormed(id);
    GetAt(ms, 0);
    GetAt(ms, 1);
    GetAt(ms, 2);
    GetAt(ms, 3);
    if id.statusMessage.Some? {
      GetAt(ms, 4);
    } else if Get(ms, Units("statusMessage")).Some? {
      GotIsMember(ms, Units("statusMessage"));
    }
    if id.additionalContextLimit.Some? {
      GetAt(ms, |ms| - 1);
    } else if Get(ms, Units("additionalContextLimit")).Some? {
      GotIsMember(ms, Units("additionalContextLimit"));
    }
  }

  lemma IdentityFields(id: Identity)
    ensures |IdentityMembers(id)| == 2 + if id.matcher.Some? then 1 else 0
    ensures Get(IdentityMembers(id), Units("event_name")) == Some(Str(id.event))
    ensures Get(IdentityMembers(id), Units("hooks")) == Some(Arr([Obj(HandlerMembers(id))]))
    ensures Get(IdentityMembers(id), Units("matcher")) == if id.matcher.None? then None else Some(Str(id.matcher.value))
  {
    var ms := IdentityMembers(id);
    IdentityIsWellFormed(id);
    GetAt(ms, 0);
    GetAt(ms, 1);
    if id.matcher.Some? {
      GetAt(ms, 2);
    } else if Get(ms, Units("matcher")).Some? {
      GotIsMember(ms, Units("matcher"));
    }
  }

  lemma StatusField(id: Identity)
    ensures Get(HandlerMembers(id), Units("statusMessage")) == if id.statusMessage.None? then None else Some(Str(id.statusMessage.value))
  {
    HandlerFields(id);
  }

  lemma SameField(a: Identity, b: Identity, key: Text)
    requires Equiv(Obj(HandlerMembers(a)), Obj(HandlerMembers(b)))
    ensures var x, y := Get(HandlerMembers(a), key), Get(HandlerMembers(b), key);
            (x.Some? <==> y.Some?) && (x.Some? ==> Equiv(x.value, y.value))
  {
    HandlerIsWellFormed(a);
    HandlerIsWellFormed(b);
    GetOfEquiv(HandlerMembers(a), HandlerMembers(b), key);
  }

  lemma SameStatus(a: Identity, b: Identity)
    requires Equiv(Obj(HandlerMembers(a)), Obj(HandlerMembers(b)))
    ensures a.statusMessage == b.statusMessage
  {
    SameField(a, b, Units("statusMessage"));
    StatusField(a);
    StatusField(b);
  }

  lemma LimitField(id: Identity)
    ensures Get(HandlerMembers(id), Units("additionalContextLimit")) ==
            if id.additionalContextLimit.None? then None else Some(Num(id.additionalContextLimit.value))
  {
    HandlerFields(id);
  }

  lemma SameLimit(a: Identity, b: Identity)
    requires Equiv(Obj(HandlerMembers(a)), Obj(HandlerMembers(b)))
    ensures a.additionalContextLimit == b.additionalContextLimit
  {
    SameField(a, b, Units("additionalContextLimit"));
    LimitField(a);
    LimitField(b);
  }

  lemma SameHandler(a: Identity, b: Identity)
    requires Equiv(Obj(HandlerMembers(a)), Obj(HandlerMembers(b)))
    ensures (a.command, a.timeout, a.runsAsync, a.statusMessage, a.additionalContextLimit)
         == (b.command, b.timeout, b.runsAsync, b.statusMessage, b.additionalContextLimit)
  {
    SameField(a, b, Units("command"));
    SameField(a, b, Units("timeout"));
    SameField(a, b, Units("async"));
    HandlerFields(a);
    HandlerFields(b);
    SameStatus(a, b);
    SameLimit(a, b);
  }

  lemma EquivOfOne(a: Json, b: Json)
    requires Equiv(Arr([a]), Arr([b]))
    ensures Equiv(a, b)
  {
    assert Equiv([a][0], [b][0]);
  }

  lemma SameIdentity(a: Identity, b: Identity)
    requires Equiv(Obj(IdentityMembers(a)), Obj(IdentityMembers(b)))
    ensures a == b
  {
    IdentityIsWellFormed(a);
    IdentityIsWellFormed(b);
    var x, y := IdentityMembers(a), IdentityMembers(b);
    IdentityFields(a);
    IdentityFields(b);
    GetOfEquiv(x, y, Units("event_name"));
    GetOfEquiv(x, y, Units("hooks"));
    GetOfEquiv(x, y, Units("matcher"));
    EquivOfOne(Obj(HandlerMembers(a)), Obj(HandlerMembers(b)));
    SameHandler(a, b);
  }

  /**
   Two hooks have the same fingerprint text exactly when they are the same hook to Codex: every part of
   the identity is in the text, and nothing else is.
   */
  lemma TextIsIdentity(a: Identity, b: Identity)
    ensures Print(Obj(IdentityMembers(a))) == Print(Obj(IdentityMembers(b))) <==> a == b
  {
    IdentityIsWellFormed(a);
    IdentityIsWellFormed(b);
    PrintIsCanonical(Obj(IdentityMembers(a)), Obj(IdentityMembers(b)));
    if Equiv(Obj(IdentityMembers(a)), Obj(IdentityMembers(b))) {
      SameIdentity(a, b);
    }
  }

  /** The same for two hooks of any files, on any platforms: equal texts, equal identities, or one is refused. */
  lemma FingerprintIsIdentity(e1: Text, g1: Group, i1: nat, w1: bool, e2: Text, g2: Group, i2: nat, w2: bool)
    requires FingerprintText(e1, g1, i1, w1).Ok? && FingerprintText(e2, g2, i2, w2).Ok?
    ensures FingerprintText(e1, g1, i1, w1) == FingerprintText(e2, g2, i2, w2)
       <==> Normalize(e1, g1, i1, w1) == Normalize(e2, g2, i2, w2)
  {
    TextIsIdentity(Normalize(e1, g1, i1, w1).value, Normalize(e2, g2, i2, w2).value);
  }

  /** The hook with every default written out. */
  function WithDefaults(event: Text, hook: Hook): Hook
  {
    hook.(
      timeout := Either(hook.timeout, Integer(DefaultTimeout(event))),
      runsAsync := if hook.runsAsync.Undefined? then Flag(false) else hook.runsAsync,
      additionalContextLimit := Either(hook.additionalContextLimit, Integer(DEFAULT_LIMIT)))
  }

  /** Writing the defaults out, or dropping them, does not cost a hook its trust; neither do its siblings. */
  lemma DefaultsKeepTheFingerprint(eventName: Text, group: Group, index: nat, windows: bool, others: seq<Hook>)
    requires index < |group.hooks| && index < |others| && others[index] == WithDefaults(SnakeCase(eventName), group.hooks[index])
    ensures FingerprintText(eventName, group.(hooks := others), index, windows) == FingerprintText(eventName, group, index, windows)
  {
    var event, hook := SnakeCase(eventName), group.hooks[index];
    var d := others[index];
    assert Timeout(event, d.timeout) == Timeout(event, hook.timeout);
    assert d.runsAsync == Flag(true) <==> hook.runsAsync == Flag(true);
    assert CommandOf(d, windows) == CommandOf(hook, windows);
    var a, b := Normalize(eventName, group.(hooks := others), index, windows), Normalize(eventName, group, index, windows);
    assert a.Ok? <==> b.Ok?;
    assert a.Refused? ==> a.why == b.why;
    assert a == b;
  }
}
