/**
 One verb on a saved machine: which arguments go there, the command line its shell splits, and the private
 receipt at the end of its error output.

 `Words` splits a line as the POSIX Shell Command Language does (IEEE Std 1003.1, sections 2.2.1 to 2.2.3
 and 2.3), for lines that are plain words: an unquoted operator, comment, expansion or pattern is None.
 */
module RemoteCommand {
  import opened Basics

  // ---------- the shell ----------

  predicate IsBlank(c: char)
  {
    c == ' ' || c == '\t'
  }

  /** Unquoted, these end a word or ask for an expansion. */
  predicate IsSpecial(c: char)
  {
    c in {'|', '&', ';', '<', '>', '(', ')', '$', '`', '\n', '*', '?', '['}
  }

  predicate IsNameChar(c: char)
  {
    'a' <= c <= 'z' || 'A' <= c <= 'Z' || c == '_' || '0' <= c <= '9'
  }

  /** The first single quote, or the length. */
  function IndexOfQuote(s: string): (k: nat)
    ensures k <= |s| && (k < |s| ==> s[k] == '\'')
    ensures forall i | 0 <= i < k :: s[i] != '\''
  {
    if s == [] || s[0] == '\'' then 0 else 1 + IndexOfQuote(s[1..])
  }

  function NameLength(s: string): (k: nat)
    ensures k <= |s|
  {
    if s == [] || !IsNameChar(s[0]) then 0 else 1 + NameLength(s[1..])
  }

  type Environment = string -> string

  /** The text up to the closing double quote, variables expanded, and what follows it. */
  function DoubleQuoted(s: string, env: Environment): (r: Option<(string, string)>)
    ensures r.Some? ==> |r.value.1| < |s|
    decreases |s|
  {
    if s == [] || s[0] == '\\' || s[0] == '`' then None
    else if s[0] == '"' then Some(("", s[1..]))
    else if s[0] == '$' then
      var k := NameLength(s[1..]);
      if k == 0 || '0' <= s[1] <= '9' then None
      else
        match DoubleQuoted(s[1..][k..], env) case None => None case Some((text, rest)) => Some((env(s[1..][..k]) + text, rest))
    else
      match DoubleQuoted(s[1..], env) case None => None case Some((text, rest)) => Some(([s[0]] + text, rest))
  }

  /** The word so far with more text; a quoted empty string makes a word too. */
  function Extend(word: Option<string>, text: string): Option<string>
  {
    Some(if word.None? then text else word.value + text)
  }

  /** The words of a line, `word` being the one begun. */
  function Words(s: string, word: Option<string>, env: Environment): Option<seq<string>>
    decreases |s|
  {
    if s == [] then Some(if word.None? then [] else [word.value])
    else if IsBlank(s[0]) then
      match Words(s[1..], None, env)
      case None => None
      case Some(rest) => Some(if word.None? then rest else [word.value] + rest)
    else if s[0] == '\'' then
      var k := IndexOfQuote(s[1..]);
      if k == |s| - 1 then None else Words(s[k + 2..], Extend(word, s[1..k + 1]), env)
    else if s[0] == '\\' then
      if |s| < 2 then None
      else if s[1] == '\n' then Words(s[2..], word, env)
      else Words(s[2..], Extend(word, [s[1]]), env)
    else if s[0] == '"' then
      match DoubleQuoted(s[1..], env) case None => None case Some((text, rest)) => Words(rest, Extend(word, text), env)
    else if IsSpecial(s[0]) || (word.None? && (s[0] == '#' || s[0] == '~')) then None
    else Words(s[1..], Extend(word, [s[0]]), env)
  }

  // ---------- the command line ----------

  /** `s.replace(/'/g, ...)`. */
  function Escaped(s: string): string
  {
    if s == [] then "" else (if s[0] == '\'' then "'\\''" else [s[0]]) + Escaped(s[1..])
  }

  function Quote(s: string): string
  {
    "'" + Escaped(s) + "'"
  }

  /** `args.map(quote).join(' ')`. */
  function QuoteAll(args: seq<string>): string
  {
    if args == [] then "" else if |args| == 1 then Quote(args[0]) else Quote(args[0]) + " " + QuoteAll(args[1..])
  }

  const FOLDERS: string := "/.local/bin:" + ("/opt/homebrew/bin:" + "/usr/local/bin:")

  /** The search path of the remote side, in double quotes so that its shell fills in the variables. */
  const SEARCH: string := "\"" + ("$HOME" + (FOLDERS + ("$PATH" + "\"")))

  /** `env` and its settings, in front of the command. */
  function WithSettings(machine: string, command: string): string
  {
    var named := "OAK_FORWARDED_MACHINE=" + (Quote(machine) + (" " + command));
    var flagged := "CLAUDE_OBSERVATORY_NO_UPDATE_CHECK=1" + " " + ("OAK_FORWARDED=1" + " " + named);
    "env" + " " + ("PATH=" + (SEARCH + (" " + flagged)))
  }

  /** What ssh hands to the other machine's shell. */
  function RemoteLine(machine: string, script: string, argv: seq<string>): string
  {
    var oak := "oak" + " " + QuoteAll(argv);
    WithSettings(machine, "sh" + " " + ("-c" + " " + (Quote(script) + (" " + oak))))
  }

  lemma {:induction false} EscapedSplit(s: string)
    ensures var k := IndexOfQuote(s);
            Escaped(s) == s[..k] + if k == |s| then "" else "'\\''" + Escaped(s[k + 1..])
    decreases |s|
  {
    if s != [] && s[0] != '\'' {
      EscapedSplit(s[1..]);
      var k := IndexOfQuote(s);
      assert s[..k] == [s[0]] + s[1..][..k - 1];
      assert k < |s| ==> s[1..][k..] == s[k + 1..];
    } else if s != [] {
      assert s[..0] == "";
    }
  }

  lemma FirstQuote(a: string, rest: string)
    requires forall i | 0 <= i < |a| :: a[i] != '\''
    ensures IndexOfQuote(a + "'" + rest) == |a|
  {
    var s := a + "'" + rest;
    assert s[|a|] == '\'';
    assert forall i | 0 <= i < |a| :: s[i] == a[i];
  }

  /** A single-quoted stretch adds its text to the word. */
  lemma SingleQuoted(a: string, rest: string, word: Option<string>, env: Environment)
    requires forall i | 0 <= i < |a| :: a[i] != '\''
    ensures Words("'" + (a + "'" + rest), word, env) == Words(rest, Extend(word, a), env)
  {
    var inner := a + "'" + rest;
    var s := "'" + inner;
    FirstQuote(a, rest);
    assert s[1..] == inner;
    assert s[|a| + 2..] == rest;
    assert s[1..|a| + 1] == a;
  }

  lemma EscapedQuote(rest: string, word: Option<string>, env: Environment)
    ensures Words("\\'" + rest, word, env) == Words(rest, Extend(word, "'"), env)
  {
    var s := "\\'" + rest;
    assert s[2..] == rest;
    assert [s[1]] == "'";
  }

  lemma ExtendTwice(word: Option<string>, a: string, b: string)
    ensures Extend(Extend(word, a), b) == Extend(word, a + b)
  {
    if word.Some? {
      assert (word.value + a) + b == word.value + (a + b);
    }
  }

  /** How a string is quoted around its first single quote. */
  lemma QuoteAtQuote(a: string, b: string, rest: string)
    requires forall i | 0 <= i < |a| :: a[i] != '\''
    ensures Quote(a + "'" + b) + rest == "'" + (a + "'" + ("\\'" + (Quote(b) + rest)))
  {
    var s := a + "'" + b;
    FirstQuote(a, b);
    EscapedSplit(s);
    assert s[..|a|] == a && s[|a| + 1..] == b;
    assert Escaped(s) == a + ("'\\''" + Escaped(b));
    assert "'\\''" == "'" + "\\'" + "'";
  }

  lemma QuoteWithoutQuote(s: string, rest: string)
    requires forall i | 0 <= i < |s| :: s[i] != '\''
    ensures Quote(s) + rest == "'" + (s + "'" + rest)
  {
    EscapedSplit(s);
    assert s[..|s|] == s;
  }

  /** A quoted stretch, then an escaped quote. */
  lemma ThreePieces(a: string, more: string, word: Option<string>, env: Environment)
    requires forall i | 0 <= i < |a| :: a[i] != '\''
    ensures Words("'" + (a + "'" + ("\\'" + more)), word, env) == Words(more, Extend(word, a + "'"), env)
  {
    SingleQuoted(a, "\\'" + more, word, env);
    EscapedQuote(more, Extend(word, a), env);
    ExtendTwice(word, a, "'");
  }

  /** A quoted string, anywhere in a line and whatever it holds, adds exactly that string to the word. */
  lemma {:induction false} QuoteIsOneString(s: string, rest: string, word: Option<string>, env: Environment)
    ensures Words(Quote(s) + rest, word, env) == Words(rest, Extend(word, s), env)
    decreases |s|
  {
    var k := IndexOfQuote(s);
    if k == |s| {
      QuoteWithoutQuote(s, rest);
      SingleQuoted(s, rest, word, env);
    } else {
      var a, b := s[..k], s[k + 1..];
      assert s == a + "'" + b;
      QuoteAtQuote(a, b, rest);
      ThreePieces(a, Quote(b) + rest, word, env);
      QuoteIsOneString(b, rest, Extend(word, a + "'"), env);
      ExtendTwice(word, a + "'", b);
    }
  }

  lemma Assoc(a: string, b: string, c: string)
    ensures a + b + c == a + (b + c)
  {
  }

  /** A character that stands for itself, quoted or not. */
  predicate IsPlain(c: char)
  {
    IsNameChar(c) || c in {'-', '=', '/', '.', ':'}
  }

  predicate Plain(w: string)
  {
    forall i | 0 <= i < |w| :: IsPlain(w[i])
  }

  lemma PlainCharacter(c: char, rest: string, word: Option<string>, env: Environment)
    ensures IsPlain(c) ==> Words([c] + rest, word, env) == Words(rest, Extend(word, [c]), env)
  {
    assert ([c] + rest)[1..] == rest;
  }

  /** A word that needs no quoting. */
  lemma {:induction false} PlainWord(w: string, rest: string, word: Option<string>, env: Environment)
    requires Plain(w) && w != ""
    ensures Words(w + rest, word, env) == Words(rest, Extend(word, w), env)
    decreases |w|
  {
    if |w| == 1 {
      PlainCharacter(w[0], rest, word, env);
      assert w == [w[0]];
    } else {
      assert w == [w[0]] + w[1..];
      Assoc([w[0]], w[1..], rest);
      PlainCharacter(w[0], w[1..] + rest, word, env);
      PlainWord(w[1..], rest, Extend(word, [w[0]]), env);
      ExtendTwice(word, [w[0]], w[1..]);
    }
  }

  lemma BlankEndsWord(rest: string, w: string, env: Environment)
    requires Words(rest, None, env).Some?
    ensures Words(" " + rest, Some(w), env) == Some([w] + Words(rest, None, env).value)
  {
    assert (" " + rest)[1..] == rest;
  }

  /** A plain word and the blank after it. */
  lemma PlainThenBlank(w: string, rest: string, env: Environment)
    requires w != "" && Plain(w) && Words(rest, None, env).Some?
    ensures Words(w + " " + rest, None, env) == Some([w] + Words(rest, None, env).value)
  {
    Assoc(w, " ", rest);
    PlainWord(w, " " + rest, None, env);
    BlankEndsWord(rest, w, env);
  }

  /** A quoted string and the blank after it, closing a word that may have begun plainly. */
  lemma QuotedThenBlank(begun: string, s: string, rest: string, env: Environment)
    requires Plain(begun) && Words(rest, None, env).Some?
    ensures Words(begun + (Quote(s) + (" " + rest)), None, env) == Some([begun + s] + Words(rest, None, env).value)
  {
    var tail := Quote(s) + (" " + rest);
    if begun == "" {
      assert begun + tail == tail && begun + s == s;
      QuoteIsOneString(s, " " + rest, None, env);
    } else {
      PlainWord(begun, tail, None, env);
      QuoteIsOneString(s, " " + rest, Some(begun), env);
    }
    BlankEndsWord(rest, begun + s, env);
  }

  lemma QuotedLast(s: string, env: Environment)
    ensures Words(Quote(s), None, env) == Some([s])
  {
    QuoteIsOneString(s, "", None, env);
    assert Quote(s) + "" == Quote(s);
    assert Words("", Some(s), env) == Some([s]);
  }

  /** Splitting the quoted arguments gives back the arguments, whatever they hold. */
  lemma {:induction false} QuotedArgumentsSplit(args: seq<string>, env: Environment)
    ensures Words(QuoteAll(args), None, env) == Some(args)
    decreases |args|
  {
    if |args| == 1 {
      QuotedLast(args[0], env);
      assert args == [args[0]];
    } else if args != [] {
      var rest := QuoteAll(args[1..]);
      QuotedArgumentsSplit(args[1..], env);
      QuotedThenBlank("", args[0], rest, env);
      Assoc(Quote(args[0]), " ", rest);
      assert "" + (Quote(args[0]) + (" " + rest)) == Quote(args[0]) + (" " + rest);
      assert "" + args[0] == args[0] && args == [args[0]] + args[1..];
    }
  }

  // ---------- the search path ----------

  /** The text a double quote closes. */
  function Closed(text: string, rest: Option<(string, string)>): Option<(string, string)>
  {
    match rest case None => None case Some((more, after)) => Some((text + more, after))
  }

  lemma {:induction false} PlainInDouble(text: string, rest: string, env: Environment)
    requires Plain(text)
    ensures DoubleQuoted(text + rest, env) == Closed(text, DoubleQuoted(rest, env))
    decreases |text|
  {
    if text == "" {
      assert text + rest == rest;
      assert DoubleQuoted(rest, env).Some? ==> "" + DoubleQuoted(rest, env).value.0 == DoubleQuoted(rest, env).value.0;
    } else {
      PlainInDouble(text[1..], rest, env);
      assert IsPlain(text[0]);
      assert (text + rest)[1..] == text[1..] + rest;
      if DoubleQuoted(rest, env).Some? {
        Assoc([text[0]], text[1..], DoubleQuoted(rest, env).value.0);
        assert text == [text[0]] + text[1..];
      }
    }
  }

  lemma {:induction false} NameThenOther(name: string, rest: string)
    requires (forall i | 0 <= i < |name| :: IsNameChar(name[i])) && (rest == "" || !IsNameChar(rest[0]))
    ensures NameLength(name + rest) == |name|
    decreases |name|
  {
    if name == "" {
      assert name + rest == rest;
    } else {
      assert IsNameChar(name[0]);
      NameThenOther(name[1..], rest);
      assert (name + rest)[1..] == name[1..] + rest;
    }
  }

  lemma VariableInDouble(name: string, rest: string, env: Environment)
    requires name != "" && !('0' <= name[0] <= '9') && (forall i | 0 <= i < |name| :: IsNameChar(name[i]))
    requires rest == "" || !IsNameChar(rest[0])
    ensures DoubleQuoted("$" + (name + rest), env) == Closed(env(name), DoubleQuoted(rest, env))
  {
    var s := "$" + (name + rest);
    assert s[1..] == name + rest;
    NameThenOther(name, rest);
    assert (name + rest)[|name|..] == rest && (name + rest)[..|name|] == name;
  }

  /** Two variables and plain text between them, in double quotes. */
  lemma DoubleExpands(first: string, between: string, second: string, rest: string, word: Option<string>, env: Environment)
    requires first != "" && !('0' <= first[0] <= '9') && (forall i | 0 <= i < |first| :: IsNameChar(first[i]))
    requires second != "" && !('0' <= second[0] <= '9') && (forall i | 0 <= i < |second| :: IsNameChar(second[i]))
    requires between != "" && Plain(between) && !IsNameChar(between[0])
    ensures Words("\"" + ("$" + (first + (between + ("$" + (second + ("\"" + rest)))))), word, env)
         == Words(rest, Extend(word, env(first) + (between + env(second))), env)
  {
    var end := "\"" + rest;
    assert end[1..] == rest;
    assert DoubleQuoted(end, env) == Some(("", rest));
    VariableInDouble(second, end, env);
    assert env(second) + "" == env(second);
    var tail := "$" + (second + end);
    PlainInDouble(between, tail, env);
    assert (between + tail)[0] == between[0];
    VariableInDouble(first, between + tail, env);
    var inner := "$" + (first + (between + tail));
    assert ("\"" + inner)[1..] == inner;
  }

  // ---------- the whole line ----------

  lemma LiteralsArePlain()
    ensures Plain("env") && Plain("PATH=") && Plain("OAK_FORWARDED=1") && Plain("OAK_FORWARDED_MACHINE=")
    ensures Plain("sh") && Plain("-c") && Plain("oak") && Plain("")
  {
  }

  lemma NoCheckIsPlain()
    ensures Plain("CLAUDE_OBSERVATORY_NO_UPDATE_CHECK=1")
  {
  }

  lemma FoldersArePlain()
    ensures Plain(FOLDERS) && FOLDERS != "" && !IsNameChar(FOLDERS[0])
  {
    assert Plain("/.local/bin:") && Plain("/opt/homebrew/bin:") && Plain("/usr/local/bin:");
    assert "/.local/bin:"[0] == '/';
  }

  /** What the search path is on the other machine. */
  function SearchThere(env: Environment): string
  {
    env("HOME") + (FOLDERS + env("PATH"))
  }

  lemma SearchRegrouped(rest: string)
    ensures SEARCH + rest == "\"" + ("$" + ("HOME" + (FOLDERS + ("$" + ("PATH" + ("\"" + rest))))))
  {
    assert "$HOME" == "$" + "HOME" && "$PATH" == "$" + "PATH";
  }

  lemma SearchExpands(rest: string, word: Option<string>, env: Environment)
    ensures Words(SEARCH + rest, word, env) == Words(rest, Extend(word, SearchThere(env)), env)
  {
    FoldersArePlain();
    DoubleExpands("HOME", FOLDERS, "PATH", rest, word, env);
    SearchRegrouped(rest);
  }

  /** The search path as one word, and the blank after it. */
  lemma SearchThenBlank(rest: string, env: Environment)
    requires Words(rest, None, env).Some?
    ensures Words("PATH=" + (SEARCH + (" " + rest)), None, env) == Some(["PATH=" + SearchThere(env)] + Words(rest, None, env).value)
  {
    LiteralsArePlain();
    PlainWord("PATH=", SEARCH + (" " + rest), None, env);
    SearchExpands(" " + rest, Some("PATH="), env);
    BlankEndsWord(rest, "PATH=" + SearchThere(env), env);
  }

  lemma SettingsSplit(machine: string, command: string, env: Environment)
    requires Words(command, None, env).Some?
    ensures Words(WithSettings(machine, command), None, env)
         == Some(["env"] + (["PATH=" + SearchThere(env)] + (["CLAUDE_OBSERVATORY_NO_UPDATE_CHECK=1"] + (["OAK_FORWARDED=1"] +
                 (["OAK_FORWARDED_MACHINE=" + machine] + Words(command, None, env).value)))))
  {
    LiteralsArePlain();
    NoCheckIsPlain();
    var named := "OAK_FORWARDED_MACHINE=" + (Quote(machine) + (" " + command));
    QuotedThenBlank("OAK_FORWARDED_MACHINE=", machine, command, env);
    PlainThenBlank("OAK_FORWARDED=1", named, env);
    PlainThenBlank("CLAUDE_OBSERVATORY_NO_UPDATE_CHECK=1", "OAK_FORWARDED=1" + " " + named, env);
    var flagged := "CLAUDE_OBSERVATORY_NO_UPDATE_CHECK=1" + " " + ("OAK_FORWARDED=1" + " " + named);
    SearchThenBlank(flagged, env);
    PlainThenBlank("env", "PATH=" + (SEARCH + (" " + flagged)), env);
  }

  lemma CommandSplits(script: string, argv: seq<string>, env: Environment)
    ensures Words("sh" + " " + ("-c" + " " + (Quote(script) + (" " + ("oak" + " " + QuoteAll(argv))))), None, env)
         == Some(["sh"] + (["-c"] + ([script] + (["oak"] + argv))))
  {
    LiteralsArePlain();
    QuotedArgumentsSplit(argv, env);
    PlainThenBlank("oak", QuoteAll(argv), env);
    var oak := "oak" + " " + QuoteAll(argv);
    QuotedThenBlank("", script, oak, env);
    assert "" + (Quote(script) + (" " + oak)) == Quote(script) + (" " + oak) && "" + script == script;
    PlainThenBlank("-c", Quote(script) + (" " + oak), env);
    PlainThenBlank("sh", "-c" + " " + (Quote(script) + (" " + oak)), env);
  }

  lemma ListRegrouped(a: string, b: string, c: string, d: string, e: string, f: string, g: string, h: string, i: string, rest: seq<string>)
    ensures [a] + ([b] + ([c] + ([d] + ([e] + ([f] + ([g] + ([h] + ([i] + rest)))))))) == [a, b, c, d, e, f, g, h, i] + rest
  {
  }

  /**
   The other machine's shell gets exactly these words: the settings, the search path filled in there, the
   script in one piece, and the arguments as they were.
   */
  lemma RemoteLineSplits(machine: string, script: string, argv: seq<string>, env: Environment)
    ensures Words(RemoteLine(machine, script, argv), None, env) == Some(
              ["env", "PATH=" + SearchThere(env), "CLAUDE_OBSERVATORY_NO_UPDATE_CHECK=1", "OAK_FORWARDED=1",
               "OAK_FORWARDED_MACHINE=" + machine, "sh", "-c", script, "oak"] + argv)
  {
    CommandSplits(script, argv, env);
    var command := "sh" + " " + ("-c" + " " + (Quote(script) + (" " + ("oak" + " " + QuoteAll(argv)))));
    SettingsSplit(machine, command, env);
    ListRegrouped("env", "PATH=" + SearchThere(env), "CLAUDE_OBSERVATORY_NO_UPDATE_CHECK=1", "OAK_FORWARDED=1",
                  "OAK_FORWARDED_MACHINE=" + machine, "sh", "-c", script, "oak", argv);
  }

  /** The refusal inside the script, itself quoted once more with the rest of the script, is one argument of its printf. */
  lemma RefusalSplits(message: string, env: Environment)
    ensures Words("printf" + " " + (Quote("%s\n") + (" " + Quote(message))), None, env) == Some(["printf"] + (["%s\n"] + [message]))
  {
    assert Plain("printf") && Plain("");
    QuotedLast(message, env);
    QuotedThenBlank("", "%s\n", Quote(message), env);
    var tail := Quote("%s\n") + (" " + Quote(message));
    assert "" + tail == tail && "" + "%s\n" == "%s\n";
    PlainThenBlank("printf", tail, env);
  }

  // ---------- which arguments go there ----------

  predicate IsMachine(a: string)
  {
    a == "--machine" || "--machine=" <= a
  }

  function FirstMachine(args: seq<string>): (k: nat)
    ensures k <= |args| && (k < |args| ==> IsMachine(args[k]))
    ensures forall i | 0 <= i < k :: !IsMachine(args[i])
  {
    if args == [] || IsMachine(args[0]) then 0 else 1 + FirstMachine(args[1..])
  }

  /** `args.filter((_, i) => i !== at && (inline || i !== at + 1))`, from `i` on. */
  function Kept(args: seq<string>, at: nat, inline: bool, i: nat): seq<string>
    requires i <= |args|
    decreases |args| - i
  {
    if i == |args| then []
    else (if i != at && (inline || i != at + 1) then [args[i]] else []) + Kept(args, at, inline, i + 1)
  }

  datatype Route = NoLabel | Repeated | Route(machine: string, argv: seq<string>)

  predicate IsLabel(s: string)
  {
    s != "" && s[0] != '-'
  }

  /** The label and the arguments without it, or why there is none. */
  function Forward(args: seq<string>): Route
    requires FirstMachine(args) < |args|
  {
    var at := FirstMachine(args);
    var inline := "--machine=" <= args[at];
    var machine := if inline then args[at][|"--machine="|..] else if at + 1 < |args| then args[at + 1] else "";
    if !IsLabel(machine) then NoLabel
    else if FirstMachine(args[at + 1..]) < |args| - at - 1 then Repeated
    else Route(machine, Kept(args, at, inline, 0))
  }

  ghost predicate NoMachine(args: seq<string>)
  {
    forall i | 0 <= i < |args| :: !IsMachine(args[i])
  }

  lemma {:induction false} KeptAfter(args: seq<string>, at: nat, inline: bool, i: nat)
    requires at + (if inline then 1 else 2) <= i <= |args|
    ensures Kept(args, at, inline, i) == args[i..]
    decreases |args| - i
  {
    if i < |args| {
      KeptAfter(args, at, inline, i + 1);
      assert args[i..] == [args[i]] + args[i + 1..];
    }
  }

  lemma {:induction false} KeptFrom(args: seq<string>, at: nat, inline: bool, i: nat)
    requires i <= at && at + (if inline then 1 else 2) <= |args|
    ensures Kept(args, at, inline, i) == args[i..at] + args[at + (if inline then 1 else 2)..]
    decreases |args| - i
  {
    var n := if inline then 1 else 2;
    if i < at {
      KeptFrom(args, at, inline, i + 1);
      assert args[i..at] == [args[i]] + args[i + 1..at];
    } else {
      KeptAfter(args, at, inline, at + n);
      assert Kept(args, at, inline, at) == Kept(args, at, inline, at + 1);
      if !inline {
        assert Kept(args, at, inline, at + 1) == Kept(args, at, inline, at + 2);
      }
    }
  }

  lemma FirstMachineAt(pre: seq<string>, a: string, post: seq<string>)
    requires NoMachine(pre) && IsMachine(a)
    ensures FirstMachine(pre + [a] + post) == |pre|
  {
    var args := pre + [a] + post;
    assert args[|pre|] == a;
    assert forall i | 0 <= i < |pre| :: args[i] == pre[i];
  }

  lemma ApartTaken(pre: seq<string>, machine: string, post: seq<string>)
    requires NoMachine(pre) && NoMachine(post) && IsLabel(machine)
    ensures FirstMachine(pre + ["--machine"] + ([machine] + post)) == |pre|
    ensures Forward(pre + ["--machine"] + ([machine] + post)) == Route(machine, pre + post)
  {
    var args := pre + ["--machine"] + ([machine] + post);
    FirstMachineAt(pre, "--machine", [machine] + post);
    assert args[|pre| + 1] == machine && args[|pre| + 1..] == [machine] + post;
    assert machine[0] != "--machine"[0];
    KeptFrom(args, |pre|, false, 0);
    assert args[0..|pre|] == pre && args[|pre| + 2..] == post;
  }

  lemma InlineTaken(pre: seq<string>, machine: string, post: seq<string>)
    requires NoMachine(pre) && NoMachine(post) && IsLabel(machine)
    ensures FirstMachine(pre + ["--machine=" + machine] + post) == |pre|
    ensures Forward(pre + ["--machine=" + machine] + post) == Route(machine, pre + post)
  {
    var flag := "--machine=" + machine;
    var args := pre + [flag] + post;
    FirstMachineAt(pre, flag, post);
    assert args[|pre|] == flag && flag[|"--machine="|..] == machine;
    assert args[|pre| + 1..] == post;
    KeptFrom(args, |pre|, true, 0);
    assert args[0..|pre|] == pre;
  }

  /** A label written after the flag or with it: exactly that is taken out. */
  lemma ForwardTakesThePair(pre: seq<string>, machine: string, post: seq<string>)
    requires NoMachine(pre) && NoMachine(post) && IsLabel(machine)
    ensures FirstMachine(pre + ["--machine"] + ([machine] + post)) == |pre|
    ensures Forward(pre + ["--machine"] + ([machine] + post)) == Route(machine, pre + post)
    ensures FirstMachine(pre + ["--machine=" + machine] + post) == |pre|
    ensures Forward(pre + ["--machine=" + machine] + post) == Route(machine, pre + post)
  {
    ApartTaken(pre, machine, post);
    InlineTaken(pre, machine, post);
  }

  /** And nothing is forwarded otherwise: a route means the arguments had one label, in one of the two spellings. */
  lemma ForwardHadThePair(args: seq<string>) returns (pre: seq<string>, post: seq<string>)
    requires FirstMachine(args) < |args| && Forward(args).Route?
    ensures NoMachine(pre) && NoMachine(post) && IsLabel(Forward(args).machine) && Forward(args).argv == pre + post
    ensures args == pre + ["--machine"] + ([Forward(args).machine] + post) || args == pre + ["--machine=" + Forward(args).machine] + post
  {
    var at := FirstMachine(args);
    var inline := "--machine=" <= args[at];
    pre, post := args[..at], args[at + (if inline then 1 else 2)..];
    KeptFrom(args, at, inline, 0);
    assert args[0..at] == pre;
    var rest := args[at + 1..];
    assert NoMachine(rest);
    assert args == pre + [args[at]] + rest;
    if inline {
      assert args[at] == "--machine=" + args[at][|"--machine="|..];
    } else {
      assert rest == [args[at + 1]] + post;
      assert post == rest[1..];
    }
  }

  // ---------- the receipt ----------

  predicate IsDigit(c: char)
  {
    '0' <= c <= '9'
  }

  predicate IsDigits(s: string)
  {
    s != "" && forall i | 0 <= i < |s| :: IsDigit(s[i])
  }

  /** How many digits a text ends with. */
  function TrailingDigits(s: string): (n: nat)
    ensures n <= |s| && (forall i | |s| - n <= i < |s| :: IsDigit(s[i])) && (n < |s| ==> !IsDigit(s[|s| - n - 1]))
  {
    if s == "" || !IsDigit(s[|s| - 1]) then 0 else 1 + TrailingDigits(s[..|s| - 1])
  }

  predicate EndsWith(s: string, end: string)
  {
    |end| <= |s| && s[|s| - |end|..] == end
  }

  /** The random part of a marker is hexadecimal; that it ends in a colon is what matters. */
  function Marker(random: string): string
  {
    "OAK_EXIT_" + random + ":"
  }

  function Missing(random: string): string
  {
    "\n" + Marker(random) + "missing\n"
  }

  function Receipt(random: string, status: string): string
  {
    "\n" + Marker(random) + status + "\n"
  }

  /** The digits of the receipt a text ends with. */
  function FindReceipt(err: string, random: string): Option<string>
  {
    if !EndsWith(err, "\n") then None
    else
      var front := err[..|err| - 1];
      var n := TrailingDigits(front);
      if n > 0 && EndsWith(front[..|front| - n], "\n" + Marker(random)) then Some(front[|front| - n..]) else None
  }

  datatype Stripped = Stripped(err: string, missing: bool, receipt: Option<string>)

  lemma ReceiptIsAtTheEnd(err: string, random: string)
    ensures FindReceipt(err, random).Some? ==>
              var r := Receipt(random, FindReceipt(err, random).value);
              EndsWith(err, r) && IsDigits(FindReceipt(err, random).value)
  {
    if FindReceipt(err, random).Some? {
      var front := err[..|err| - 1];
      var n := TrailingDigits(front);
      var digits, head, mark := front[|front| - n..], front[..|front| - n], "\n" + Marker(random);
      var pre := head[..|head| - |mark|];
      assert head == pre + mark;
      assert err == front + "\n" && front == head + digits;
      assert err == pre + Receipt(random, digits);
    }
  }

  function Strip(err: string, random: string): Stripped
  {
    var missing := EndsWith(err, Missing(random));
    var rest := if missing then err[..|err| - |Missing(random)|] else err;
    var receipt := FindReceipt(rest, random);
    ReceiptIsAtTheEnd(rest, random);
    Stripped(if receipt.None? then rest else rest[..|rest| - |Receipt(random, receipt.value)|], missing, receipt)
  }

  lemma TrailingDigitsOf(head: string, digits: string)
    requires IsDigits(digits) && head != "" && !IsDigit(head[|head| - 1])
    ensures TrailingDigits(head + digits) == |digits|
  {
    var s := head + digits;
    var n := TrailingDigits(s);
    assert !IsDigit(s[|head| - 1]);
    assert forall i | 0 <= i < |digits| :: s[|head| + i] == digits[i];
  }

  lemma FindsReceipt(pre: string, random: string, status: string)
    requires IsDigits(status)
    ensures FindReceipt(pre + Receipt(random, status), random) == Some(status)
  {
    var err := pre + Receipt(random, status);
    var head, front := pre + ("\n" + Marker(random)), err[..|err| - 1];
    assert front == head + status;
    assert head[|head| - 1] == ':';
    TrailingDigitsOf(head, status);
    assert front[..|front| - |status|] == head && front[|front| - |status|..] == status;
    assert head[|pre|..] == "\n" + Marker(random);
  }

  lemma ReceiptIsNotMissing(pre: string, random: string, status: string)
    requires IsDigits(status)
    ensures !EndsWith(pre + Receipt(random, status), Missing(random))
  {
    var err := pre + Receipt(random, status);
    assert err[|err| - 2] == status[|status| - 1];
    assert Missing(random)[|Missing(random)| - 2] == 'g';
  }

  /**
   What the program wrote and then its receipt: exactly that text and that status come out, whatever the
   text, be it another receipt.
   */
  lemma ReceiptRoundTrip(err: string, random: string, status: string)
    requires IsDigits(status)
    ensures Strip(err + Receipt(random, status), random) == Stripped(err, false, Some(status))
  {
    var all := err + Receipt(random, status);
    FindsReceipt(err, random, status);
    ReceiptIsNotMissing(err, random, status);
    assert all[..|all| - |Receipt(random, status)|] == err;
  }

  /** The text ends with the receipt of some status. */
  ghost predicate HasReceipt(err: string, random: string)
  {
    exists status :: IsDigits(status) && EndsWith(err, Receipt(random, status))
  }

  lemma FindsTheReceipt(err: string, random: string, status: string)
    requires IsDigits(status) && EndsWith(err, Receipt(random, status))
    ensures FindReceipt(err, random) == Some(status)
  {
    var pre := err[..|err| - |Receipt(random, status)|];
    assert err == pre + Receipt(random, status);
    FindsReceipt(pre, random, status);
  }

  lemma FoundExactly(err: string, random: string)
    ensures FindReceipt(err, random).Some? <==> HasReceipt(err, random)
  {
    ReceiptIsAtTheEnd(err, random);
    if HasReceipt(err, random) {
      var status :| IsDigits(status) && EndsWith(err, Receipt(random, status));
      FindsTheReceipt(err, random, status);
    }
  }

  /** What stands before the marker of a missing program, if there is one. */
  function BeforeMissing(err: string, random: string): string
  {
    if EndsWith(err, Missing(random)) then err[..|err| - |Missing(random)|] else err
  }

  /** The three parts of a stripped text. */
  lemma StripParts(err: string, random: string)
    ensures var s, rest := Strip(err, random), BeforeMissing(err, random);
            && s.missing == EndsWith(err, Missing(random)) && s.receipt == FindReceipt(rest, random)
            && (if s.receipt.None? then s.err == rest else IsDigits(s.receipt.value) && rest == s.err + Receipt(random, s.receipt.value))
  {
    ReceiptIsAtTheEnd(BeforeMissing(err, random), random);
  }

  /** A text is left alone exactly when it ends with neither. */
  lemma StripLeavesTheRest(err: string, random: string)
    ensures Strip(err, random) == Stripped(err, false, None) <==> !EndsWith(err, Missing(random)) && !HasReceipt(err, random)
  {
    StripParts(err, random);
    FoundExactly(err, random);
  }

  // ---------- the result ----------

  datatype Outcome = Refused(status: int) | Passed(err: string, status: int)

  /** What the caller gets; `looksAbsent` is the pattern for shells that found no `oak`. */
  function Settle(timedOut: bool, code: Option<int>, err: string, random: string, looksAbsent: string -> bool): Outcome
  {
    var s := Strip(err, random);
    if timedOut then Refused(124)
    else if code == Some(255) && s.receipt.None? then Refused(255)
    else if code == Some(127) && (s.missing || (s.receipt.None? && looksAbsent(s.err))) then Refused(127)
    else Passed(s.err, if code.None? then 1 else code.value)
  }

  /**
   When a result is refused, and as what: the timer fired; ssh's own 255, which no receipt came with; or a 127
   where the program is missing, as its marker says or, without a receipt, the shell.  Every other is passed on.
   */
  lemma RefusedExactly(timedOut: bool, code: Option<int>, err: string, random: string, looksAbsent: string -> bool)
    ensures var outcome, rest := Settle(timedOut, code, err, random, looksAbsent), BeforeMissing(err, random);
            var unreachable := code == Some(255) && !HasReceipt(rest, random);
            var absent := code == Some(127) && (EndsWith(err, Missing(random)) || (!HasReceipt(err, random) && looksAbsent(err)));
            && (outcome == Refused(124) <==> timedOut)
            && (outcome == Refused(255) <==> !timedOut && unreachable)
            && (outcome == Refused(127) <==> !timedOut && absent)
            && (!timedOut && !unreachable && !absent ==>
                  && outcome.Passed? && outcome.status == (if code.Some? then code.value else 1)
                  && if HasReceipt(rest, random) then exists status :: IsDigits(status) && rest == outcome.err + Receipt(random, status)
                     else outcome.err == rest)
  {
    StripParts(err, random);
    FoundExactly(BeforeMissing(err, random), random);
  }

  /** A program that ran to its end in time has its error output and its status handed back, 127 and 255 like any other. */
  lemma EveryResultPasses(err: string, random: string, status: string, code: int, looksAbsent: string -> bool)
    requires IsDigits(status)
    ensures Settle(false, Some(code), err + Receipt(random, status), random, looksAbsent) == Passed(err, code)
  {
    ReceiptRoundTrip(err, random, status);
  }

  /** `Buffer.concat`. */
  function Text(chunks: seq<string>): string
  {
    if chunks == [] then "" else chunks[0] + Text(chunks[1..])
  }

  lemma {:induction false} TextSnoc(chunks: seq<string>, chunk: string)
    ensures Text(chunks + [chunk]) == Text(chunks) + chunk
    decreases |chunks|
  {
    if chunks == [] {
      assert [chunk][1..] == [];
    } else {
      TextSnoc(chunks[1..], chunk);
      assert (chunks + [chunk])[1..] == chunks[1..] + [chunk];
    }
  }

  /** The other side of the connection: chunks come in, the timer may fire, and the process closes. */
  class Forwarding {
    const random: string
    const looksAbsent: string -> bool
    var errChunks: seq<string>
    var timedOut: bool

    constructor (random: string, looksAbsent: string -> bool)
      ensures this.random == random && this.looksAbsent == looksAbsent && errChunks == [] && !timedOut
    {
      this.random, this.looksAbsent := random, looksAbsent;
      errChunks, timedOut := [], false;
    }

    method Data(chunk: string)
      modifies this`errChunks
      ensures errChunks == old(errChunks) + [chunk] && Text(errChunks) == old(Text(errChunks)) + chunk
    {
      errChunks := errChunks + [chunk];
      TextSnoc(old(errChunks), chunk);
    }

    method TimeOut()
      modifies this`timedOut
      ensures timedOut
    {
      timedOut := true;
    }

    method Close(code: Option<int>) returns (outcome: Outcome)
      ensures outcome == Settle(timedOut, code, Text(errChunks), random, looksAbsent)
    {
      var err := Text(errChunks);
      var s := Strip(err, random);
      if timedOut {
        return Refused(124);
      }
      if code == Some(255) && s.receipt.None? {
        return Refused(255);
      }
      if code == Some(127) && (s.missing || (s.receipt.None? && looksAbsent(s.err))) {
        return Refused(127);
      }
      outcome := Passed(s.err, if code.None? then 1 else code.value);
    }
  }
}
