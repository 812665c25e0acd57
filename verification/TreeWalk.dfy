/**
 The bounded walk of a working tree, the snapshot a Bash command's Pre takes with it, and the records its
 Post infers by walking again.

 A tree is a finite value and stands still during one walk; it may change freely between Pre and Post.
 A path is the list of its names, so "at or beneath" is the prefix order.  Content hashes are injective
 names of contents; a file without one cannot be recorded (oversized text, unreadable).
 */
module TreeWalk {
  import opened Basics

  type Name = string
  type Path = seq<Name>
  type Hash = string

  const MAX_FILES: nat := 4000
  const EMPTY_FILE: Hash := "empty"

  /**
   A directory may be readable, which listing it needs, without being searchable, which reaching through it
   needs, and the other way round.  Anything else, a link say, is never walked; `nothing` are the paths
   through it at which the system finds no such file (all of them, when the root itself is gone).
   */
  datatype Node =
    | File(hash: Option<Hash>)
    | Dir(readable: bool, searchable: bool, entries: seq<Entry>)
    | Other(nothing: Path -> bool)
  datatype Entry = Entry(name: Name, node: Node)

  /** Names are unique within every directory. */
  ghost predicate WellFormed(n: Node)
    decreases n
  {
    n.Dir? ==>
      && (forall i, j | 0 <= i < j < |n.entries| :: n.entries[i].name != n.entries[j].name)
      && (forall i | 0 <= i < |n.entries| :: WellFormed(n.entries[i].node))
  }

  function Find(entries: seq<Entry>, name: Name): Option<Node>
  {
    if entries == [] then None
    else if entries[0].name == name then Some(entries[0].node)
    else Find(entries[1..], name)
  }

  /** What stands at `rel` beneath a node. */
  function Lookup(n: Node, rel: Path): Option<Node>
    decreases |rel|
  {
    if rel == [] then Some(n)
    else if !n.Dir? || Find(n.entries, rel[0]).None? then None
    else Lookup(Find(n.entries, rel[0]).value, rel[1..])
  }

  /** `lstat` says that there is no such file, which it says of nothing it cannot reach. */
  predicate LstatMissing(n: Node, rel: Path)
    decreases |rel|
  {
    rel != [] &&
    match n
    case File(_) => false
    case Other(nothing) => nothing(rel)
    case Dir(_, searchable, entries) =>
      searchable &&
      var child := Find(entries, rel[0]);
      if child.None? then true else LstatMissing(child.value, rel[1..])
  }

  /** Whatever is left on the way to a path lets `lstat` see what stands, or no longer stands, there. */
  ghost predicate OpenWay(n: Node, rel: Path)
  {
    forall k | 0 <= k < |rel| && Lookup(n, rel[..k]).Some? ::
      match Lookup(n, rel[..k]).value
      case File(_) => false
      case Dir(_, searchable, _) => searchable
      case Other(nothing) => nothing(rel[k..])
  }

  /** What the walk leaves out, and the file names it never hashes. */
  datatype Rules = Rules(skippedDir: Name -> bool, ignored: (Path, bool) -> bool, secret: Name -> bool,
                         blankOnly: (Hash, Hash) -> bool)

  /** Some listed path is the path or an ancestor of it. */
  predicate Covers(list: seq<Path>, p: Path)
  {
    exists q | q in list :: q <= p
  }

  // ---------- facts about trees ----------

  lemma {:induction false} FindEntry(entries: seq<Entry>, i: nat)
    requires i < |entries|
    requires forall j, k | 0 <= j < k < |entries| :: entries[j].name != entries[k].name
    ensures Find(entries, entries[i].name) == Some(entries[i].node)
    decreases |entries|
  {
    if i > 0 {
      FindEntry(entries[1..], i - 1);
    }
  }

  lemma {:induction false} FoundIsEntry(entries: seq<Entry>, name: Name)
    requires Find(entries, name).Some?
    ensures exists i | 0 <= i < |entries| :: entries[i] == Entry(name, Find(entries, name).value)
    decreases |entries|
  {
    if entries[0].name != name {
      FoundIsEntry(entries[1..], name);
      var i :| 0 <= i < |entries[1..]| && entries[1..][i] == Entry(name, Find(entries, name).value);
      assert entries[i + 1] == Entry(name, Find(entries, name).value);
    } else {
      assert entries[0] == Entry(name, Find(entries, name).value);
    }
  }

  lemma {:induction false} LookupAppend(n: Node, a: Path, b: Path)
    ensures Lookup(n, a + b) ==
            match Lookup(n, a) case None => None case Some(m) => Lookup(m, b)
    decreases |a|
  {
    if a == [] {
      assert a + b == b;
    } else if n.Dir? && Find(n.entries, a[0]).Some? {
      LookupAppend(Find(n.entries, a[0]).value, a[1..], b);
      assert (a + b)[1..] == a[1..] + b;
    }
  }

  lemma {:induction false} LookupWellFormed(n: Node, rel: Path)
    requires WellFormed(n) && Lookup(n, rel).Some?
    ensures WellFormed(Lookup(n, rel).value)
    decreases |rel|
  {
    if rel != [] {
      FoundIsEntry(n.entries, rel[0]);
      LookupWellFormed(Find(n.entries, rel[0]).value, rel[1..]);
    }
  }

  lemma OpenWayStep(n: Node, rel: Path)
    requires rel != [] && n.Dir?
    ensures OpenWay(n, rel) <==>
            n.searchable && (Find(n.entries, rel[0]).None? || OpenWay(Find(n.entries, rel[0]).value, rel[1..]))
  {
    var child := Find(n.entries, rel[0]);
    assert rel[..0] == [];
    forall k | 1 <= k < |rel|
      ensures Lookup(n, rel[..k]) == if child.None? then None else Lookup(child.value, rel[1..][..k - 1])
      ensures rel[k..] == rel[1..][k - 1..]
    {
      assert rel[..k][1..] == rel[1..][..k - 1];
    }
    if child.Some? && OpenWay(n, rel) {
      forall k | 0 <= k < |rel| - 1 ensures Lookup(child.value, rel[1..][..k]) == Lookup(n, rel[..k + 1]) {
        assert rel[..k + 1][1..] == rel[1..][..k];
      }
    }
  }

  /** Nothing stands there, and the way to it is open: exactly then `lstat` says so. */
  lemma {:induction false} MissingExactly(n: Node, rel: Path)
    ensures LstatMissing(n, rel) <==> Lookup(n, rel).None? && OpenWay(n, rel)
    decreases |rel|
  {
    if rel != [] {
      assert rel[..0] == [] && rel[0..] == rel;
      if n.Dir? {
        OpenWayStep(n, rel);
        if Find(n.entries, rel[0]).Some? {
          MissingExactly(Find(n.entries, rel[0]).value, rel[1..]);
        }
      }
    }
  }

  /** An entry of a directory stands one name below it. */
  lemma LookupEntry(tree: Node, rel: Path, i: nat)
    requires WellFormed(tree) && Lookup(tree, rel).Some? && Lookup(tree, rel).value.Dir?
    requires i < |Lookup(tree, rel).value.entries|
    ensures var e := Lookup(tree, rel).value.entries[i]; Lookup(tree, rel + [e.name]) == Some(e.node)
  {
    var d := Lookup(tree, rel).value;
    LookupWellFormed(tree, rel);
    FindEntry(d.entries, i);
    LookupAppend(tree, rel, [d.entries[i].name]);
  }

  /** What is found strictly beneath a directory is found through one of its entries. */
  lemma BeneathIsThroughEntry(tree: Node, rel: Path, below: Path)
    requires Lookup(tree, rel).Some? && Lookup(tree, rel).value.Dir?
    requires rel < below && Lookup(tree, below).Some?
    ensures exists i | 0 <= i < |Lookup(tree, rel).value.entries| ::
              rel + [Lookup(tree, rel).value.entries[i].name] <= below
  {
    var d := Lookup(tree, rel).value;
    assert below == rel + below[|rel|..];
    LookupAppend(tree, rel, below[|rel|..]);
    FoundIsEntry(d.entries, below[|rel|]);
  }

  function Size(n: Node): (s: nat)
    ensures s > 0
    decreases n, 1
  {
    if n.Dir? then 1 + Sizes(n.entries) else 1
  }

  function Sizes(es: seq<Entry>): nat
    decreases es, 0
  {
    if es == [] then 0 else Size(es[0].node) + Sizes(es[1..])
  }

  // ---------- the walk ----------

  function At(tree: Node, root: Path, p: Path): Option<Node>
  {
    if root <= p then Lookup(tree, p[|root|..]) else None
  }

  predicate FileAt(tree: Node, root: Path, p: Path)
  {
    var n := At(tree, root, p);
    n.Some? && n.value.File?
  }

  function ChildPaths(dir: Path, entries: seq<Entry>): seq<Path>
  {
    if entries == [] then [] else [dir + [entries[0].name]] + ChildPaths(dir, entries[1..])
  }

  function BaseName(p: Path): Name
  {
    if p == [] then "" else p[|p| - 1]
  }

  predicate ReadableDir(tree: Node, root: Path, d: Path)
  {
    var n := At(tree, root, d);
    n.Some? && n.value.Dir? && n.value.readable
  }

  /** The directory `k` names down the path can be read, and below the root no rule leaves it out. */
  predicate OpenAt(rules: Rules, tree: Node, root: Path, d: Path, k: nat)
    requires k <= |d|
  {
    && ReadableDir(tree, root, d[..k])
    && (k > |root| ==> !rules.skippedDir(d[k - 1]) && !rules.ignored(d[..k], true))
  }

  /** Every directory from the root down to `d` is open. */
  ghost predicate Entered(rules: Rules, tree: Node, root: Path, d: Path)
  {
    root <= d && forall k: nat | |root| <= k <= |d| :: OpenAt(rules, tree, root, d, k)
  }

  /** It stands in a directory that is entered. */
  ghost predicate Met(rules: Rules, tree: Node, root: Path, p: Path)
  {
    root < p && At(tree, root, p).Some? && Entered(rules, tree, root, p[..|p| - 1])
  }

  /** A regular file that the walk comes to and that no rule ignores. */
  ghost predicate Listed(rules: Rules, tree: Node, root: Path, p: Path)
  {
    Met(rules, tree, root, p) && FileAt(tree, root, p) && !rules.ignored(p, false)
  }

  /**
   What the walk comes to and leaves out: a directory that a rule names or that cannot be read, an ignored file,
   and whatever is neither.
   */
  ghost predicate LeftOut(rules: Rules, tree: Node, root: Path, p: Path)
  {
    || (p == root && !ReadableDir(tree, root, root))
    || (Met(rules, tree, root, p) &&
        match At(tree, root, p).value
        case Dir(readable, _, _) => !readable || rules.skippedDir(BaseName(p)) || rules.ignored(p, true)
        case File(_) => rules.ignored(p, false)
        case Other(_) => true)
  }

  /** Waiting on the stack: the root, or a directory that no rule leaves out. */
  ghost predicate Reached(rules: Rules, tree: Node, root: Path, d: Path)
  {
    || d == root
    || (Met(rules, tree, root, d) && At(tree, root, d).value.Dir? &&
        !rules.skippedDir(BaseName(d)) && !rules.ignored(d, true))
  }

  lemma OpenAtPrefix(rules: Rules, tree: Node, root: Path, d: Path, q: Path, k: nat)
    requires q <= d && k <= |q|
    ensures OpenAt(rules, tree, root, q, k) <==> OpenAt(rules, tree, root, d, k)
  {
    assert q[..k] == d[..k];
    assert k > 0 ==> q[k - 1] == d[k - 1];
  }

  lemma EnteredPrefix(rules: Rules, tree: Node, root: Path, d: Path, q: Path)
    requires Entered(rules, tree, root, d) && root <= q <= d
    ensures Entered(rules, tree, root, q)
  {
    forall k: nat | |root| <= k <= |q| ensures OpenAt(rules, tree, root, q, k) {
      OpenAtPrefix(rules, tree, root, d, q, k);
    }
  }

  lemma ReachedIsEntered(rules: Rules, tree: Node, root: Path, d: Path)
    requires Reached(rules, tree, root, d) && ReadableDir(tree, root, d)
    ensures Entered(rules, tree, root, d)
  {
    forall k: nat | |root| <= k <= |d| ensures OpenAt(rules, tree, root, d, k) {
      if k < |d| {
        OpenAtPrefix(rules, tree, root, d, d[..|d| - 1], k);
      } else {
        assert d[..k] == d;
      }
    }
  }

  lemma LeftOutIsNotEntered(rules: Rules, tree: Node, root: Path, p: Path)
    requires LeftOut(rules, tree, root, p)
    ensures !Entered(rules, tree, root, p)
  {
    assert p[..|p|] == p;
    assert !OpenAt(rules, tree, root, p, |p|);
  }

  lemma FileIsNotEntered(rules: Rules, tree: Node, root: Path, p: Path)
    requires FileAt(tree, root, p)
    ensures !Entered(rules, tree, root, p)
  {
    assert p[..|p|] == p;
    assert !OpenAt(rules, tree, root, p, |p|);
  }

  /** What stands there and is not entered is listed, excluded with or under something, or still to be reached. */
  ghost predicate Accounted(rules: Rules, tree: Node, root: Path, files: seq<Path>, excluded: seq<Path>, pending: seq<Path>)
  {
    forall p: Path | At(tree, root, p).Some? && !Entered(rules, tree, root, p) ::
      p in files || Covers(excluded, p) || Covers(pending, p)
  }

  /** Nothing is listed, left out or on the stack without reason. */
  ghost predicate Justified(rules: Rules, tree: Node, root: Path, files: seq<Path>, excluded: seq<Path>, stack: seq<Path>)
  {
    && (forall p | p in files :: Listed(rules, tree, root, p))
    && (forall p | p in excluded :: LeftOut(rules, tree, root, p))
    && (forall p | p in stack :: Reached(rules, tree, root, p))
  }

  ghost predicate AllFiles(tree: Node, root: Path, files: seq<Path>)
  {
    forall f | f in files :: FileAt(tree, root, f)
  }

  function Weight(tree: Node, root: Path, stack: seq<Path>): nat
  {
    if stack == [] then 0
    else
      var n := At(tree, root, stack[|stack| - 1]);
      Weight(tree, root, stack[..|stack| - 1]) + (if n.Some? then Size(n.value) else 0)
  }

  lemma WeightPush(tree: Node, root: Path, stack: seq<Path>, d: Path)
    ensures var n := At(tree, root, d);
            Weight(tree, root, stack + [d]) == Weight(tree, root, stack) + (if n.Some? then Size(n.value) else 0)
  {
    assert (stack + [d])[..|stack|] == stack;
  }

  lemma CoversAppend(a: seq<Path>, b: seq<Path>, p: Path)
    ensures Covers(a + b, p) <==> Covers(a, p) || Covers(b, p)
  {
    if Covers(a, p) {
      var q :| q in a && q <= p;
      assert q in a + b;
    }
    if Covers(b, p) {
      var q :| q in b && q <= p;
      assert q in a + b;
    }
  }

  lemma CoversOne(q: Path, p: Path)
    ensures Covers([q], p) <==> q <= p
  {
    assert q in [q];
  }

  lemma {:induction false} ChildCovers(dir: Path, entries: seq<Entry>, i: nat, p: Path)
    requires i < |entries| && dir + [entries[i].name] <= p
    ensures Covers(ChildPaths(dir, entries), p)
    decreases |entries|
  {
    CoversAppend([dir + [entries[0].name]], ChildPaths(dir, entries[1..]), p);
    if i == 0 {
      CoversOne(dir + [entries[0].name], p);
    } else {
      ChildCovers(dir, entries[1..], i - 1, p);
    }
  }

  lemma AtChild(tree: Node, root: Path, dir: Path, i: nat)
    requires WellFormed(tree) && root <= dir && At(tree, root, dir).Some? && At(tree, root, dir).value.Dir?
    requires i < |At(tree, root, dir).value.entries|
    ensures var e := At(tree, root, dir).value.entries[i]; At(tree, root, dir + [e.name]) == Some(e.node)
  {
    LookupEntry(tree, dir[|root|..], i);
    var name := At(tree, root, dir).value.entries[i].name;
    assert (dir + [name])[|root|..] == dir[|root|..] + [name];
  }

  lemma MetChild(rules: Rules, tree: Node, root: Path, dir: Path, i: nat)
    requires WellFormed(tree) && root <= dir && At(tree, root, dir).Some? && At(tree, root, dir).value.Dir?
    requires Entered(rules, tree, root, dir) && i < |At(tree, root, dir).value.entries|
    ensures var full := dir + [At(tree, root, dir).value.entries[i].name];
            Met(rules, tree, root, full) && BaseName(full) == At(tree, root, dir).value.entries[i].name
  {
    AtChild(tree, root, dir, i);
    var full := dir + [At(tree, root, dir).value.entries[i].name];
    assert full[..|full| - 1] == dir && root < full;
  }

  /** Opening a readable directory: what it covered, its children cover. */
  lemma OpenDirectory(rules: Rules, tree: Node, root: Path, files: seq<Path>, excluded: seq<Path>, rest: seq<Path>, dir: Path)
    requires WellFormed(tree) && root <= dir && At(tree, root, dir).Some? && At(tree, root, dir).value.Dir?
    requires Accounted(rules, tree, root, files, excluded, rest + [dir]) && Entered(rules, tree, root, dir)
    ensures Accounted(rules, tree, root, files, excluded, rest + ChildPaths(dir, At(tree, root, dir).value.entries))
  {
    var entries := At(tree, root, dir).value.entries;
    forall p: Path | At(tree, root, p).Some? && !Entered(rules, tree, root, p)
      ensures p in files || Covers(excluded, p) || Covers(rest + ChildPaths(dir, entries), p)
    {
      CoversAppend(rest, [dir], p);
      CoversAppend(rest, ChildPaths(dir, entries), p);
      CoversOne(dir, p);
      if dir <= p && p != dir {
        var rel, below := dir[|root|..], p[|root|..];
        assert rel <= below;
        BeneathIsThroughEntry(tree, rel, below);
        var i :| 0 <= i < |entries| && rel + [entries[i].name] <= below;
        assert dir + [entries[i].name] == root + (rel + [entries[i].name]);
        assert p == root + below;
        ChildCovers(dir, entries, i, p);
      }
    }
  }

  /**
   In the midst of a walk: `stack` waits to be read, and `more` are the paths still to be seen in the directory
   at hand.
   */
  ghost predicate Walking(rules: Rules, tree: Node, root: Path, files: seq<Path>, excluded: seq<Path>,
                          stack: seq<Path>, more: seq<Path>)
  {
    Accounted(rules, tree, root, files, excluded, stack + more) && Justified(rules, tree, root, files, excluded, stack)
  }

  /** Leaving a path out: everything beneath it is excluded with it. */
  lemma LeaveOut(rules: Rules, tree: Node, root: Path, files: seq<Path>, excluded: seq<Path>, stack: seq<Path>, q: Path, more: seq<Path>)
    requires Walking(rules, tree, root, files, excluded, stack, [q] + more) && LeftOut(rules, tree, root, q)
    ensures Walking(rules, tree, root, files, excluded + [q], stack, more)
  {
    forall p: Path | At(tree, root, p).Some? && !Entered(rules, tree, root, p)
      ensures p in files || Covers(excluded + [q], p) || Covers(stack + more, p)
    {
      CoversAppend(stack, [q] + more, p);
      CoversAppend([q], more, p);
      CoversAppend(excluded, [q], p);
      CoversAppend(stack, more, p);
    }
  }

  /** Listing a regular file: nothing stands beneath it. */
  lemma ListFile(rules: Rules, tree: Node, root: Path, files: seq<Path>, excluded: seq<Path>, stack: seq<Path>, q: Path, more: seq<Path>)
    requires Walking(rules, tree, root, files, excluded, stack, [q] + more) && Listed(rules, tree, root, q)
    ensures Walking(rules, tree, root, files + [q], excluded, stack, more)
  {
    forall p: Path | At(tree, root, p).Some? && !Entered(rules, tree, root, p)
      ensures p in files + [q] || Covers(excluded, p) || Covers(stack + more, p)
    {
      CoversAppend(stack, [q] + more, p);
      CoversAppend([q], more, p);
      CoversOne(q, p);
      CoversAppend(stack, more, p);
      if q <= p {
        assert p[|root|..] == q[|root|..] + p[|q|..];
        LookupAppend(tree, q[|root|..], p[|q|..]);
        assert p == q;
      }
    }
  }

  /** Pushing a directory only reorders what is pending. */
  lemma PushDir(rules: Rules, tree: Node, root: Path, files: seq<Path>, excluded: seq<Path>, stack: seq<Path>, q: Path, more: seq<Path>)
    requires Walking(rules, tree, root, files, excluded, stack, [q] + more) && Reached(rules, tree, root, q)
    ensures Walking(rules, tree, root, files, excluded, stack + [q], more)
  {
    assert stack + ([q] + more) == (stack + [q]) + more;
  }

  lemma PopDir(rules: Rules, tree: Node, root: Path, files: seq<Path>, excluded: seq<Path>, rest: seq<Path>, dir: Path)
    requires Walking(rules, tree, root, files, excluded, rest + [dir], [])
    ensures Walking(rules, tree, root, files, excluded, rest, [dir] + [])
    ensures Reached(rules, tree, root, dir) && root <= dir && At(tree, root, dir).Some?
  {
    assert rest + [dir] + [] == rest + ([dir] + []);
    assert dir in rest + [dir];
    assert root[|root|..] == [];
  }

  lemma UnreadableIsLeftOut(rules: Rules, tree: Node, root: Path, dir: Path)
    requires Reached(rules, tree, root, dir) && !ReadableDir(tree, root, dir)
    ensures LeftOut(rules, tree, root, dir)
  {
  }

  lemma OpenDir(rules: Rules, tree: Node, root: Path, files: seq<Path>, excluded: seq<Path>, rest: seq<Path>, dir: Path)
    requires WellFormed(tree) && Walking(rules, tree, root, files, excluded, rest, [dir] + [])
    requires root <= dir && Entered(rules, tree, root, dir) && ReadableDir(tree, root, dir)
    ensures Walking(rules, tree, root, files, excluded, rest, ChildPaths(dir, At(tree, root, dir).value.entries))
  {
    assert [dir] + [] == [dir];
    OpenDirectory(rules, tree, root, files, excluded, rest, dir);
  }

  /** At first everything is still to be reached. */
  lemma RootPending(rules: Rules, tree: Node, root: Path)
    ensures Walking(rules, tree, root, [], [], [root], [])
    ensures Weight(tree, root, [root]) == Size(tree)
  {
    forall p: Path | At(tree, root, p).Some? && !Entered(rules, tree, root, p) ensures Covers([root] + [], p) {
      CoversAppend([root], [], p);
      CoversOne(root, p);
    }
    assert root[|root|..] == [];
    WeightPush(tree, root, [], root);
    assert [] + [root] == [root];
  }

  /** One entry of a directory. */
  method ReadEntry(rules: Rules, tree: Node, root: Path, full: Path, e: Entry, ghost more: seq<Path>,
                   stack0: seq<Path>, files0: seq<Path>, excluded0: seq<Path>)
      returns (stack: seq<Path>, files: seq<Path>, excluded: seq<Path>)
    requires Met(rules, tree, root, full) && At(tree, root, full) == Some(e.node) && BaseName(full) == e.name
    requires Walking(rules, tree, root, files0, excluded0, stack0, [full] + more)
    ensures Walking(rules, tree, root, files, excluded, stack, more)
    ensures |files0| <= |files| <= |files0| + 1
    ensures |files| + Weight(tree, root, stack) <= |files0| + Weight(tree, root, stack0) + Size(e.node)
  {
    stack, files, excluded := stack0, files0, excluded0;
    match e.node {
      case Dir(_, _, _) =>
        if !rules.skippedDir(e.name) && !rules.ignored(full, true) {
          PushDir(rules, tree, root, files, excluded, stack, full, more);
          WeightPush(tree, root, stack, full);
          stack := stack + [full];
        } else {
          LeaveOut(rules, tree, root, files, excluded, stack, full, more);
          excluded := excluded + [full];
        }
      case File(_) =>
        if rules.ignored(full, false) {
          LeaveOut(rules, tree, root, files, excluded, stack, full, more);
          excluded := excluded + [full];
        } else {
          ListFile(rules, tree, root, files, excluded, stack, full, more);
          files := files + [full];
        }
      case Other(_) =>
        LeaveOut(rules, tree, root, files, excluded, stack, full, more);
        excluded := excluded + [full];
    }
  }

  /** The entries of one directory, in the order the system lists them, up to the cap. */
  method ReadEntries(rules: Rules, tree: Node, root: Path, dir: Path, searchable: bool, entries: seq<Entry>,
                     stack0: seq<Path>, files0: seq<Path>, excluded0: seq<Path>)
      returns (stack: seq<Path>, files: seq<Path>, excluded: seq<Path>, fits: bool)
    requires WellFormed(tree) && root <= dir && At(tree, root, dir) == Some(Dir(true, searchable, entries))
    requires Entered(rules, tree, root, dir) && |files0| <= MAX_FILES
    requires Walking(rules, tree, root, files0, excluded0, stack0, ChildPaths(dir, entries))
    ensures Justified(rules, tree, root, files, excluded, stack)
    ensures fits ==> Walking(rules, tree, root, files, excluded, stack, [])
    ensures |files0| <= |files|
    ensures |files| + Weight(tree, root, stack) <= |files0| + Weight(tree, root, stack0) + Sizes(entries)
    ensures fits <==> |files| <= MAX_FILES
  {
    stack, files, excluded, fits := stack0, files0, excluded0, true;
    var i := 0;
    assert entries[0..] == entries;
    while i < |entries|
      invariant 0 <= i <= |entries| && |files0| <= |files| <= MAX_FILES
      invariant Walking(rules, tree, root, files, excluded, stack, ChildPaths(dir, entries[i..]))
      invariant |files| + Weight(tree, root, stack) + Sizes(entries[i..]) <= |files0| + Weight(tree, root, stack0) + Sizes(entries)
      decreases |entries| - i
    {
      var full := dir + [entries[i].name];
      ghost var more := ChildPaths(dir, entries[i + 1..]);
      assert entries[i..][1..] == entries[i + 1..];
      assert ChildPaths(dir, entries[i..]) == [full] + more;
      AtChild(tree, root, dir, i);
      MetChild(rules, tree, root, dir, i);
      stack, files, excluded := ReadEntry(rules, tree, root, full, entries[i], more, stack, files, excluded);
      if |files| > MAX_FILES {
        fits := false;
        return;
      }
      i := i + 1;
    }
  }

  /** When nothing is pending, exactly what should be is listed, and exactly what should be is left out. */
  lemma WalkedExactly(rules: Rules, tree: Node, root: Path, files: seq<Path>, excluded: seq<Path>)
    requires Walking(rules, tree, root, files, excluded, [], [])
    ensures forall p :: p in files <==> Listed(rules, tree, root, p)
    ensures forall p :: p in excluded <==> LeftOut(rules, tree, root, p)
  {
    var none: seq<Path> := [];
    assert none + none == none;
    forall p | Listed(rules, tree, root, p) || LeftOut(rules, tree, root, p)
      ensures Listed(rules, tree, root, p) ==> p in files
      ensures LeftOut(rules, tree, root, p) ==> p in excluded
    {
      if LeftOut(rules, tree, root, p) {
        LeftOutIsNotEntered(rules, tree, root, p);
      } else {
        FileIsNotEntered(rules, tree, root, p);
      }
      if p !in files {
        var q :| q in excluded && q <= p;
        if q != p {
          EnteredPrefix(rules, tree, root, p[..|p| - 1], q);
          LeftOutIsNotEntered(rules, tree, root, q);
        }
      }
    }
  }

  lemma FilesAccounted(rules: Rules, tree: Node, root: Path, files: seq<Path>, excluded: seq<Path>, p: Path)
    requires Walking(rules, tree, root, files, excluded, [], []) && FileAt(tree, root, p)
    ensures p in files || Covers(excluded, p)
  {
    var none: seq<Path> := [];
    assert none + none == none;
    FileIsNotEntered(rules, tree, root, p);
  }

  /**
   The stack loop.  When it ends without meeting the cap, it has listed exactly the files that no rule leaves
   out, and excluded exactly what it came to and left out; so every regular file under the root is listed, or
   it or an ancestor is excluded.  A tree no larger than the cap never meets it.
   */
  method WalkCandidates(rules: Rules, tree: Node, root: Path)
      returns (complete: bool, files: seq<Path>, excluded: seq<Path>)
    requires WellFormed(tree)
    ensures AllFiles(tree, root, files)
    ensures complete ==> forall p :: p in files <==> Listed(rules, tree, root, p)
    ensures complete ==> forall p :: p in excluded <==> LeftOut(rules, tree, root, p)
    ensures complete ==> forall p: Path | FileAt(tree, root, p) :: p in files || Covers(excluded, p)
    ensures complete ==> |files| <= MAX_FILES
    ensures !complete ==> MAX_FILES < |files| <= Size(tree)
  {
    var stack := [root];
    complete, files, excluded := true, [], [];
    RootPending(rules, tree, root);
    while stack != []
      invariant Walking(rules, tree, root, files, excluded, stack, [])
      invariant |files| <= MAX_FILES && |files| + Weight(tree, root, stack) <= Size(tree)
      decreases Weight(tree, root, stack)
    {
      var dir, rest := stack[|stack| - 1], stack[..|stack| - 1];
      assert stack == rest + [dir];
      PopDir(rules, tree, root, files, excluded, rest, dir);
      WeightPush(tree, root, rest, dir);
      var node := At(tree, root, dir).value;
      if !node.Dir? || !node.readable {
        UnreadableIsLeftOut(rules, tree, root, dir);
        LeaveOut(rules, tree, root, files, excluded, rest, dir, []);
        excluded := excluded + [dir];
        stack := rest;
      } else {
        ReachedIsEntered(rules, tree, root, dir);
        OpenDir(rules, tree, root, files, excluded, rest, dir);
        stack, files, excluded, complete := ReadEntries(rules, tree, root, dir, node.searchable, node.entries, rest, files, excluded);
        if !complete {
          return;
        }
      }
    }
    WalkedExactly(rules, tree, root, files, excluded);
    forall p: Path | FileAt(tree, root, p) ensures p in files || Covers(excluded, p) {
      FilesAccounted(rules, tree, root, files, excluded, p);
    }
  }

  // ---------- the snapshot before a command ----------

  /** What Pre leaves for its Post; written only when the walk was complete. */
  datatype Manifest = Manifest(root: Path, files: map<Path, Hash>, excluded: seq<Path>)

  /** The snapshot's files are files of the tree with that content, and every other file is excluded. */
  ghost predicate Snapshots(m: Manifest, tree: Node)
  {
    && (forall p | p in m.files :: At(tree, m.root, p) == Some(File(Some(m.files[p]))))
    && (forall p: Path | FileAt(tree, m.root, p) :: p in m.files || Covers(m.excluded, p))
  }

  /** It is not a secret, and its content can be recorded. */
  predicate Recordable(rules: Rules, tree: Node, root: Path, p: Path)
  {
    FileAt(tree, root, p) && !rules.secret(BaseName(p)) && At(tree, root, p).value.hash.Some?
  }

  /** A file the walk lists and a snapshot holds. */
  ghost predicate Held(rules: Rules, tree: Node, root: Path, p: Path)
  {
    Listed(rules, tree, root, p) && Recordable(rules, tree, root, p)
  }

  /** A file the walk lists and a snapshot leaves out. */
  ghost predicate Withheld(rules: Rules, tree: Node, root: Path, p: Path)
  {
    Listed(rules, tree, root, p) && !Recordable(rules, tree, root, p)
  }

  /** The listed files, hashed; those that cannot be recorded are excluded like what the walk left out. */
  method HashFiles(rules: Rules, tree: Node, root: Path, files: seq<Path>, excluded0: seq<Path>)
      returns (hashed: map<Path, Hash>, excluded: seq<Path>)
    requires AllFiles(tree, root, files)
    ensures forall p :: p in hashed <==> p in files && Recordable(rules, tree, root, p)
    ensures forall p | p in hashed :: At(tree, root, p) == Some(File(Some(hashed[p])))
    ensures forall p :: p in excluded <==> p in excluded0 || (p in files && !Recordable(rules, tree, root, p))
  {
    hashed, excluded := map[], excluded0;
    var i := 0;
    while i < |files|
      invariant 0 <= i <= |files|
      invariant forall p :: p in hashed <==> p in files[..i] && Recordable(rules, tree, root, p)
      invariant forall p | p in hashed :: At(tree, root, p) == Some(File(Some(hashed[p])))
      invariant forall p :: p in excluded <==> p in excluded0 || (p in files[..i] && !Recordable(rules, tree, root, p))
    {
      var f := files[i];
      assert FileAt(tree, root, f);
      assert files[..i + 1] == files[..i] + [f];
      var hash := At(tree, root, f).value.hash;
      if rules.secret(BaseName(f)) || hash.None? {
        excluded := excluded + [f];
      } else {
        hashed := hashed[f := hash.value];
      }
      i := i + 1;
    }
    assert files[..|files|] == files;
  }

  /**
   The snapshot Pre takes, unless the tree is over the cap: the content of exactly the files that no rule leaves
   out and that can be recorded.  What the walk left out, and the other files it listed, are excluded.
   */
  method TakeSnapshot(rules: Rules, tree: Node, cwd: Path) returns (manifest: Option<Manifest>)
    requires WellFormed(tree)
    ensures manifest.Some? ==> manifest.value.root == cwd && Snapshots(manifest.value, tree)
    ensures manifest.Some? ==> forall p :: p in manifest.value.files <==> Held(rules, tree, cwd, p)
    ensures manifest.Some? ==>
              forall p :: p in manifest.value.excluded <==> LeftOut(rules, tree, cwd, p) || Withheld(rules, tree, cwd, p)
    ensures manifest.None? ==> MAX_FILES < Size(tree)
  {
    var complete, files, left := WalkCandidates(rules, tree, cwd);
    if !complete {
      return None;
    }
    var hashed, excluded := HashFiles(rules, tree, cwd, files, left);
    forall p: Path | FileAt(tree, cwd, p) ensures p in hashed || Covers(excluded, p) {
      if p in files {
        assert p in hashed || (p in excluded && p <= p);
      } else {
        var q :| q in left && q <= p;
        assert q in excluded;
      }
    }
    manifest := Some(Manifest(cwd, hashed, excluded));
  }

  /** A finished walk cannot speak for what is excluded, nor for what is not beneath its root. */
  predicate ProvesAbsent(root: Path, excluded: seq<Path>, has: bool, file: Path)
  {
    !has && root < file && !Covers(excluded, file)
  }

  /** What the snapshot proves absent is no regular file of the tree it was taken of. */
  lemma AbsenceIsSound(m: Manifest, tree: Node, file: Path)
    requires Snapshots(m, tree) && ProvesAbsent(m.root, m.excluded, file in m.files, file)
    ensures !FileAt(tree, m.root, file)
  {
  }

  // ---------- the records after it ----------

  /** One inferred edit: None before is a creation, None after a deletion. */
  datatype Record = Record(file: Path, before: Option<Hash>, after: Option<Hash>)

  function BeforeOf(m: Manifest, file: Path): Option<Hash>
  {
    if file in m.files then Some(m.files[file]) else None
  }

  predicate BlankOnly(rules: Rules, before: Option<Hash>, after: Hash)
  {
    before.Some? && rules.blankOnly(before.value, after)
  }

  /** A file the second walk hashed earns a record: its content changed, or it was provably not there. */
  predicate Changed(rules: Rules, m: Manifest, file: Path, after: Hash)
  {
    var before := BeforeOf(m, file);
    && (before.None? ==> ProvesAbsent(m.root, m.excluded, false, file) && after != EMPTY_FILE)
    && before != Some(after)
    && !BlankOnly(rules, before, after)
  }

  /** A file of the snapshot that the second walk did not reach earns one when `lstat` says it is gone. */
  predicate Gone(m: Manifest, tree: Node, file: Path)
    requires file in m.files
  {
    m.root <= file && LstatMissing(tree, file[|m.root|..]) && m.files[file] != EMPTY_FILE
  }

  /** What the second walk saw: every listed file that is no secret, with its content if it can be recorded. */
  ghost predicate Seen(rules: Rules, tree: Node, root: Path, files: seq<Path>, after: map<Path, Option<Hash>>)
  {
    && (forall p :: p in after <==> p in files && !rules.secret(BaseName(p)))
    && (forall p | p in after :: At(tree, root, p) == Some(File(after[p])))
  }

  method HashListed(rules: Rules, tree: Node, root: Path, files: seq<Path>) returns (after: map<Path, Option<Hash>>)
    requires AllFiles(tree, root, files)
    ensures Seen(rules, tree, root, files, after)
  {
    after := map[];
    var i := 0;
    while i < |files|
      invariant 0 <= i <= |files|
      invariant forall p :: p in after <==> p in files[..i] && !rules.secret(BaseName(p))
      invariant forall p | p in after :: At(tree, root, p) == Some(File(after[p]))
    {
      assert files[..i + 1] == files[..i] + [files[i]];
      assert FileAt(tree, root, files[i]);
      if !rules.secret(BaseName(files[i])) {
        after := after[files[i] := At(tree, root, files[i]).value.hash];
      }
      i := i + 1;
    }
    assert files[..|files|] == files;
  }

  ghost predicate OncePerFile(log: seq<Record>)
  {
    forall i, j | 0 <= i < j < |log| :: log[i].file != log[j].file
  }

  lemma AppendOnce(log: seq<Record>, r: Record)
    ensures OncePerFile(log) && (forall x | x in log :: x.file != r.file) ==> OncePerFile(log + [r])
  {
  }

  /** A file is passed over with a note: it cannot be read now, or nothing is known of it before. */
  predicate Skipped(m: Manifest, file: Path, now: Option<Hash>)
  {
    if now.None? then file in m.files else file !in m.files && !ProvesAbsent(m.root, m.excluded, false, file)
  }

  /** An empty file that appeared: counted, not recorded. */
  predicate EmptyNoise(m: Manifest, file: Path, now: Option<Hash>)
  {
    file !in m.files && now == Some(EMPTY_FILE) && ProvesAbsent(m.root, m.excluded, false, file)
  }

  /** The record a file seen by the second walk earns. */
  ghost predicate Earned(rules: Rules, m: Manifest, after: map<Path, Option<Hash>>, r: Record)
  {
    && r.file in after && after[r.file].Some? && r.after == after[r.file]
    && r.before == BeforeOf(m, r.file) && Changed(rules, m, r.file, after[r.file].value)
  }

  /** One file the second walk saw: its record, if it earns one, or the note about it. */
  method JudgeFile(rules: Rules, m: Manifest, file: Path, now: Option<Hash>) returns (r: Option<Record>, skipped: bool, empty: bool)
    ensures r.Some? <==> now.Some? && Changed(rules, m, file, now.value)
    ensures r.Some? ==> r == Some(Record(file, BeforeOf(m, file), now))
    ensures skipped <==> Skipped(m, file, now)
    ensures empty <==> EmptyNoise(m, file, now)
  {
    r, skipped, empty := None, false, false;
    if now.None? {
      skipped := file in m.files;
      return;
    }
    var before := BeforeOf(m, file);
    if file !in m.files && !ProvesAbsent(m.root, m.excluded, false, file) {
      skipped := true;
      return;
    }
    if before == now {
      return;
    }
    if before.None? && now.value == EMPTY_FILE {
      empty := true;
      return;
    }
    if BlankOnly(rules, before, now.value) {
      return;
    }
    r := Some(Record(file, before, now));
  }

  /** The files the second walk saw. */
  method JudgeSeen(rules: Rules, m: Manifest, after: map<Path, Option<Hash>>)
      returns (log: seq<Record>, skips: set<Path>, empties: set<Path>)
    ensures OncePerFile(log)
    ensures forall r :: r in log <==> Earned(rules, m, after, r)
    ensures forall p :: p in skips <==> p in after && Skipped(m, p, after[p])
    ensures forall p :: p in empties <==> p in after && EmptyNoise(m, p, after[p])
    ensures after == map[] ==> log == []
  {
    log, skips, empties := [], {}, {};
    var left := after.Keys;
    while left != {}
      invariant left <= after.Keys && OncePerFile(log)
      invariant forall r :: r in log <==> Earned(rules, m, after, r) && r.file !in left
      invariant forall p :: p in skips <==> p in after && p !in left && Skipped(m, p, after[p])
      invariant forall p :: p in empties <==> p in after && p !in left && EmptyNoise(m, p, after[p])
      invariant after == map[] ==> log == []
      decreases |left|
    {
      var file :| file in left;
      var r, skipped, empty := JudgeFile(rules, m, file, after[file]);
      left := left - {file};
      if r.Some? {
        AppendOnce(log, r.value);
        log := log + [r.value];
      }
      skips := skips + (if skipped then {file} else {});
      empties := empties + (if empty then {file} else {});
    }
  }

  /** The deletion that a file of the snapshot earns. */
  ghost predicate EarnedGone(m: Manifest, tree: Node, r: Record)
  {
    r.file in m.files && Gone(m, tree, r.file) && r == Record(r.file, Some(m.files[r.file]), None)
  }

  /** An empty file that is gone: counted, not recorded. */
  predicate EmptyGone(m: Manifest, tree: Node, file: Path)
    requires file in m.files
  {
    m.root <= file && LstatMissing(tree, file[|m.root|..]) && m.files[file] == EMPTY_FILE
  }

  /** The snapshot's files the second walk did not see. */
  method JudgeGone(m: Manifest, tree: Node, after: map<Path, Option<Hash>>, log0: seq<Record>)
      returns (log: seq<Record>, empties: set<Path>)
    requires OncePerFile(log0) && forall r | r in log0 :: r.file in after
    ensures OncePerFile(log)
    ensures forall r :: r in log <==> r in log0 || (r.file !in after && EarnedGone(m, tree, r))
    ensures forall p :: p in empties <==> p in m.files && p !in after && EmptyGone(m, tree, p)
  {
    log, empties := log0, {};
    var left := m.files.Keys;
    while left != {}
      invariant left <= m.files.Keys && OncePerFile(log)
      invariant forall r :: r in log <==> r in log0 || (r.file !in left && r.file !in after && EarnedGone(m, tree, r))
      invariant forall p :: p in empties <==> p in m.files && p !in left && p !in after && EmptyGone(m, tree, p)
      decreases |left|
    {
      var file :| file in left;
      left := left - {file};
      if file in after {
        continue;
      }
      if !(m.root <= file && LstatMissing(tree, file[|m.root|..])) {
        continue;
      }
      if m.files[file] == EMPTY_FILE {
        empties := empties + {file};
        continue;
      }
      AppendOnce(log, Record(file, Some(m.files[file]), None));
      log := log + [Record(file, Some(m.files[file]), None)];
    }
  }

  /** A record says what really happened between the two trees. */
  ghost predicate Truthful(root: Path, before: Node, tree: Node, r: Record)
  {
    && (match r.before
        case None => !FileAt(before, root, r.file)
        case Some(_) => At(before, root, r.file) == Some(File(r.before)))
    && (match r.after
        case None => At(tree, root, r.file) == None
        case Some(_) => At(tree, root, r.file) == Some(File(r.after)))
    && r.before != r.after
  }

  /** Nothing about this file, as the second walk found it, went by in silence. */
  ghost predicate Settled(rules: Rules, m: Manifest, log: seq<Record>, skips: set<Path>, empties: set<Path>,
                          file: Path, now: Option<Hash>)
  {
    match now
    case None => file in m.files ==> file in skips
    case Some(sha) =>
      || Record(file, BeforeOf(m, file), now) in log
      || BeforeOf(m, file) == now
      || BlankOnly(rules, BeforeOf(m, file), sha)
      || (file !in m.files && (file in skips || file in empties))
  }

  lemma SeenIsTruthful(rules: Rules, m: Manifest, before: Node, tree: Node, files: seq<Path>,
                       after: map<Path, Option<Hash>>, r: Record)
    requires Snapshots(m, before) && Seen(rules, tree, m.root, files, after)
    requires Earned(rules, m, after, r)
    ensures Truthful(m.root, before, tree, r)
  {
    if r.before.None? {
      AbsenceIsSound(m, before, r.file);
    }
  }

  lemma GoneIsTruthful(m: Manifest, before: Node, tree: Node, r: Record)
    requires Snapshots(m, before) && EarnedGone(m, tree, r)
    ensures Truthful(m.root, before, tree, r)
  {
    MissingExactly(tree, r.file[|m.root|..]);
  }

  /** Nothing is left at the path, and whatever is left on the way to it lets `lstat` see that. */
  ghost predicate KnownGone(tree: Node, root: Path, p: Path)
  {
    root <= p && At(tree, root, p) == None && OpenWay(tree, p[|root|..])
  }

  /**
   What is said of a file of the snapshot that is a regular file no more: its deletion, or a tick in the count
   of empty files, when it is known to be gone; otherwise nothing at all.
   */
  ghost predicate Told(m: Manifest, tree: Node, log: seq<Record>, skips: set<Path>, empties: set<Path>, p: Path)
    requires p in m.files
  {
    && (forall r | r in log && r.file == p :: r == Record(p, Some(m.files[p]), None))
    && (Record(p, Some(m.files[p]), None) in log <==> KnownGone(tree, m.root, p) && m.files[p] != EMPTY_FILE)
    && (p in empties <==> KnownGone(tree, m.root, p) && m.files[p] == EMPTY_FILE)
    && p !in skips
  }

  lemma GoneExactly(m: Manifest, before: Node, tree: Node, p: Path)
    requires Snapshots(m, before) && p in m.files
    ensures KnownGone(tree, m.root, p) <==> m.root <= p && LstatMissing(tree, p[|m.root|..])
  {
    if m.root <= p {
      MissingExactly(tree, p[|m.root|..]);
    }
  }

  /** A file the second walk hashes. */
  ghost predicate Noticed(rules: Rules, tree: Node, root: Path, p: Path)
  {
    Listed(rules, tree, root, p) && !rules.secret(BaseName(p))
  }

  /** The record that a noticed file earns. */
  ghost predicate EarnedNow(rules: Rules, m: Manifest, tree: Node, r: Record)
  {
    && Noticed(rules, tree, m.root, r.file) && r.after == At(tree, m.root, r.file).value.hash && r.after.Some?
    && r.before == BeforeOf(m, r.file) && Changed(rules, m, r.file, r.after.value)
  }

  /** The log, the notes and the count of a command's Post: exactly what the files of the two walks call for. */
  ghost predicate ReportsExactly(rules: Rules, m: Manifest, tree: Node, log: seq<Record>, skips: set<Path>, empties: set<Path>)
  {
    && (forall r :: r in log <==> EarnedNow(rules, m, tree, r) || EarnedGone(m, tree, r))
    && (forall p :: p in skips <==> Noticed(rules, tree, m.root, p) && Skipped(m, p, At(tree, m.root, p).value.hash))
    && (forall p :: p in empties <==>
          || (Noticed(rules, tree, m.root, p) && EmptyNoise(m, p, At(tree, m.root, p).value.hash))
          || (p in m.files && EmptyGone(m, tree, p)))
  }

  lemma SeenIsNoticed(rules: Rules, m: Manifest, tree: Node, files: seq<Path>, after: map<Path, Option<Hash>>)
    requires Seen(rules, tree, m.root, files, after) && forall p :: p in files <==> Listed(rules, tree, m.root, p)
    ensures forall p :: p in after <==> Noticed(rules, tree, m.root, p)
    ensures forall p | p in after :: after[p] == At(tree, m.root, p).value.hash
    ensures forall r :: Earned(rules, m, after, r) <==> EarnedNow(rules, m, tree, r)
  {
  }

  lemma SeenIsSettled(rules: Rules, m: Manifest, tree: Node, log: seq<Record>, skips: set<Path>, empties: set<Path>, p: Path)
    requires ReportsExactly(rules, m, tree, log, skips, empties) && Noticed(rules, tree, m.root, p)
    ensures Settled(rules, m, log, skips, empties, p, At(tree, m.root, p).value.hash)
  {
    var now := At(tree, m.root, p).value.hash;
    var r := Record(p, BeforeOf(m, p), now);
    assert r in log <==> EarnedNow(rules, m, tree, r) || EarnedGone(m, tree, r);
  }

  lemma GoneIsTold(rules: Rules, m: Manifest, before: Node, tree: Node, log: seq<Record>, skips: set<Path>, empties: set<Path>, p: Path)
    requires Snapshots(m, before) && ReportsExactly(rules, m, tree, log, skips, empties)
    requires p in m.files && !FileAt(tree, m.root, p)
    ensures Told(m, tree, log, skips, empties, p)
  {
    GoneExactly(m, before, tree, p);
    assert Record(p, Some(m.files[p]), None) in log <==> EarnedGone(m, tree, Record(p, Some(m.files[p]), None));
  }

  lemma ReportedIsTruthful(rules: Rules, m: Manifest, before: Node, tree: Node, r: Record)
    requires Snapshots(m, before) && (EarnedNow(rules, m, tree, r) || EarnedGone(m, tree, r))
    ensures Truthful(m.root, before, tree, r)
  {
    if EarnedGone(m, tree, r) {
      GoneIsTruthful(m, before, tree, r);
    } else if r.before.None? {
      AbsenceIsSound(m, before, r.file);
    }
  }

  /** What the two passes over the files report. */
  method Judge(rules: Rules, m: Manifest, tree: Node, files: seq<Path>)
      returns (log: seq<Record>, skips: set<Path>, empties: set<Path>)
    requires AllFiles(tree, m.root, files) && forall p :: p in files <==> Listed(rules, tree, m.root, p)
    ensures OncePerFile(log) && ReportsExactly(rules, m, tree, log, skips, empties)
  {
    var after := HashListed(rules, tree, m.root, files);
    SeenIsNoticed(rules, m, tree, files, after);
    var seen, counted, removed;
    seen, skips, counted := JudgeSeen(rules, m, after);
    log, removed := JudgeGone(m, tree, after, seen);
    empties := counted + removed;
    forall p | p in m.files && m.root <= p && LstatMissing(tree, p[|m.root|..]) ensures p !in after {
      MissingExactly(tree, p[|m.root|..]);
    }
  }

  /**
   A Bash command's Post on its own snapshot `m`, `before` being the tree it was taken of and `tree` the
   tree now.  At most one record a file, and each is what really happened to the file.  When the second
   walk is complete, log, notes and count are exactly what they should be: so every file that no rule leaves out
   is settled, and a file of the snapshot that is none any more is spoken of exactly when it is known to be gone.
   A walk that hits the cap records nothing.
   */
  method DiffCommand(rules: Rules, m: Manifest, ghost before: Node, tree: Node)
      returns (log: seq<Record>, skips: set<Path>, empties: set<Path>, complete: bool, excluded: seq<Path>)
    requires WellFormed(tree) && Snapshots(m, before)
    ensures OncePerFile(log)
    ensures forall r | r in log :: Truthful(m.root, before, tree, r)
    ensures complete ==> ReportsExactly(rules, m, tree, log, skips, empties)
    ensures complete ==> forall p: Path | Noticed(rules, tree, m.root, p) ::
              Settled(rules, m, log, skips, empties, p, At(tree, m.root, p).value.hash)
    ensures complete ==> forall p: Path | FileAt(tree, m.root, p) :: Listed(rules, tree, m.root, p) || Covers(excluded, p)
    ensures complete ==> forall p :: p in excluded <==> LeftOut(rules, tree, m.root, p)
    ensures complete ==> forall p | p in m.files && !FileAt(tree, m.root, p) :: Told(m, tree, log, skips, empties, p)
    ensures forall p | p in skips && p !in m.files :: !ProvesAbsent(m.root, m.excluded, false, p)
    ensures forall p | p in skips && p in m.files :: At(tree, m.root, p) == Some(File(None))
    ensures !complete ==> log == [] && skips == {} && MAX_FILES < Size(tree)
  {
    var files;
    complete, files, excluded := WalkCandidates(rules, tree, m.root);
    log, skips, empties := [], {}, {};
    if !complete {
      return;
    }
    log, skips, empties := Judge(rules, m, tree, files);
    forall r | r in log ensures Truthful(m.root, before, tree, r) {
      ReportedIsTruthful(rules, m, before, tree, r);
    }
    forall p: Path | Noticed(rules, tree, m.root, p)
      ensures Settled(rules, m, log, skips, empties, p, At(tree, m.root, p).value.hash)
    {
      SeenIsSettled(rules, m, tree, log, skips, empties, p);
    }
    forall p | p in m.files && !FileAt(tree, m.root, p) ensures Told(m, tree, log, skips, empties, p) {
      GoneIsTold(rules, m, before, tree, log, skips, empties, p);
    }
  }

  // ---------- a command from before to after ----------

  /** In the tree before the command nothing stands at the path, and nothing at or above it went unseen. */
  ghost predicate KnownAbsent(rules: Rules, tree: Node, root: Path, p: Path)
  {
    && root < p && !Held(rules, tree, root, p)
    && forall q | q <= p :: !LeftOut(rules, tree, root, q) && !Withheld(rules, tree, root, q)
  }

  /** A change that a reviewer is to see, told by the two trees alone. */
  ghost predicate Happened(rules: Rules, before: Node, tree: Node, root: Path, r: Record)
  {
    match (r.before, r.after)
    case (Some(b), Some(a)) =>
      && Held(rules, before, root, r.file) && At(before, root, r.file) == Some(File(r.before))
      && Held(rules, tree, root, r.file) && At(tree, root, r.file) == Some(File(r.after))
      && a != b && !rules.blankOnly(b, a)
    case (None, Some(a)) =>
      && KnownAbsent(rules, before, root, r.file)
      && Held(rules, tree, root, r.file) && At(tree, root, r.file) == Some(File(r.after))
      && a != EMPTY_FILE
    case (Some(b), None) =>
      && Held(rules, before, root, r.file) && At(before, root, r.file) == Some(File(r.before))
      && KnownGone(tree, root, r.file)
      && b != EMPTY_FILE
    case (None, None) => false
  }

  /** A snapshot as Pre takes it of a tree. */
  ghost predicate SnapshotOf(rules: Rules, tree: Node, m: Manifest)
  {
    && Snapshots(m, tree)
    && (forall p :: p in m.files <==> Held(rules, tree, m.root, p))
    && (forall p :: p in m.excluded <==> LeftOut(rules, tree, m.root, p) || Withheld(rules, tree, m.root, p))
  }

  lemma AbsentExactly(rules: Rules, before: Node, m: Manifest, p: Path)
    requires SnapshotOf(rules, before, m)
    ensures KnownAbsent(rules, before, m.root, p) <==> ProvesAbsent(m.root, m.excluded, p in m.files, p)
  {
    if !Covers(m.excluded, p) {
      forall q | q <= p ensures !LeftOut(rules, before, m.root, q) && !Withheld(rules, before, m.root, q) {
        assert q !in m.excluded;
      }
    }
  }

  lemma HappenedNow(rules: Rules, before: Node, tree: Node, m: Manifest, r: Record)
    requires SnapshotOf(rules, before, m) && r.after.Some?
    ensures EarnedNow(rules, m, tree, r) <==> Happened(rules, before, tree, m.root, r)
  {
    AbsentExactly(rules, before, m, r.file);
  }

  lemma HappenedGone(rules: Rules, before: Node, tree: Node, m: Manifest, r: Record)
    requires SnapshotOf(rules, before, m) && r.after.None?
    ensures EarnedGone(m, tree, r) <==> Happened(rules, before, tree, m.root, r)
  {
    if r.file in m.files {
      GoneExactly(m, before, tree, r.file);
    }
  }

  /**
   Pre, the command, and Post: with both trees within the cap, the records are exactly the changes to files that
   no rule leaves out and whose content is known, one a file.
   */
  method WatchCommand(rules: Rules, before: Node, tree: Node, cwd: Path)
      returns (log: seq<Record>, skips: set<Path>, empties: set<Path>, complete: bool)
    requires WellFormed(before) && WellFormed(tree)
    ensures Size(before) <= MAX_FILES && Size(tree) <= MAX_FILES ==> complete
    ensures OncePerFile(log)
    ensures complete ==> forall r :: r in log <==> Happened(rules, before, tree, cwd, r)
    ensures !complete ==> log == []
  {
    log, skips, empties, complete := [], {}, {}, false;
    var m := TakeSnapshot(rules, before, cwd);
    if m.None? {
      return;
    }
    var excluded;
    log, skips, empties, complete, excluded := DiffCommand(rules, m.value, before, tree);
    assert SnapshotOf(rules, before, m.value);
    forall r ensures complete ==> (r in log <==> Happened(rules, before, tree, cwd, r)) {
      if r.after.Some? {
        HappenedNow(rules, before, tree, m.value, r);
      } else {
        HappenedGone(rules, before, tree, m.value, r);
      }
    }
  }

  // ---------- a directory that gives way to a file ----------

  /** The directory `d` with its file `x`, before a command puts a file `d` in its place. */
  const D: Name := "d"
  const X: Name := "x"

  function ReplacedBefore(h: Hash): Node
  {
    Dir(true, true, [Entry(D, Dir(true, true, [Entry(X, File(Some(h)))]))])
  }

  function ReplacedAfter(k: Hash): Node
  {
    Dir(true, true, [Entry(D, File(Some(k)))])
  }

  function ReplacedManifest(h: Hash): Manifest
  {
    Manifest([], map[[D, X] := h], [])
  }

  lemma OneEntry(e: Entry, p: Path)
    requires p != []
    ensures Lookup(Dir(true, true, [e]), p) == if p[0] == e.name then Lookup(e.node, p[1..]) else None
    ensures Size(Dir(true, true, [e])) == 1 + Size(e.node)
  {
    var es := [e];
    assert es[0] == e && es[1..] == [];
    assert Find(es, p[0]) == if e.name == p[0] then Some(e.node) else Find([], p[0]);
    assert Sizes(es) == Size(e.node) + Sizes(es[1..]);
  }

  lemma ReplacedIsSnapshot(h: Hash)
    ensures Snapshots(ReplacedManifest(h), ReplacedBefore(h))
  {
    var n, m, x := ReplacedBefore(h), ReplacedManifest(h), Entry(X, File(Some(h)));
    var d := Entry(D, Dir(true, true, [x]));
    assert n == Dir(true, true, [d]);
    forall p: Path ensures FileAt(n, [], p) ==> p == [D, X]
      ensures p == [D, X] ==> At(n, [], p) == Some(File(Some(h)))
    {
      assert p[0..] == p;
      if p != [] {
        OneEntry(d, p);
        var rest := p[1..];
        assert p == [p[0]] + rest;
        if rest != [] {
          OneEntry(x, rest);
          assert rest == [rest[0]] + rest[1..];
        }
      }
    }
  }

  /** Nothing is left of `d/x`, and it is not known to be gone: `lstat` cannot reach through a file. */
  lemma ReplacedIsNotKnownGone(k: Hash)
    ensures At(ReplacedAfter(k), [], [D, X]) == None && !KnownGone(ReplacedAfter(k), [], [D, X])
  {
    var tree, p := ReplacedAfter(k), [D, X];
    OneEntry(Entry(D, File(Some(k))), p);
    OneEntry(Entry(D, File(Some(k))), [D]);
    assert p[0..] == p && p[..1] == [D] && [D][1..] == [];
    assert Lookup(tree, p[..1]) == Some(File(Some(k)));
  }

  /** The file `d/x` vanishes, and no record, note or count speaks of it, whatever the walk leaves out. */
  method ReplacedDirectory(rules: Rules, h: Hash, k: Hash)
      returns (log: seq<Record>, skips: set<Path>, empties: set<Path>, complete: bool)
    ensures complete && (forall r | r in log :: r.file != [D, X])
    ensures [D, X] !in skips && [D, X] !in empties
  {
    var p := [D, X];
    ReplacedIsSnapshot(h);
    ReplacedIsNotKnownGone(k);
    OneEntry(Entry(D, File(Some(k))), p);
    var excluded;
    log, skips, empties, complete, excluded := DiffCommand(rules, ReplacedManifest(h), ReplacedBefore(h), ReplacedAfter(k));
    assert Told(ReplacedManifest(h), ReplacedAfter(k), log, skips, empties, p);
  }
}
