/**
 The canonical JSON a trust fingerprint is taken of: keys sorted at every level, no white space, strings
 as `JSON.stringify` writes them.

 `Parse` reads JSON by sections 2 to 7 of RFC 8259 (of section 6 the integers only) and knows nothing of
 the printer.  It recovers from a printed text the value with its keys sorted (`PrintParses`), so two
 values print alike exactly when they are equal up to the order of object keys (`PrintIsCanonical`).

 A string may hold lone surrogates; a printed text never does (`PrintIsPaired`).
 */
module CanonicalJson {
  import opened Basics

  /** A UTF-16 code unit; surrogates may stand alone. */
  type Unit = u: int | 0 <= u < 0x1_0000
  type Text = seq<Unit>

  datatype Json = Null | Bool(flag: bool) | Num(number: int) | Str(text: Text) | Arr(items: seq<Json>) | Obj(members: seq<Member>)
  /** The members of an object in any order. */
  datatype Member = Member(key: Text, value: Json)

  /** Text of an ASCII literal. */
  function Units(s: string): (t: Text)
    ensures |t| == |s|
    ensures forall i | 0 <= i < |s| && s[i] < '\U{80}' :: t[i] == s[i] as int
    ensures forall i | 0 <= i < |s| :: t[i] < 0x80
  {
    seq(|s|, i requires 0 <= i < |s| => if s[i] < '\U{80}' then s[i] as int else '?' as int)
  }

  ghost predicate DistinctKeys(ms: seq<Member>)
  {
    forall i, j | 0 <= i < j < |ms| :: ms[i].key != ms[j].key
  }

  /** The keys of every object are distinct. */
  ghost predicate WellFormed(v: Json)
  {
    match v
    case Arr(items) => forall i | 0 <= i < |items| :: WellFormed(items[i])
    case Obj(ms) => DistinctKeys(ms) && forall i | 0 <= i < |ms| :: WellFormed(ms[i].value)
    case _ => true
  }

  /** Equal up to the order of object keys: every member of either object has its equal in the other. */
  ghost predicate Equiv(a: Json, b: Json)
    decreases a
  {
    match (a, b)
    case (Arr(x), Arr(y)) => |x| == |y| && forall i | 0 <= i < |x| :: Equiv(x[i], y[i])
    case (Obj(x), Obj(y)) => (forall i | 0 <= i < |x| :: Meets(x[i], y)) && (forall j | 0 <= j < |y| :: IsMet(x, y[j]))
    case _ => a == b
  }

  ghost predicate Meets(m: Member, y: seq<Member>)
    decreases m
  {
    exists j | 0 <= j < |y| :: m.key == y[j].key && Equiv(m.value, y[j].value)
  }

  ghost predicate IsMet(x: seq<Member>, m: Member)
    decreases x
  {
    exists i | 0 <= i < |x| :: x[i].key == m.key && Equiv(x[i].value, m.value)
  }

  // ---------- the order of keys ----------

  /** Code unit order, as `sort()` without a comparison uses it. */
  predicate Below(a: Text, b: Text)
  {
    b != [] && (a == [] || a[0] < b[0] || (a[0] == b[0] && Below(a[1..], b[1..])))
  }

  lemma {:induction false} BelowIsTotal(a: Text, b: Text)
    ensures a == b || Below(a, b) || Below(b, a)
    ensures Below(a, b) ==> a != b && !Below(b, a)
  {
    if a != [] && b != [] && a[0] == b[0] {
      BelowIsTotal(a[1..], b[1..]);
      assert a == [a[0]] + a[1..] && b == [b[0]] + b[1..];
    }
  }

  lemma {:induction false} BelowIsTransitive(a: Text, b: Text, c: Text)
    requires Below(a, b) && Below(b, c)
    ensures Below(a, c)
  {
    if a != [] && a[0] == b[0] && b[0] == c[0] {
      BelowIsTransitive(a[1..], b[1..], c[1..]);
    }
  }

  function Height(v: Json): nat
    decreases v, 0
  {
    match v
    case Arr(items) => 1 + ItemHeights(items)
    case Obj(ms) => 1 + Heights(ms)
    case _ => 0
  }

  function ItemHeights(items: seq<Json>): nat
    decreases items, 1
  {
    if items == [] then 0 else Max(Height(items[0]), ItemHeights(items[1..]))
  }

  function Heights(ms: seq<Member>): nat
    decreases ms, 1
  {
    if ms == [] then 0 else Max(Height(ms[0].value), Heights(ms[1..]))
  }

  function Insert(m: Member, ms: seq<Member>): (r: seq<Member>)
    ensures |r| == |ms| + 1
    ensures Heights(r) == Max(Height(m.value), Heights(ms))
  {
    if ms == [] || Below(m.key, ms[0].key) then [m] + ms else [ms[0]] + Insert(m, ms[1..])
  }

  function Sort(ms: seq<Member>): (r: seq<Member>)
    ensures |r| == |ms|
    ensures Heights(r) == Heights(ms)
  {
    if ms == [] then [] else Insert(ms[0], Sort(ms[1..]))
  }

  ghost predicate Ascending(ms: seq<Member>)
  {
    forall i, j | 0 <= i < j < |ms| :: Below(ms[i].key, ms[j].key)
  }

  lemma {:induction false} InsertHolds(m: Member, ms: seq<Member>, x: Member)
    ensures x in Insert(m, ms) <==> x == m || x in ms
    decreases |ms|
  {
    if ms != [] && !Below(m.key, ms[0].key) {
      InsertHolds(m, ms[1..], x);
      assert ms == [ms[0]] + ms[1..];
    }
  }

  lemma {:induction false} SortHolds(ms: seq<Member>, x: Member)
    ensures x in Sort(ms) <==> x in ms
    decreases |ms|
  {
    if ms != [] {
      SortHolds(ms[1..], x);
      InsertHolds(ms[0], Sort(ms[1..]), x);
    }
  }

  lemma {:induction false} InsertAscends(m: Member, ms: seq<Member>)
    requires Ascending(ms) && forall x | x in ms :: x.key != m.key
    ensures Ascending(Insert(m, ms))
    decreases |ms|
  {
    if ms == [] {
    } else if Below(m.key, ms[0].key) {
      forall j | 0 < j < |ms| ensures Below(m.key, ms[j].key) {
        BelowIsTransitive(m.key, ms[0].key, ms[j].key);
      }
    } else {
      BelowIsTotal(m.key, ms[0].key);
      InsertAscends(m, ms[1..]);
      var r := Insert(m, ms[1..]);
      forall j | 0 <= j < |r| ensures Below(ms[0].key, r[j].key) {
        InsertHolds(m, ms[1..], r[j]);
      }
    }
  }

  lemma {:induction false} SortAscends(ms: seq<Member>)
    requires DistinctKeys(ms)
    ensures Ascending(Sort(ms))
    decreases |ms|
  {
    if ms != [] {
      SortAscends(ms[1..]);
      forall x | x in Sort(ms[1..]) ensures x.key != ms[0].key {
        SortHolds(ms[1..], x);
      }
      InsertAscends(ms[0], Sort(ms[1..]));
    }
  }

  lemma HasElement(a: seq<Member>)
    requires a != []
    ensures exists x :: x in a
  {
    assert a[0] in a;
  }

  lemma RestHolds(a: seq<Member>, x: Member)
    requires Ascending(a) && a != []
    ensures x in a[1..] <==> x in a && x != a[0]
  {
    BelowIsTotal(a[0].key, a[0].key);
    assert a == [a[0]] + a[1..];
  }

  /** An ascending list is fixed by its elements. */
  lemma {:induction false} AscendingIsUnique(a: seq<Member>, b: seq<Member>)
    requires Ascending(a) && Ascending(b)
    requires forall x :: x in a <==> x in b
    ensures a == b
    decreases |a|
  {
    if a == [] {
      if b != [] {
        HasElement(b);
      }
    } else {
      assert a[0] in a && a[0] in b && b[0] in a;
      var i :| 0 <= i < |b| && b[i] == a[0];
      var j :| 0 <= j < |a| && a[j] == b[0];
      BelowIsTotal(a[0].key, b[0].key);
      assert a[0] == b[0];
      forall x ensures x in a[1..] <==> x in b[1..] {
        RestHolds(a, x);
        RestHolds(b, x);
      }
      AscendingIsUnique(a[1..], b[1..]);
    }
  }

  // ---------- the printer ----------

  /** The last decimal digit. */
  function Digit(n: nat): Unit
  {
    '0' as int + n % 10
  }

  function Digits(n: nat): Text
  {
    if n < 10 then [Digit(n)] else Digits(n / 10) + [Digit(n)]
  }

  /** The last hexadecimal digit. */
  function HexDigit(n: nat): Unit
  {
    var d := n % 0x10;
    if d < 10 then '0' as int + d else 'a' as int + d - 10
  }

  predicate High(u: Unit) { 0xD800 <= u < 0xDC00 }

  predicate Low(u: Unit) { 0xDC00 <= u < 0xE000 }

  /** `\uXXXX`, in lower case. */
  function Hex4(u: Unit): Text
  {
    [HexDigit(u / 0x1000), HexDigit(u / 0x100), HexDigit(u / 0x10), HexDigit(u)]
  }

  function EscapeUnit(u: Unit): Text
  {
    if u == '"' as int || u == '\\' as int then ['\\' as int, u]
    else if u == 8 then Units("\\b")
    else if u == 9 then Units("\\t")
    else if u == 10 then Units("\\n")
    else if u == 12 then Units("\\f")
    else if u == 13 then Units("\\r")
    else if u < 0x20 || High(u) || Low(u) then Units("\\u") + Hex4(u)
    else [u]
  }

  /** Inside the quotes: a surrogate pair stands as it is, a lone surrogate is escaped. */
  function Escape(s: Text): Text
    decreases |s|
  {
    if s == [] then []
    else if |s| > 1 && High(s[0]) && Low(s[1]) then s[..2] + Escape(s[2..])
    else EscapeUnit(s[0]) + Escape(s[1..])
  }

  function Quote(s: Text): Text
  {
    ['"' as int] + Escape(s) + ['"' as int]
  }

  function Print(v: Json): Text
    decreases Height(v), 0
  {
    match v
    case Null => Units("null")
    case Bool(flag) => if flag then Units("true") else Units("false")
    case Num(n) => if n < 0 then ['-' as int] + Digits(-n) else Digits(n)
    case Str(s) => Quote(s)
    case Arr(items) => ['[' as int] + PrintItems(items) + [']' as int]
    case Obj(ms) => ['{' as int] + PrintMembers(Sort(ms)) + ['}' as int]
  }

  function PrintItems(items: seq<Json>): Text
    decreases ItemHeights(items), 1 + |items|
  {
    if items == [] then []
    else if |items| == 1 then Print(items[0])
    else Print(items[0]) + [',' as int] + PrintItems(items[1..])
  }

  function PrintMember(m: Member): Text
    decreases Height(m.value), 1
  {
    Quote(m.key) + [':' as int] + Print(m.value)
  }

  function PrintMembers(ms: seq<Member>): Text
    decreases Heights(ms), 1 + |ms|
  {
    if ms == [] then []
    else if |ms| == 1 then PrintMember(ms[0])
    else PrintMember(ms[0]) + [',' as int] + PrintMembers(ms[1..])
  }

  /** The value with the keys of every object sorted. */
  function Canon(v: Json): Json
    decreases Height(v), 0
  {
    match v
    case Arr(items) => Arr(CanonItems(items))
    case Obj(ms) => Obj(CanonMembers(Sort(ms)))
    case _ => v
  }

  function CanonItems(items: seq<Json>): (r: seq<Json>)
    ensures |r| == |items|
    decreases ItemHeights(items), 1 + |items|
  {
    if items == [] then [] else [Canon(items[0])] + CanonItems(items[1..])
  }

  function CanonMembers(ms: seq<Member>): (r: seq<Member>)
    ensures |r| == |ms|
    decreases Heights(ms), 1 + |ms|
  {
    if ms == [] then [] else [Member(ms[0].key, Canon(ms[0].value))] + CanonMembers(ms[1..])
  }

  // ---------- the parser ----------

  /** What was read, and the text after it. */
  type Read<T> = Option<(T, Text)>

  predicate IsSpace(u: Unit)
  {
    u == 0x20 || u == 9 || u == 10 || u == 13
  }

  function SkipSpace(s: Text): (t: Text)
    ensures |t| <= |s|
  {
    if s != [] && IsSpace(s[0]) then SkipSpace(s[1..]) else s
  }

  predicate IsDigit(u: Unit)
  {
    '0' as int <= u <= '9' as int
  }

  function DigitValue(u: Unit): nat
  {
    if IsDigit(u) then u - '0' as int else 0
  }

  function HexValue(u: Unit): Option<nat>
  {
    if IsDigit(u) then Some(DigitValue(u))
    else if 'a' as int <= u <= 'f' as int then Some(u - 'a' as int + 10)
    else if 'A' as int <= u <= 'F' as int then Some(u - 'A' as int + 10)
    else None
  }

  /** A code unit from four hexadecimal digits. */
  function ParseHex4(s: Text): Option<Unit>
  {
    if |s| < 4 then None
    else
      match (HexValue(s[0]), HexValue(s[1]), HexValue(s[2]), HexValue(s[3]))
      case (Some(a), Some(b), Some(c), Some(d)) =>
        var n: int := ((a * 16 + b) * 16 + c) * 16 + d;
        if n < 0x1_0000 then Some(n) else None
      case _ => None
  }

  /** The unit a two-character escape names. */
  function ShortEscape(u: Unit): Option<Unit>
  {
    if u == '"' as int || u == '\\' as int || u == '/' as int then Some(u)
    else if u == 'b' as int then Some(8)
    else if u == 'f' as int then Some(12)
    else if u == 'n' as int then Some(10)
    else if u == 'r' as int then Some(13)
    else if u == 't' as int then Some(9)
    else None
  }

  /** One unit of a string, escaped or not. */
  function ParseUnit(s: Text): (r: Read<Unit>)
    ensures r.Some? ==> |r.value.1| < |s|
  {
    if s == [] || s[0] < 0x20 || s[0] == '"' as int then None
    else if s[0] != '\\' as int then Some((s[0], s[1..]))
    else if |s| < 2 then None
    else if s[1] == 'u' as int then
      if |s| < 6 then None
      else
        match ParseHex4(s[2..]) case Some(u) => Some((u, s[6..])) case None => None
    else
      match ShortEscape(s[1]) case Some(u) => Some((u, s[2..])) case None => None
  }

  /** A string after its opening quotation mark. */
  function ParseChars(s: Text): (r: Read<Text>)
    ensures r.Some? ==> |r.value.1| < |s|
    decreases |s|
  {
    if s == [] then None
    else if s[0] == '"' as int then Some(([], s[1..]))
    else
      match ParseUnit(s)
      case None => None
      case Some((u, rest)) =>
        match ParseChars(rest) case None => None case Some((us, after)) => Some(([u] + us, after))
  }

  function ParseDigits(s: Text, acc: nat): (r: (nat, Text))
    ensures |r.1| <= |s|
    decreases |s|
  {
    if s != [] && IsDigit(s[0]) then ParseDigits(s[1..], acc * 10 + DigitValue(s[0])) else (acc, s)
  }

  /** `int` of section 6, neither a fraction nor an exponent after it. */
  function ParseNat(s: Text): (r: Read<nat>)
    ensures r.Some? ==> |r.value.1| < |s|
  {
    if s == [] || !IsDigit(s[0]) then None
    else
      var read: (nat, Text) := if s[0] == '0' as int then (0, s[1..]) else ParseDigits(s[1..], DigitValue(s[0]));
      var rest := read.1;
      if rest != [] && (IsDigit(rest[0]) || rest[0] == '.' as int || rest[0] == 'e' as int || rest[0] == 'E' as int) then None
      else Some(read)
  }

  predicate StartsWith(s: Text, u: Unit)
  {
    s != [] && s[0] == u
  }

  /** One of the three words. */
  function ParseWord(t: Text): (r: Read<Json>)
    ensures r.Some? ==> |r.value.1| < |t|
  {
    if Units("null") <= t then Some((Null, t[4..]))
    else if Units("true") <= t then Some((Bool(true), t[4..]))
    else if Units("false") <= t then Some((Bool(false), t[5..]))
    else None
  }

  function ParseNumber(t: Text): (r: Read<Json>)
    ensures r.Some? ==> |r.value.1| < |t|
  {
    if StartsWith(t, '-' as int) then
      match ParseNat(t[1..]) case None => None case Some((n, rest)) => Some((Num(0 - n), rest))
    else
      match ParseNat(t) case None => None case Some((n, rest)) => Some((Num(n), rest))
  }

  function ParseString(t: Text): (r: Read<Text>)
    ensures r.Some? ==> |r.value.1| < |t|
  {
    if StartsWith(t, '"' as int) then ParseChars(t[1..]) else None
  }

  function ParseValue(s: Text): (r: Read<Json>)
    ensures r.Some? ==> |r.value.1| < |s|
    decreases |s|, 0
  {
    var t := SkipSpace(s);
    if t == [] then None
    else if t[0] == '"' as int then
      match ParseString(t) case None => None case Some((text, rest)) => Some((Str(text), rest))
    else if t[0] == '[' as int then
      match ParseArray(t[1..]) case None => None case Some((items, rest)) => Some((Arr(items), rest))
    else if t[0] == '{' as int then
      match ParseObject(t[1..]) case None => None case Some((ms, rest)) => Some((Obj(ms), rest))
    else if t[0] == '-' as int || IsDigit(t[0]) then ParseNumber(t)
    else ParseWord(t)
  }

  /** An array after its opening bracket. */
  function ParseArray(s: Text): (r: Read<seq<Json>>)
    ensures r.Some? ==> |r.value.1| < |s|
    decreases |s|, 2
  {
    var u := SkipSpace(s);
    if StartsWith(u, ']' as int) then Some(([], u[1..])) else ParseItems(s)
  }

  /** An object after its opening brace. */
  function ParseObject(s: Text): (r: Read<seq<Member>>)
    ensures r.Some? ==> |r.value.1| < |s|
    decreases |s|, 3
  {
    var u := SkipSpace(s);
    if StartsWith(u, '}' as int) then Some(([], u[1..])) else ParseMembers(s)
  }

  /** One or more values separated by commas, and the closing bracket. */
  function ParseItems(s: Text): (r: Read<seq<Json>>)
    ensures r.Some? ==> |r.value.1| < |s|
    decreases |s|, 1
  {
    match ParseValue(s)
    case None => None
    case Some((v, rest)) =>
      var t := SkipSpace(rest);
      if t == [] then None
      else if t[0] == ']' as int then Some(([v], t[1..]))
      else if t[0] != ',' as int then None
      else
        match ParseItems(t[1..]) case None => None case Some((vs, after)) => Some(([v] + vs, after))
  }

  function ParseMember(s: Text): (r: Read<Member>)
    ensures r.Some? ==> |r.value.1| < |s|
    decreases |s|, 1
  {
    match ParseString(SkipSpace(s))
    case None => None
    case Some((key, rest)) =>
      var u := SkipSpace(rest);
      if !StartsWith(u, ':' as int) then None
      else
        match ParseValue(u[1..]) case None => None case Some((v, after)) => Some((Member(key, v), after))
  }

  /** One or more members separated by commas, and the closing brace. */
  function ParseMembers(s: Text): (r: Read<seq<Member>>)
    ensures r.Some? ==> |r.value.1| < |s|
    decreases |s|, 2
  {
    match ParseMember(s)
    case None => None
    case Some((m, rest)) =>
      var t := SkipSpace(rest);
      if t == [] then None
      else if t[0] == '}' as int then Some(([m], t[1..]))
      else if t[0] != ',' as int then None
      else
        match ParseMembers(t[1..]) case None => None case Some((ms, after)) => Some(([m] + ms, after))
  }

  /** A JSON text: one value between white space. */
  function Parse(s: Text): Option<Json>
  {
    match ParseValue(s)
    case None => None
    case Some((v, rest)) => if SkipSpace(rest) == [] then Some(v) else None
  }

  // ---------- reading back what was printed ----------

  lemma HexDigitRoundTrip(n: nat)
    ensures HexValue(HexDigit(n)) == Some(n % 0x10)
  {
  }

  lemma Base16(u: Unit)
    ensures ((u / 0x1000 % 0x10 * 16 + u / 0x100 % 0x10) * 16 + u / 0x10 % 0x10) * 16 + u % 0x10 == u
  {
    var x, y := u / 0x10, u / 0x100;
    assert u == x * 16 + u % 16;
    assert x / 16 == y && x == y * 16 + x % 16;
    assert y / 16 == u / 0x1000 && y == u / 0x1000 * 16 + y % 16;
  }

  lemma HexRoundTrip(u: Unit, s: Text)
    requires |s| >= 4 && s[..4] == Hex4(u)
    ensures ParseHex4(s) == Some(u)
  {
    var h := s[..4];
    assert s[0] == h[0] && s[1] == h[1] && s[2] == h[2] && s[3] == h[3];
    Base16(u);
    HexDigitRoundTrip(u / 0x1000);
    HexDigitRoundTrip(u / 0x100);
    HexDigitRoundTrip(u / 0x10);
    HexDigitRoundTrip(u);
  }

  lemma Regroup(a: Text, b: Text, c: Text, d: Text)
    ensures (a + b + c) + d == a + (b + (c + d))
    ensures (a + b) + d == a + (b + d)
  {
  }

  lemma DropOne(u: Unit, rest: Text)
    ensures ([u] + rest)[0] == u && ([u] + rest)[1..] == rest
  {
  }

  lemma ShortRoundTrip(c: Unit, u: Unit, rest: Text)
    requires c != 'u' as int && ShortEscape(c) == Some(u)
    ensures ParseUnit(['\\' as int, c] + rest) == Some((u, rest))
  {
    var s := ['\\' as int, c] + rest;
    assert s[2..] == rest;
  }

  lemma LongRoundTrip(u: Unit, rest: Text)
    ensures ParseUnit(Units("\\u") + Hex4(u) + rest) == Some((u, rest))
  {
    var s := Units("\\u") + Hex4(u) + rest;
    assert s[0] == '\\' as int && s[1] == 'u' as int;
    assert s[2..][..4] == Hex4(u);
    HexRoundTrip(u, s[2..]);
    assert s[6..] == rest;
  }

  /** An escaped unit is read as that unit. */
  lemma UnitRoundTrip(u: Unit, rest: Text)
    ensures ParseUnit(EscapeUnit(u) + rest) == Some((u, rest))
    ensures EscapeUnit(u)[0] != '"' as int
  {
    if u == 8 {
      assert Units("\\b") == ['\\' as int, 'b' as int];
      ShortRoundTrip('b' as int, u, rest);
    } else if u == 9 {
      assert Units("\\t") == ['\\' as int, 't' as int];
      ShortRoundTrip('t' as int, u, rest);
    } else if u == 10 {
      assert Units("\\n") == ['\\' as int, 'n' as int];
      ShortRoundTrip('n' as int, u, rest);
    } else if u == 12 {
      assert Units("\\f") == ['\\' as int, 'f' as int];
      ShortRoundTrip('f' as int, u, rest);
    } else if u == 13 {
      assert Units("\\r") == ['\\' as int, 'r' as int];
      ShortRoundTrip('r' as int, u, rest);
    } else if u < 0x20 || High(u) || Low(u) {
      LongRoundTrip(u, rest);
    } else if u == '"' as int || u == '\\' as int {
      ShortRoundTrip(u, u, rest);
    } else {
      DropOne(u, rest);
    }
  }

  lemma CharsStep(s: Text, u: Unit, rest: Text, us: Text, after: Text)
    requires s != [] && s[0] != '"' as int
    requires ParseUnit(s) == Some((u, rest)) && ParseChars(rest) == Some((us, after))
    ensures ParseChars(s) == Some(([u] + us, after))
  {
  }

  lemma PlainStep(u: Unit, rest: Text, us: Text, after: Text)
    requires u >= 0x80 && ParseChars(rest) == Some((us, after))
    ensures ParseChars([u] + rest) == Some(([u] + us, after))
  {
    DropOne(u, rest);
    CharsStep([u] + rest, u, rest, us, after);
  }

  /** An escaped string, its closing quotation mark and anything after that. */
  lemma {:induction false} StringRoundTrip(s: Text, rest: Text)
    ensures ParseChars(Escape(s) + (['"' as int] + rest)) == Some((s, rest))
    decreases |s|
  {
    var end := ['"' as int] + rest;
    if s == [] {
      DropOne('"' as int, rest);
      assert Escape(s) + end == end;
    } else if |s| > 1 && High(s[0]) && Low(s[1]) {
      var t := Escape(s[2..]) + end;
      StringRoundTrip(s[2..], rest);
      PlainStep(s[1], t, s[2..], rest);
      PlainStep(s[0], [s[1]] + t, [s[1]] + s[2..], rest);
      assert s[..2] == [s[0]] + [s[1]];
      Regroup([s[0]], [s[1]], Escape(s[2..]), end);
      assert s == [s[0]] + ([s[1]] + s[2..]);
    } else {
      var t := Escape(s[1..]) + end;
      StringRoundTrip(s[1..], rest);
      UnitRoundTrip(s[0], t);
      Regroup(EscapeUnit(s[0]), Escape(s[1..]), [], end);
      CharsStep(EscapeUnit(s[0]) + t, s[0], t, s[1..], rest);
      assert s == [s[0]] + s[1..];
    }
  }

  lemma QuoteRoundTrip(s: Text, rest: Text)
    ensures ParseString(Quote(s) + rest) == Some((s, rest))
    ensures SkipSpace(Quote(s) + rest) == Quote(s) + rest
  {
    StringRoundTrip(s, rest);
    DropOne('"' as int, Escape(s) + (['"' as int] + rest));
    Regroup(['"' as int], Escape(s), ['"' as int], rest);
  }

  lemma {:induction false} DigitsRoundTrip(n: nat, rest: Text)
    ensures Digits(n) != [] && IsDigit(Digits(n)[0]) && (Digits(n)[0] == '0' as int ==> n == 0)
    ensures ParseDigits(Digits(n) + rest, 0) == ParseDigits(rest, n)
  {
    if n < 10 {
      DropOne(Digit(n), rest);
    } else {
      var d := Digit(n);
      DigitsRoundTrip(n / 10, [d] + rest);
      assert Digits(n) + rest == Digits(n / 10) + ([d] + rest);
      DropOne(d, rest);
    }
  }

  /** What follows a value inside a printed text. */
  predicate Ends(rest: Text)
  {
    rest == [] || rest[0] == ',' as int || rest[0] == ']' as int || rest[0] == '}' as int
  }

  lemma NatRoundTrip(n: nat, rest: Text)
    requires Ends(rest)
    ensures ParseNat(Digits(n) + rest) == Some((n, rest))
  {
    var s := Digits(n) + rest;
    DigitsRoundTrip(n, rest);
    if n < 10 {
      DropOne(Digit(n), rest);
    }
    assert ParseDigits(rest, n) == (n, rest);
  }

  lemma RecoverNumber(n: int, rest: Text)
    requires Ends(rest)
    ensures ParseValue(Print(Num(n)) + rest) == Some((Num(n), rest))
  {
    var s := Print(Num(n)) + rest;
    var m := if n < 0 then -n else n;
    NatRoundTrip(m, rest);
    DigitsRoundTrip(m, rest);
    if n < 0 {
      DropOne('-' as int, Digits(m) + rest);
      assert s == ['-' as int] + (Digits(m) + rest);
    }
    assert ParseNumber(s) == Some((Num(n), rest));
    assert SkipSpace(s) == s;
  }

  lemma RecoverWord(word: string, v: Json, rest: Text)
    requires (word, v) in {("null", Null), ("true", Bool(true)), ("false", Bool(false))}
    ensures ParseValue(Units(word) + rest) == Some((v, rest))
  {
    var s := Units(word) + rest;
    assert s[|word|..] == rest;
    assert Units("true")[0] == 't' as int && Units("false")[0] == 'f' as int && Units("null")[0] == 'n' as int;
    assert s[0] == Units(word)[0];
    assert SkipSpace(s) == s;
    assert ParseWord(s) == Some((v, rest));
  }

  /** A printed value begins with neither white space nor a closing bracket. */
  lemma PrintBegins(v: Json)
    ensures Print(v) != [] && !IsSpace(Print(v)[0]) && Print(v)[0] != ']' as int
  {
    if v.Num? {
      DigitsRoundTrip(if v.number < 0 then -v.number else v.number, []);
    }
  }

  /** What the brackets and commas around printed pieces add to a reading. */
  lemma ArrayStep(s: Text, items: seq<Json>, rest: Text)
    ensures ParseArray(s) == Some((items, rest)) ==> ParseValue(['[' as int] + s) == Some((Arr(items), rest))
  {
    DropOne('[' as int, s);
  }

  lemma ObjectStep(s: Text, ms: seq<Member>, rest: Text)
    ensures ParseObject(s) == Some((ms, rest)) ==> ParseValue(['{' as int] + s) == Some((Obj(ms), rest))
  {
    DropOne('{' as int, s);
  }

  lemma LastItem(s: Text, v: Json, rest: Text)
    ensures ParseValue(s) == Some((v, [']' as int] + rest)) ==> ParseItems(s) == Some(([v], rest))
  {
    DropOne(']' as int, rest);
  }

  lemma OneMoreItem(s: Text, v: Json, tail: Text, vs: seq<Json>, after: Text)
    ensures ParseValue(s) == Some((v, [',' as int] + tail)) && ParseItems(tail) == Some((vs, after)) ==>
              ParseItems(s) == Some(([v] + vs, after))
  {
    DropOne(',' as int, tail);
  }

  lemma LastMember(s: Text, m: Member, rest: Text)
    ensures ParseMember(s) == Some((m, ['}' as int] + rest)) ==> ParseMembers(s) == Some(([m], rest))
  {
    DropOne('}' as int, rest);
  }

  lemma OneMoreMember(s: Text, m: Member, tail: Text, ms: seq<Member>, after: Text)
    ensures ParseMember(s) == Some((m, [',' as int] + tail)) && ParseMembers(tail) == Some((ms, after)) ==>
              ParseMembers(s) == Some(([m] + ms, after))
  {
    DropOne(',' as int, tail);
  }

  lemma MemberStep(key: Text, s: Text, v: Json, after: Text)
    requires ParseValue(s) == Some((v, after))
    ensures ParseMember(Quote(key) + ([':' as int] + s)) == Some((Member(key, v), after))
  {
    QuoteRoundTrip(key, [':' as int] + s);
    DropOne(':' as int, s);
  }

  /** A printed value, whatever follows it, is read as that value with its keys sorted. */
  lemma {:induction false} ParseRecovers(v: Json, rest: Text)
    requires Ends(rest)
    ensures ParseValue(Print(v) + rest) == Some((Canon(v), rest))
    decreases Height(v), 1
  {
    match v {
      case Null => RecoverWord("null", v, rest);
      case Bool(flag) => RecoverWord(if flag then "true" else "false", v, rest);
      case Num(n) => RecoverNumber(n, rest);
      case Str(text) => QuoteRoundTrip(text, rest);
      case Arr(items) => RecoverArray(items, rest);
      case Obj(ms) => RecoverObject(ms, rest);
    }
  }

  lemma {:induction false} RecoverArray(items: seq<Json>, rest: Text)
    ensures ParseValue(Print(Arr(items)) + rest) == Some((Canon(Arr(items)), rest))
    decreases 1 + ItemHeights(items), 0
  {
    var close := [']' as int] + rest;
    var inner := PrintItems(items) + close;
    if items == [] {
      DropOne(']' as int, rest);
      assert inner == close;
    } else {
      RecoverItems(items, rest);
      PrintBegins(items[0]);
      assert inner[0] == Print(items[0])[0];
    }
    ArrayStep(inner, CanonItems(items), rest);
    Regroup(['[' as int], PrintItems(items), [']' as int], rest);
  }

  lemma {:induction false} RecoverItems(items: seq<Json>, rest: Text)
    requires items != []
    ensures ParseItems(PrintItems(items) + ([']' as int] + rest)) == Some((CanonItems(items), rest))
    decreases ItemHeights(items), 2 + |items|
  {
    var close := [']' as int] + rest;
    if |items| == 1 {
      ParseRecovers(items[0], close);
      LastItem(Print(items[0]) + close, Canon(items[0]), rest);
      assert CanonItems(items) == [Canon(items[0])];
    } else {
      var tail := PrintItems(items[1..]) + close;
      ParseRecovers(items[0], [',' as int] + tail);
      RecoverItems(items[1..], rest);
      OneMoreItem(Print(items[0]) + ([',' as int] + tail), Canon(items[0]), tail, CanonItems(items[1..]), rest);
      Regroup(Print(items[0]), [',' as int], PrintItems(items[1..]), close);
    }
  }

  lemma {:induction false} RecoverObject(ms: seq<Member>, rest: Text)
    ensures ParseValue(Print(Obj(ms)) + rest) == Some((Canon(Obj(ms)), rest))
    decreases 1 + Heights(ms), 0
  {
    var close := ['}' as int] + rest;
    var inner := PrintMembers(Sort(ms)) + close;
    if ms == [] {
      DropOne('}' as int, rest);
      assert inner == close;
    } else {
      RecoverMembers(Sort(ms), rest);
      assert inner[0] == '"' as int;
    }
    ObjectStep(inner, CanonMembers(Sort(ms)), rest);
    Regroup(['{' as int], PrintMembers(Sort(ms)), ['}' as int], rest);
  }

  lemma {:induction false} RecoverMembers(ms: seq<Member>, rest: Text)
    requires ms != []
    ensures ParseMembers(PrintMembers(ms) + (['}' as int] + rest)) == Some((CanonMembers(ms), rest))
    decreases Heights(ms), 3 + |ms|
  {
    var close := ['}' as int] + rest;
    var m := Member(ms[0].key, Canon(ms[0].value));
    if |ms| == 1 {
      RecoverMember(ms[0], close);
      LastMember(PrintMember(ms[0]) + close, m, rest);
      assert CanonMembers(ms) == [m];
    } else {
      var tail := PrintMembers(ms[1..]) + close;
      RecoverMember(ms[0], [',' as int] + tail);
      RecoverMembers(ms[1..], rest);
      OneMoreMember(PrintMember(ms[0]) + ([',' as int] + tail), m, tail, CanonMembers(ms[1..]), rest);
      Regroup(PrintMember(ms[0]), [',' as int], PrintMembers(ms[1..]), close);
    }
  }

  lemma {:induction false} RecoverMember(m: Member, rest: Text)
    requires Ends(rest)
    ensures ParseMember(PrintMember(m) + rest) == Some((Member(m.key, Canon(m.value)), rest))
    decreases Height(m.value), 2
  {
    ParseRecovers(m.value, rest);
    MemberStep(m.key, Print(m.value) + rest, Canon(m.value), rest);
    Regroup(Quote(m.key), [':' as int], Print(m.value), rest);
  }

  /** The round trip: a printed text is read as the value with its keys sorted. */
  lemma PrintParses(v: Json)
    ensures Parse(Print(v)) == Some(Canon(v))
  {
    ParseRecovers(v, []);
    assert Print(v) + [] == Print(v);
  }

  // ---------- the canonical form ----------

  ghost predicate AllWellFormed(ms: seq<Member>)
  {
    forall m | m in ms :: WellFormed(m.value)
  }

  lemma {:induction false} SortOfAscending(ms: seq<Member>)
    requires Ascending(ms)
    ensures Sort(ms) == ms
    decreases |ms|
  {
    if ms != [] {
      SortOfAscending(ms[1..]);
      assert ms == [ms[0]] + ms[1..];
    }
  }

  function CanonMember(m: Member): Member
  {
    Member(m.key, Canon(m.value))
  }

  lemma {:induction false} CanonKeepsKeys(ms: seq<Member>)
    ensures forall i | 0 <= i < |ms| :: CanonMembers(ms)[i] == CanonMember(ms[i])
    decreases |ms|
  {
    if ms != [] {
      CanonKeepsKeys(ms[1..]);
    }
  }

  ghost predicate HasCanon(ms: seq<Member>, x: Member)
  {
    exists m :: m in ms && x == CanonMember(m)
  }

  /** The canonical object holds the canonical members of the original. */
  lemma CanonObjectHolds(ms: seq<Member>, x: Member)
    ensures x in CanonMembers(Sort(ms)) <==> HasCanon(ms, x)
  {
    var sorted := Sort(ms);
    CanonKeepsKeys(sorted);
    if x in CanonMembers(sorted) {
      var i :| 0 <= i < |sorted| && CanonMembers(sorted)[i] == x;
      SortHolds(ms, sorted[i]);
    }
    if HasCanon(ms, x) {
      var m :| m in ms && x == CanonMember(m);
      SortHolds(ms, m);
      var i :| 0 <= i < |sorted| && sorted[i] == m;
      assert CanonMembers(sorted)[i] == x;
    }
  }

  /** Its keys are ascending. */
  lemma CanonObjectAscends(ms: seq<Member>)
    requires DistinctKeys(ms)
    ensures Ascending(CanonMembers(Sort(ms)))
  {
    SortAscends(ms);
    CanonKeepsKeys(Sort(ms));
  }

  /** Printing sees nothing of the order of keys. */
  lemma {:induction false} PrintOfCanon(v: Json)
    requires WellFormed(v)
    ensures Print(Canon(v)) == Print(v)
    decreases Height(v), 0
  {
    match v {
      case Arr(items) =>
        PrintOfCanonItems(items);
      case Obj(ms) =>
        forall m | m in Sort(ms) ensures WellFormed(m.value) {
          SortHolds(ms, m);
        }
        PrintOfCanonMembers(Sort(ms));
        CanonObjectAscends(ms);
        SortOfAscending(CanonMembers(Sort(ms)));
      case _ =>
    }
  }

  lemma {:induction false} PrintOfCanonItems(items: seq<Json>)
    requires forall v | v in items :: WellFormed(v)
    ensures PrintItems(CanonItems(items)) == PrintItems(items)
    decreases ItemHeights(items), 1 + |items|
  {
    if items != [] {
      PrintOfCanon(items[0]);
      PrintOfCanonItems(items[1..]);
    }
  }

  lemma {:induction false} PrintOfCanonMembers(ms: seq<Member>)
    requires AllWellFormed(ms)
    ensures PrintMembers(CanonMembers(ms)) == PrintMembers(ms)
    decreases Heights(ms), 1 + |ms|
  {
    if ms != [] {
      PrintOfCanon(ms[0].value);
      PrintOfCanonMembers(ms[1..]);
    }
  }

  lemma {:induction false} CanonItemsAt(items: seq<Json>)
    ensures forall i | 0 <= i < |items| :: CanonItems(items)[i] == Canon(items[i])
    decreases |items|
  {
    if items != [] {
      CanonItemsAt(items[1..]);
    }
  }

  /** Two values have the same canonical form exactly when they are equal up to key order. */
  lemma {:induction false} EquivIsSameCanon(a: Json, b: Json)
    requires WellFormed(a) && WellFormed(b)
    ensures Equiv(a, b) <==> Canon(a) == Canon(b)
    decreases a
  {
    match (a, b) {
      case (Arr(x), Arr(y)) => EquivArrays(x, y);
      case (Obj(x), Obj(y)) => EquivObjects(x, y);
      case _ =>
    }
  }

  lemma {:induction false} EquivArrays(x: seq<Json>, y: seq<Json>)
    requires WellFormed(Arr(x)) && WellFormed(Arr(y))
    ensures Equiv(Arr(x), Arr(y)) <==> CanonItems(x) == CanonItems(y)
    decreases x
  {
    CanonItemsAt(x);
    CanonItemsAt(y);
    if |x| == |y| {
      forall i | 0 <= i < |x| ensures Equiv(x[i], y[i]) <==> CanonItems(x)[i] == CanonItems(y)[i] {
        EquivIsSameCanon(x[i], y[i]);
      }
    }
  }

  lemma HasCanonAt(ms: seq<Member>, n: Member)
    ensures HasCanon(ms, CanonMember(n)) <==>
            exists i | 0 <= i < |ms| :: ms[i].key == n.key && Canon(ms[i].value) == Canon(n.value)
  {
    if HasCanon(ms, CanonMember(n)) {
      var m :| m in ms && CanonMember(n) == CanonMember(m);
      var i :| 0 <= i < |ms| && ms[i] == m;
      assert ms[i].key == n.key;
    }
    if i :| 0 <= i < |ms| && ms[i].key == n.key && Canon(ms[i].value) == Canon(n.value) {
      assert ms[i] in ms;
    }
  }

  /** One object's members meet their equals in the other when the canonical members are the same. */
  lemma EquivMembers(x: seq<Member>, y: seq<Member>)
    requires forall i, j | 0 <= i < |x| && 0 <= j < |y| ::
               Equiv(x[i].value, y[j].value) <==> Canon(x[i].value) == Canon(y[j].value)
    ensures Equiv(Obj(x), Obj(y)) <==>
              (forall m | m in x :: HasCanon(y, CanonMember(m))) && (forall m | m in y :: HasCanon(x, CanonMember(m)))
  {
    forall i | 0 <= i < |x| ensures HasCanon(y, CanonMember(x[i])) <==> Meets(x[i], y) {
      HasCanonAt(y, x[i]);
    }
    forall j | 0 <= j < |y| ensures HasCanon(x, CanonMember(y[j])) <==> IsMet(x, y[j]) {
      HasCanonAt(x, y[j]);
    }
  }

  lemma SameMembersSameObject(x: seq<Member>, y: seq<Member>)
    requires DistinctKeys(x) && DistinctKeys(y)
    ensures CanonMembers(Sort(x)) == CanonMembers(Sort(y)) <==>
              (forall m | m in x :: HasCanon(y, CanonMember(m))) && (forall m | m in y :: HasCanon(x, CanonMember(m)))
  {
    var cx, cy := CanonMembers(Sort(x)), CanonMembers(Sort(y));
    forall m ensures m in cx <==> HasCanon(x, m) { CanonObjectHolds(x, m); }
    forall m ensures m in cy <==> HasCanon(y, m) { CanonObjectHolds(y, m); }
    if cx == cy {
      forall m | m in x ensures HasCanon(y, CanonMember(m)) {
        assert HasCanon(x, CanonMember(m));
      }
      forall m | m in y ensures HasCanon(x, CanonMember(m)) {
        assert HasCanon(y, CanonMember(m));
      }
    }
    if (forall m | m in x :: HasCanon(y, CanonMember(m))) && (forall m | m in y :: HasCanon(x, CanonMember(m))) {
      CanonObjectAscends(x);
      CanonObjectAscends(y);
      AscendingIsUnique(cx, cy);
    }
  }

  lemma {:induction false} EquivObjects(x: seq<Member>, y: seq<Member>)
    requires WellFormed(Obj(x)) && WellFormed(Obj(y))
    ensures Equiv(Obj(x), Obj(y)) <==> CanonMembers(Sort(x)) == CanonMembers(Sort(y))
    decreases x
  {
    forall i, j | 0 <= i < |x| && 0 <= j < |y|
      ensures Equiv(x[i].value, y[j].value) <==> Canon(x[i].value) == Canon(y[j].value)
    {
      EquivIsSameCanon(x[i].value, y[j].value);
    }
    EquivMembers(x, y);
    SameMembersSameObject(x, y);
  }

  /** The canonical form: two values print alike exactly when they are equal up to the order of object keys. */
  lemma PrintIsCanonical(a: Json, b: Json)
    requires WellFormed(a) && WellFormed(b)
    ensures Print(a) == Print(b) <==> Equiv(a, b)
  {
    PrintParses(a);
    PrintParses(b);
    PrintOfCanon(a);
    PrintOfCanon(b);
    EquivIsSameCanon(a, b);
  }

  // ---------- the text as UTF-8 ----------

  /** Every surrogate is in a pair, so that encoding the text as UTF-8 loses nothing. */
  predicate Paired(t: Text)
    decreases |t|
  {
    if t == [] then true
    else if High(t[0]) then |t| > 1 && Low(t[1]) && Paired(t[2..])
    else !Low(t[0]) && Paired(t[1..])
  }

  lemma {:induction false} PairedAppends(a: Text, b: Text)
    requires Paired(a) && Paired(b)
    ensures Paired(a + b)
    decreases |a|
  {
    if a == [] {
      assert a + b == b;
    } else if High(a[0]) {
      PairedAppends(a[2..], b);
      assert (a + b)[2..] == a[2..] + b;
    } else {
      PairedAppends(a[1..], b);
      assert (a + b)[1..] == a[1..] + b;
    }
  }

  lemma {:induction false} PlainIsPaired(t: Text)
    requires forall i | 0 <= i < |t| :: !High(t[i]) && !Low(t[i])
    ensures Paired(t)
    decreases |t|
  {
    if t != [] {
      PlainIsPaired(t[1..]);
    }
  }

  lemma {:induction false} DigitsArePlain(n: nat)
    ensures forall i | 0 <= i < |Digits(n)| :: Digits(n)[i] < 0xD800
  {
    if n >= 10 {
      DigitsArePlain(n / 10);
    }
  }

  lemma {:induction false} EscapeIsPaired(s: Text)
    ensures Paired(Escape(s))
    decreases |s|
  {
    if s == [] {
    } else if |s| > 1 && High(s[0]) && Low(s[1]) {
      EscapeIsPaired(s[2..]);
      assert s[..2][2..] == [];
      PairedAppends(s[..2], Escape(s[2..]));
    } else {
      EscapeIsPaired(s[1..]);
      PlainIsPaired(EscapeUnit(s[0]));
      PairedAppends(EscapeUnit(s[0]), Escape(s[1..]));
    }
  }

  lemma WrappedIsPaired(open: Unit, t: Text, close: Unit)
    requires open < 0x80 && close < 0x80 && Paired(t)
    ensures Paired([open] + t + [close])
  {
    PlainIsPaired([open]);
    PlainIsPaired([close]);
    PairedAppends([open], t);
    PairedAppends([open] + t, [close]);
  }

  lemma QuoteIsPaired(s: Text)
    ensures Paired(Quote(s))
  {
    EscapeIsPaired(s);
    WrappedIsPaired('"' as int, Escape(s), '"' as int);
  }

  /** A printed text has no lone surrogate, whatever the strings in the value. */
  lemma {:induction false} PrintIsPaired(v: Json)
    ensures Paired(Print(v))
    decreases Height(v), 0
  {
    match v {
      case Str(s) => QuoteIsPaired(s);
      case Arr(items) =>
        PrintItemsPaired(items);
        WrappedIsPaired('[' as int, PrintItems(items), ']' as int);
      case Obj(ms) =>
        PrintMembersPaired(Sort(ms));
        WrappedIsPaired('{' as int, PrintMembers(Sort(ms)), '}' as int);
      case Num(n) =>
        var m := if n < 0 then -n else n;
        DigitsArePlain(m);
        PlainIsPaired(Digits(m));
        PlainIsPaired(['-' as int]);
        PairedAppends(['-' as int], Digits(m));
      case _ => PlainIsPaired(Print(v));
    }
  }

  lemma {:induction false} PrintItemsPaired(items: seq<Json>)
    ensures Paired(PrintItems(items))
    decreases ItemHeights(items), 1 + |items|
  {
    if items != [] {
      PrintIsPaired(items[0]);
      PrintItemsPaired(items[1..]);
      PlainIsPaired([',' as int]);
      PairedAppends(Print(items[0]), [',' as int]);
      PairedAppends(Print(items[0]) + [',' as int], PrintItems(items[1..]));
    }
  }

  lemma {:induction false} PrintMembersPaired(ms: seq<Member>)
    ensures Paired(PrintMembers(ms))
    decreases Heights(ms), 2 + |ms|
  {
    if ms != [] {
      PrintIsPaired(ms[0].value);
      QuoteIsPaired(ms[0].key);
      PlainIsPaired([':' as int]);
      PlainIsPaired([',' as int]);
      PairedAppends(Quote(ms[0].key), [':' as int]);
      PairedAppends(Quote(ms[0].key) + [':' as int], Print(ms[0].value));
      PrintMembersPaired(ms[1..]);
      PairedAppends(PrintMember(ms[0]), [',' as int]);
      PairedAppends(PrintMember(ms[0]) + [',' as int], PrintMembers(ms[1..]));
    }
  }
}
