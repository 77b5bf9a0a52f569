/** stableStringify of lib/idempotencyStore.js:30-34: JSON text with the keys of every object sorted. */
module StableJson {
  import opened Text

  datatype Json =
    | JNull
    | JBool(b: bool)
    | JNum(text: string)           // the shortest text of the number, as JSON.stringify prints it
    | JStr(s: string)
    | JArr(items: seq<Json>)
    | JObj(members: seq<Member>)   // in insertion order

  datatype Member = Member(key: string, value: Json)

  predicate NumChar(c: char) { IsDigit(c) || c == '-' || c == '+' || c == '.' || c == 'e' || c == 'E' }

  predicate NumberText(t: string) {
    t != "" && (IsDigit(t[0]) || t[0] == '-') && forall i | 0 <= i < |t| :: NumChar(t[i])
  }

  predicate DistinctKeys(ms: seq<Member>) { forall i, j | 0 <= i < j < |ms| :: ms[i].key != ms[j].key }

  predicate WellFormed(j: Json) {
    match j
    case JNum(t) => NumberText(t)
    case JArr(items) => forall i | 0 <= i < |items| :: WellFormed(items[i])
    case JObj(ms) => DistinctKeys(ms) && forall i | 0 <= i < |ms| :: WellFormed(ms[i].value)
    case _ => true
  }

  function Keys(ms: seq<Member>): set<string> { set i | 0 <= i < |ms| :: ms[i].key }

  function IndexOf(ms: seq<Member>, k: string): (i: nat)
    requires k in Keys(ms)
    ensures i < |ms| && ms[i].key == k
  { if ms[0].key == k then 0 else 1 + IndexOf(ms[1..], k) }

  // ----- JSON.stringify of a string -----

  function HexDigit(n: nat): char
    requires n < 16
  { if n < 10 then '0' + n as char else 'a' + (n - 10) as char }

  function EscapeChar(c: char): (e: string)
    ensures e != ""
  {
    if c == '"' then "\\\""
    else if c == '\\' then "\\\\"
    else if c == '\U{0008}' then "\\b"
    else if c == '\t' then "\\t"
    else if c == '\n' then "\\n"
    else if c == '\U{000C}' then "\\f"
    else if c == '\r' then "\\r"
    else if c < ' ' then ['\\', 'u', '0', '0', HexDigit(c as nat / 16), HexDigit(c as nat % 16)]
    else [c]
  }

  function Escape(s: string): string { if s == "" then "" else EscapeChar(s[0]) + Escape(s[1..]) }

  function Quote(s: string): string { "\"" + Escape(s) + "\"" }

  // ----- stableStringify -----

  function Print(j: Json): string
    decreases j, 1, 0
  {
    match j
    case JNull => "null"
    case JBool(b) => if b then "true" else "false"
    case JNum(t) => t
    case JStr(s) => Quote(s)
    case JArr(_) => "[" + PrintItems(j, 0) + "]"
    case JObj(ms) => "{" + PrintMembers(j, SortSet(Keys(ms)), 0) + "}"
  }

  /** items[from..], printed and joined with ','; a comma before every item but the first. */
  function PrintItems(j: Json, from: nat): string
    requires j.JArr? && from <= |j.items|
    decreases j, 0, |j.items| - from
  {
    if from == |j.items| then ""
    else (if from > 0 then "," else "") + Print(j.items[from]) + PrintItems(j, from + 1)
  }

  /** The members of keys[from..], in that order. */
  function PrintMembers(j: Json, keys: seq<string>, from: nat): string
    requires j.JObj? && from <= |keys| && forall k | k in keys :: k in Keys(j.members)
    decreases j, 0, |keys| - from
  {
    if from == |keys| then ""
    else
      (if from > 0 then "," else "") + Quote(keys[from]) + ":"
      + Print(ValueAt(j, keys[from])) + PrintMembers(j, keys, from + 1)
  }

  function ValueAt(j: Json, k: string): (v: Json)
    requires j.JObj? && k in Keys(j.members)
    ensures v < j
  { j.members[IndexOf(j.members, k)].value }

  /** Equal as JSON values: arrays item by item, objects key by key in any order. */
  ghost predicate Same(a: Json, b: Json)
    decreases a
  {
    match (a, b)
    case (JArr(x), JArr(y)) => |x| == |y| && forall i | 0 <= i < |x| :: Same(x[i], y[i])
    case (JObj(x), JObj(y)) =>
      Keys(x) == Keys(y)
      && forall k | k in Keys(x) :: Same(ValueAt(a, k), ValueAt(b, k))
    case _ => a == b
  }

  // ----- Reading the text back -----

  lemma EscapeCharUnique(c: char, d: char, x: string, y: string)
    requires EscapeChar(c) + x == EscapeChar(d) + y
    ensures c == d && x == y
  {
    var s := EscapeChar(c) + x;
    assert s[0] == EscapeChar(c)[0] == EscapeChar(d)[0];
    if |EscapeChar(c)| > 1 && |EscapeChar(d)| > 1 {
      assert s[1] == EscapeChar(c)[1] == EscapeChar(d)[1];
      if |EscapeChar(c)| == 6 {
        assert s[4] == EscapeChar(c)[4] == EscapeChar(d)[4] && s[5] == EscapeChar(c)[5] == EscapeChar(d)[5];
        HexUnique(c as nat / 16, d as nat / 16);
        HexUnique(c as nat % 16, d as nat % 16);
      }
    }
    assert c == d;
    assert x == s[|EscapeChar(c)|..] == y;
  }

  lemma HexUnique(m: nat, n: nat)
    requires m < 16 && n < 16 && HexDigit(m) == HexDigit(n)
    ensures m == n
  {}

  /** The closing quote is recognised at once: no escape begins with one. */
  lemma EscapeHead(s: string, x: string)
    ensures var l := Escape(s) + "\"" + x; (l[0] == '"' <==> s == "") && (s == "" ==> l[1..] == x)
    ensures s != "" ==> Escape(s) + "\"" + x == EscapeChar(s[0]) + (Escape(s[1..]) + "\"" + x)
  {
    if s == "" {
      assert Escape(s) + "\"" + x == "\"" + x;
    } else {
      EscapeNeverCloses(s[0]);
      Grouped(EscapeChar(s[0]), Escape(s[1..]), "\"", x);
    }
  }

  lemma EscapeNeverCloses(c: char)
    ensures EscapeChar(c)[0] != '"'
  {}

  lemma Grouped(a: string, b: string, c: string, d: string)
    ensures a + b + c + d == a + (b + c + d)
  {}

  lemma {:induction false} EscapeUnique(s: string, t: string, x: string, y: string)
    requires Escape(s) + "\"" + x == Escape(t) + "\"" + y
    ensures s == t && x == y
  {
    EscapeHead(s, x);
    EscapeHead(t, y);
    if s != "" {
      EscapeCharUnique(s[0], t[0], Escape(s[1..]) + "\"" + x, Escape(t[1..]) + "\"" + y);
      EscapeUnique(s[1..], t[1..], x, y);
      assert s == [s[0]] + s[1..] && t == [t[0]] + t[1..];
    }
  }

  lemma QuoteUnique(s: string, t: string, x: string, y: string)
    requires Quote(s) + x == Quote(t) + y
    ensures s == t && x == y
  {
    assert (Quote(s) + x)[1..] == Escape(s) + "\"" + x;
    assert (Quote(t) + y)[1..] == Escape(t) + "\"" + y;
    EscapeUnique(s, t, x, y);
  }

  /** What may follow a value: nothing, or one of the three closing marks. */
  predicate Delimited(x: string) { x == "" || x[0] == ',' || x[0] == ']' || x[0] == '}' }

  predicate NumChars(s: string) { forall i | 0 <= i < |s| :: NumChar(s[i]) }

  lemma {:induction false} NumberUnique(s: string, t: string, x: string, y: string)
    requires NumChars(s) && NumChars(t) && Delimited(x) && Delimited(y) && s + x == t + y
    ensures s == t && x == y
  {
    assert s + x == (if s != "" then [s[0]] + (s[1..] + x) else x);
    assert t + y == (if t != "" then [t[0]] + (t[1..] + y) else y);
    if s != "" && t != "" {
      assert (s + x)[0] == s[0] && (t + y)[0] == t[0];
      assert (s + x)[1..] == s[1..] + x && (t + y)[1..] == t[1..] + y;
      NumberUnique(s[1..], t[1..], x, y);
      assert s == [s[0]] + s[1..] && t == [t[0]] + t[1..];
    }
  }

  /** The first character of a printed value tells its kind. */
  lemma FirstChar(j: Json)
    requires WellFormed(j)
    ensures var p := Print(j);
            && p != ""
            && (j.JNull? <==> p[0] == 'n') && (j == JBool(true) <==> p[0] == 't') && (j == JBool(false) <==> p[0] == 'f')
            && (j.JNum? <==> IsDigit(p[0]) || p[0] == '-')
            && (j.JStr? <==> p[0] == '"') && (j.JArr? <==> p[0] == '[') && (j.JObj? <==> p[0] == '{')
  {}

  lemma HeadTail(p: string, x: string)
    requires p != ""
    ensures (p + x)[0] == p[0] && (p + x)[1..] == p[1..] + x && (p + x)[|p|..] == x
  {}

  /** A printed value, up to the mark that follows it, is read back in one way only. */
  lemma {:induction false} PrintUnique(a: Json, b: Json, x: string, y: string)
    requires WellFormed(a) && WellFormed(b) && Delimited(x) && Delimited(y)
    requires Print(a) + x == Print(b) + y
    ensures Same(a, b) && x == y
    decreases a, 2, 0
  {
    FirstChar(a);
    FirstChar(b);
    HeadTail(Print(a), x);
    HeadTail(Print(b), y);
    match a
    case JNull =>
    case JBool(v) =>
    case JNum(t) => NumberUnique(t, b.text, x, y);
    case JStr(s) => QuoteUnique(s, b.s, x, y);
    case JArr(_) => ArrayUnique(a, b, x, y);
    case JObj(_) => ObjectUnique(a, b, x, y);
  }

  lemma {:induction false} ArrayUnique(a: Json, b: Json, x: string, y: string)
    requires a.JArr? && b.JArr? && WellFormed(a) && WellFormed(b) && Delimited(x) && Delimited(y)
    requires Print(a) + x == Print(b) + y
    ensures Same(a, b) && x == y
    decreases a, 1, 0
  {
    var l, r := PrintItems(a, 0) + "]" + x, PrintItems(b, 0) + "]" + y;
    assert Print(a) + x == "[" + l && Print(b) + y == "[" + r;
    assert ("[" + l)[1..] == l && ("[" + r)[1..] == r;
    ItemsUnique(a, b, 0, x, y);
  }

  lemma {:induction false} ObjectUnique(a: Json, b: Json, x: string, y: string)
    requires a.JObj? && b.JObj? && WellFormed(a) && WellFormed(b) && Delimited(x) && Delimited(y)
    requires Print(a) + x == Print(b) + y
    ensures Same(a, b) && x == y
    decreases a, 1, 0
  {
    var ks, ls := SortSet(Keys(a.members)), SortSet(Keys(b.members));
    PrintObject(a, ks, x);
    PrintObject(b, ls, y);
    MembersUnique(a, b, ks, ls, 0, x, y);
    SameKeySets(Keys(a.members), Keys(b.members));
    SameByKeys(a, b, ks);
  }

  lemma PrintObject(a: Json, ks: seq<string>, x: string)
    requires a.JObj? && ks == SortSet(Keys(a.members))
    ensures Known(a, ks) && (Print(a) + x)[1..] == MembersThen(a, ks, 0, x)
  {
    assert Print(a) + x == "{" + MembersThen(a, ks, 0, x);
    assert ("{" + MembersThen(a, ks, 0, x))[1..] == MembersThen(a, ks, 0, x);
  }

  lemma SameByKeys(a: Json, b: Json, ks: seq<string>)
    requires a.JObj? && b.JObj? && Keys(a.members) == Keys(b.members)
    requires forall k :: k in ks <==> k in Keys(a.members)
    requires forall i | 0 <= i < |ks| :: Same(ValueAt(a, ks[i]), ValueAt(b, ks[i]))
    ensures Same(a, b)
  {
    forall k | k in Keys(a.members) ensures Same(ValueAt(a, k), ValueAt(b, k)) {
      var i :| 0 <= i < |ks| && ks[i] == k;
      assert Same(ValueAt(a, ks[i]), ValueAt(b, ks[i]));
    }
  }

  lemma SameKeySets(s: set<string>, t: set<string>)
    requires SortSet(s) == SortSet(t)
    ensures s == t
  {
    forall k ensures k in s <==> k in t { assert k in SortSet(s) <==> k in s; }
  }

  /** items[from..] with everything that follows the list. */
  function ItemsThen(a: Json, from: nat, x: string): string
    requires a.JArr? && from <= |a.items|
  { PrintItems(a, from) + "]" + x }

  /** The list goes on with ',' or ends with ']'; its first item is recognised by its own start. */
  lemma ItemsStart(a: Json, from: nat, x: string)
    requires a.JArr? && WellFormed(a) && from <= |a.items|
    ensures var s := ItemsThen(a, from, x);
            if from == |a.items| then s == "]" + x
            else s == (if from > 0 then "," else "") + (Print(a.items[from]) + ItemsThen(a, from + 1, x))
                 && s[0] != ']' && (from > 0 ==> s[0] == ',')
  {
    if from < |a.items| { FirstChar(a.items[from]); }
  }

  lemma ItemsDelimited(a: Json, from: nat, x: string)
    requires a.JArr? && WellFormed(a) && 0 < from <= |a.items|
    ensures Delimited(ItemsThen(a, from, x))
  { ItemsStart(a, from, x); }

  lemma SameStart(comma: bool, u: string, v: string)
    requires (if comma then "," else "") + u == (if comma then "," else "") + v
    ensures u == v
  {
    assert ("," + u)[1..] == u && ("," + v)[1..] == v;
    assert "" + u == u && "" + v == v;
  }

  lemma {:induction false} ItemsUnique(a: Json, b: Json, from: nat, x: string, y: string)
    requires a.JArr? && b.JArr? && WellFormed(a) && WellFormed(b) && from <= |a.items| && from <= |b.items|
    requires ItemsThen(a, from, x) == ItemsThen(b, from, y)
    ensures |a.items| == |b.items| && x == y && forall i | from <= i < |a.items| :: Same(a.items[i], b.items[i])
    decreases a, 0, |a.items| - from
  {
    ItemsStart(a, from, x);
    ItemsStart(b, from, y);
    if from == |a.items| {
      assert ("]" + x)[1..] == x && ("]" + y)[1..] == y;
    } else {
      SameStart(from > 0, Print(a.items[from]) + ItemsThen(a, from + 1, x), Print(b.items[from]) + ItemsThen(b, from + 1, y));
      ItemsDelimited(a, from + 1, x);
      ItemsDelimited(b, from + 1, y);
      PrintUnique(a.items[from], b.items[from], ItemsThen(a, from + 1, x), ItemsThen(b, from + 1, y));
      ItemsUnique(a, b, from + 1, x, y);
    }
  }

  function MembersThen(a: Json, ks: seq<string>, from: nat, x: string): string
    requires a.JObj? && from <= |ks| && forall k | k in ks :: k in Keys(a.members)
  { PrintMembers(a, ks, from) + "}" + x }

  lemma MembersStart(a: Json, ks: seq<string>, from: nat, x: string)
    requires a.JObj? && from <= |ks| && forall k | k in ks :: k in Keys(a.members)
    ensures var s := MembersThen(a, ks, from, x);
            if from == |ks| then s == "}" + x
            else s == MemberThen(from > 0, ks[from], Print(ValueAt(a, ks[from])) + MembersThen(a, ks, from + 1, x))
                 && s[0] != '}' && (from > 0 ==> s[0] == ',')
  {
    if from < |ks| {
      var c, q, v := if from > 0 then "," else "", Quote(ks[from]), Print(ValueAt(a, ks[from]));
      Regroup(c, q, v, PrintMembers(a, ks, from + 1), x);
      assert q[0] == '"';
    } else {
      assert PrintMembers(a, ks, from) == "";
    }
  }

  lemma Regroup(c: string, q: string, v: string, tail: string, x: string)
    ensures c + q + ":" + v + tail + "}" + x == c + (q + (":" + (v + (tail + "}" + x))))
  {}

  lemma MembersDelimited(a: Json, ks: seq<string>, from: nat, x: string)
    requires a.JObj? && 0 < from <= |ks| && forall k | k in ks :: k in Keys(a.members)
    ensures Delimited(MembersThen(a, ks, from, x))
  { MembersStart(a, ks, from, x); }

  /** One member, with or without the comma before it. */
  function MemberThen(comma: bool, k: string, rest: string): string {
    (if comma then "," else "") + (Quote(k) + (":" + rest))
  }

  lemma MemberUnique(comma: bool, k: string, l: string, x: string, y: string)
    requires MemberThen(comma, k, x) == MemberThen(comma, l, y)
    ensures k == l && x == y
  {
    var p, q := Quote(k) + (":" + x), Quote(l) + (":" + y);
    assert ("," + p)[1..] == p && ("," + q)[1..] == q && "" + p == p && "" + q == q;
    QuoteUnique(k, l, ":" + x, ":" + y);
    assert (":" + x)[1..] == x && (":" + y)[1..] == y;
  }

  predicate Known(a: Json, ks: seq<string>)
    requires a.JObj?
  { forall k | k in ks :: k in Keys(a.members) }

  /** One member is read back from what follows it. */
  lemma {:induction false} MemberStep(a: Json, b: Json, ks: seq<string>, ls: seq<string>, from: nat, x: string, y: string)
    requires a.JObj? && b.JObj? && WellFormed(a) && WellFormed(b) && Known(a, ks) && Known(b, ls)
    requires from < |ks| && from < |ls|
    requires MembersThen(a, ks, from, x) == MembersThen(b, ls, from, y)
    ensures ks[from] == ls[from] && Same(ValueAt(a, ks[from]), ValueAt(b, ls[from]))
    ensures MembersThen(a, ks, from + 1, x) == MembersThen(b, ls, from + 1, y)
    decreases a, 0, 0
  {
    MembersStart(a, ks, from, x);
    MembersStart(b, ls, from, y);
    var la, lb := MembersThen(a, ks, from + 1, x), MembersThen(b, ls, from + 1, y);
    MemberUnique(from > 0, ks[from], ls[from], Print(ValueAt(a, ks[from])) + la, Print(ValueAt(b, ls[from])) + lb);
    MembersDelimited(a, ks, from + 1, x);
    MembersDelimited(b, ls, from + 1, y);
    PrintUnique(ValueAt(a, ks[from]), ValueAt(b, ls[from]), la, lb);
  }

  /** The closing brace tells the end of the members. */
  lemma MembersEnd(a: Json, ks: seq<string>, from: nat, x: string)
    requires a.JObj? && from <= |ks| && Known(a, ks)
    ensures var s := MembersThen(a, ks, from, x); s != "" && (s[0] == '}' <==> from == |ks|) && (from == |ks| ==> s[1..] == x)
  {
    MembersStart(a, ks, from, x);
    assert ("}" + x)[1..] == x;
  }

  lemma {:induction false} MembersUnique(a: Json, b: Json, ks: seq<string>, ls: seq<string>, from: nat, x: string, y: string)
    requires a.JObj? && b.JObj? && WellFormed(a) && WellFormed(b) && Known(a, ks) && Known(b, ls)
    requires from <= |ks| && from <= |ls| && MembersThen(a, ks, from, x) == MembersThen(b, ls, from, y)
    ensures |ks| == |ls| && x == y
    ensures forall i | from <= i < |ks| :: ks[i] == ls[i] && Same(ValueAt(a, ks[i]), ValueAt(b, ks[i]))
    decreases a, 0, |ks| - from + 1
  {
    MembersEnd(a, ks, from, x);
    MembersEnd(b, ls, from, y);
    if from < |ks| {
      MemberStep(a, b, ks, ls, from, x, y);
      MembersUnique(a, b, ks, ls, from + 1, x, y);
    }
  }

  // ----- Equal values print the same -----

  lemma {:induction false} SamePrint(a: Json, b: Json)
    requires Same(a, b)
    ensures Print(a) == Print(b)
    decreases a, 1, 0
  {
    match (a, b)
    case (JArr(_), JArr(_)) => SameItems(a, b, 0);
    case (JObj(x), JObj(_)) => SameMembers(a, b, SortSet(Keys(x)), 0);
    case _ =>
  }

  lemma {:induction false} SameItems(a: Json, b: Json, from: nat)
    requires a.JArr? && b.JArr? && Same(a, b) && from <= |a.items|
    ensures PrintItems(a, from) == PrintItems(b, from)
    decreases a, 0, |a.items| - from
  {
    if from < |a.items| {
      SamePrint(a.items[from], b.items[from]);
      SameItems(a, b, from + 1);
    }
  }

  lemma {:induction false} SameMembers(a: Json, b: Json, keys: seq<string>, from: nat)
    requires a.JObj? && b.JObj? && Same(a, b) && from <= |keys| && forall k | k in keys :: k in Keys(a.members)
    ensures PrintMembers(a, keys, from) == PrintMembers(b, keys, from)
    decreases a, 0, |keys| - from
  {
    if from < |keys| {
      SamePrint(ValueAt(a, keys[from]), ValueAt(b, keys[from]));
      SameMembers(a, b, keys, from + 1);
    }
  }

  /** Two JSON values print the same text exactly when they are equal up to the order of object keys. */
  lemma StableStringifyCanonical(a: Json, b: Json)
    requires WellFormed(a) && WellFormed(b)
    ensures Print(a) == Print(b) <==> Same(a, b)
  {
    if Print(a) == Print(b) {
      assert Print(a) + "" == Print(b) + "";
      PrintUnique(a, b, "", "");
    }
    if Same(a, b) { SamePrint(a, b); }
  }

  // ----- The text itself -----

  /** A hexadecimal digit, section 7 of RFC 8259. */
  function HexValue(c: char): Option<nat> {
    if '0' <= c <= '9' then Some((c - '0') as nat)
    else if 'a' <= c <= 'f' then Some(10 + (c - 'a') as nat)
    else if 'A' <= c <= 'F' then Some(10 + (c - 'A') as nat)
    else None
  }

  /** The next character of a JSON string below U+0100, by section 7 of RFC 8259, and what follows it. */
  function NextChar(s: string): Option<(char, string)> {
    if s == "" || s[0] == '"' || s[0] < ' ' then None
    else if s[0] != '\\' then Some((s[0], s[1..]))
    else if |s| < 2 then None
    else if s[1] == '"' || s[1] == '\\' || s[1] == '/' then Some((s[1], s[2..]))
    else if s[1] == 'b' then Some(('\U{0008}', s[2..]))
    else if s[1] == 'f' then Some(('\U{000C}', s[2..]))
    else if s[1] == 'n' then Some(('\n', s[2..]))
    else if s[1] == 'r' then Some(('\r', s[2..]))
    else if s[1] == 't' then Some(('\t', s[2..]))
    else if s[1] == 'u' && |s| >= 6 && s[2] == '0' && s[3] == '0' && HexValue(s[4]).Some? && HexValue(s[5]).Some?
    then Some(((16 * HexValue(s[4]).value + HexValue(s[5]).value) as char, s[6..]))
    else None
  }

  /** Every character is read back, and written as short as JSON allows: itself, one of seven pairs, or a \u escape for other controls. */
  lemma EscapeReadsBack(c: char, x: string)
    ensures NextChar(EscapeChar(c) + x) == Some((c, x))
    ensures |EscapeChar(c)| == if c == '"' || c == '\\' || 8 <= c as int <= 10 || 12 <= c as int <= 13 then 2
                               else if c as int < 32 then 6 else 1
  {
    var s := EscapeChar(c) + x;
    assert s[|EscapeChar(c)|..] == x && forall k | 0 <= k < |EscapeChar(c)| :: s[k] == EscapeChar(c)[k];
  }

  function PrintedItems(j: Json): (r: seq<string>)
    requires j.JArr?
    ensures |r| == |j.items|
  { seq(|j.items|, i requires 0 <= i < |j.items| => Print(j.items[i])) }

  function PrintedMembers(j: Json, keys: seq<string>): (r: seq<string>)
    requires j.JObj? && forall k | k in keys :: k in Keys(j.members)
    ensures |r| == |keys|
  { seq(|keys|, i requires 0 <= i < |keys| => Quote(keys[i]) + ":" + Print(ValueAt(j, keys[i]))) }

  /** What a list prints after its first part. */
  function JoinedFrom(parts: seq<string>, from: nat): string
    requires from <= |parts|
  { if from == |parts| then "" else (if from > 0 then "," else "") + Join(parts[from..], ",") }

  lemma JoinedNext(parts: seq<string>, from: nat)
    requires from < |parts|
    ensures JoinedFrom(parts, from) == (if from > 0 then "," else "") + parts[from] + JoinedFrom(parts, from + 1)
  { assert parts[from..][1..] == parts[from + 1..]; }

  lemma {:induction false} ItemsJoined(j: Json, from: nat)
    requires j.JArr? && from <= |j.items|
    ensures PrintItems(j, from) == JoinedFrom(PrintedItems(j), from)
    decreases |j.items| - from
  {
    if from < |j.items| {
      ItemsJoined(j, from + 1);
      JoinedNext(PrintedItems(j), from);
    }
  }

  lemma {:induction false} MembersJoined(j: Json, keys: seq<string>, from: nat)
    requires j.JObj? && from <= |keys| && forall k | k in keys :: k in Keys(j.members)
    ensures PrintMembers(j, keys, from) == JoinedFrom(PrintedMembers(j, keys), from)
    decreases |keys| - from
  {
    if from < |keys| {
      MembersJoined(j, keys, from + 1);
      JoinedNext(PrintedMembers(j, keys), from);
      Grouped(if from > 0 then "," else "", Quote(keys[from]), ":", Print(ValueAt(j, keys[from])));
    }
  }

  /** Scalars print as JSON literals, number texts and quoted strings. */
  lemma ScalarPrints(j: Json)
    ensures j.JNull? ==> Print(j) == "null"
    ensures j.JBool? ==> Print(j) == if j.b then "true" else "false"
    ensures j.JNum? ==> Print(j) == j.text
    ensures j.JStr? ==> Print(j) == "\"" + Escape(j.s) + "\""
  {}

  /** An array prints its items joined with ','. */
  lemma ArrayPrints(j: Json)
    requires j.JArr?
    ensures Print(j) == "[" + Join(PrintedItems(j), ",") + "]"
  {
    ItemsJoined(j, 0);
    assert PrintedItems(j)[0..] == PrintedItems(j);
  }

  /** An object prints its members joined with ',', in ascending key order, each key once. */
  lemma ObjectPrints(j: Json, keys: seq<string>)
    requires j.JObj? && keys == SortSet(Keys(j.members))
    ensures Print(j) == "{" + Join(PrintedMembers(j, keys), ",") + "}"
    ensures forall a, b | 0 <= a < b < |keys| :: Le(keys[a], keys[b]) && keys[a] != keys[b]
  {
    MembersJoined(j, keys, 0);
    var parts := PrintedMembers(j, keys);
    assert parts[0..] == parts;
    assert JoinedFrom(parts, 0) == Join(parts, ",") by { if parts == [] { assert Join(parts, ",") == ""; } }
  }
}
