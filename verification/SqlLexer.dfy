/**
 * Where a SQL text is inside a quote or a comment, as a one-character automaton, and the pieces
 * between its top-level semicolons. The two splitters of the program are proved against it.
 */
module SqlLexer {
  import opened Text

  /** Dash and Slash: outside everything, just after '-' or '/'. Star: inside a block comment, after '*'. */
  datatype Mode = Normal | Dash | Slash | Line | Block | Star
                | Single | SingleEsc | Double | DoubleEsc | Tick | TickEsc

  predicate TopLevel(m: Mode) { m == Normal || m == Dash || m == Slash }

  function FromNormal(c: char): Mode {
    if c == '-' then Dash else if c == '/' then Slash
    else if c == '\'' then Single else if c == '"' then Double else if c == '`' then Tick
    else Normal
  }

  /** `esc`: whether a backslash escapes inside backticks. */
  function Step(esc: bool, m: Mode, c: char): Mode {
    match m
    case Normal => FromNormal(c)
    case Dash => if c == '-' then Line else FromNormal(c)
    case Slash => if c == '*' then Block else FromNormal(c)
    case Line => if c == '\n' then Normal else Line
    case Block => if c == '*' then Star else Block
    case Star => if c == '/' then Normal else if c == '*' then Star else Block
    case Single => if c == '\\' then SingleEsc else if c == '\'' then Normal else Single
    case SingleEsc => Single
    case Double => if c == '\\' then DoubleEsc else if c == '"' then Normal else Double
    case DoubleEsc => Double
    case Tick => if c == '`' then Normal else if esc && c == '\\' then TickEsc else Tick
    case TickEsc => Tick
  }

  function Run(esc: bool, m: Mode, s: string): Mode {
    if s == [] then m else Step(esc, Run(esc, m, s[..|s| - 1]), s[|s| - 1])
  }

  /** The text between top-level semicolons, comments included; `cur` is the piece begun so far. */
  function Pieces(esc: bool, m: Mode, s: string, cur: string): (ps: seq<string>)
    ensures ps != []
    decreases |s|
  {
    if s == [] then [cur]
    else if TopLevel(m) && s[0] == ';' then [cur] + Pieces(esc, Normal, s[1..], "")
    else Pieces(esc, Step(esc, m, s[0]), s[1..], cur + [s[0]])
  }

  // ----- Dropping comments -----

  function Pending(m: Mode): string { if m == Dash then "-" else if m == Slash then "/" else "" }

  function EmitNormal(c: char): string { if c == '-' || c == '/' then "" else [c] }

  /** What survives of c read in mode m; a '-' or '/' waits until it is known not to open a comment. */
  function Emit(m: Mode, c: char): string {
    match m
    case Normal => EmitNormal(c)
    case Dash => if c == '-' then "" else "-" + EmitNormal(c)
    case Slash => if c == '*' then "" else "/" + EmitNormal(c)
    case Line => if c == '\n' then "\n" else ""
    case Block => ""
    case Star => ""
    case _ => [c]
  }

  function Kept(esc: bool, m: Mode, s: string): string {
    if s == [] then "" else Kept(esc, m, s[..|s| - 1]) + Emit(Run(esc, m, s[..|s| - 1]), s[|s| - 1])
  }

  /** The text without its comments; the newline that ends a line comment stays. */
  function DropComments(esc: bool, m: Mode, s: string): string { Kept(esc, m, s) + Pending(Run(esc, m, s)) }

  /** The comment-free pieces in one pass; `kept` is what survives of the piece begun so far. */
  function CleanPieces(esc: bool, m: Mode, s: string, kept: string): (ps: seq<string>)
    ensures ps != []
    decreases |s|
  {
    if s == [] then [kept + Pending(m)]
    else if TopLevel(m) && s[0] == ';' then [kept + Pending(m)] + CleanPieces(esc, Normal, s[1..], "")
    else CleanPieces(esc, Step(esc, m, s[0]), s[1..], kept + Emit(m, s[0]))
  }

  // ----- Trim -----

  predicate IsSpace(c: char) {
    || c == ' ' || c == '\t' || c == '\n' || c == '\r' || c == '\U{000B}' || c == '\U{000C}'
    || c == '\U{00A0}' || c == '\U{FEFF}' || c == '\U{1680}' || '\U{2000}' <= c <= '\U{200A}'
    || c == '\U{2028}' || c == '\U{2029}' || c == '\U{202F}' || c == '\U{205F}' || c == '\U{3000}'
  }

  predicate AllSpace(s: string) { forall i | 0 <= i < |s| :: IsSpace(s[i]) }

  function TrimStart(s: string): string { if s != [] && IsSpace(s[0]) then TrimStart(s[1..]) else s }

  function TrimEnd(s: string): string { if s != [] && IsSpace(s[|s| - 1]) then TrimEnd(s[..|s| - 1]) else s }

  /** String.prototype.trim. */
  function Trim(s: string): string { TrimEnd(TrimStart(s)) }

  function TrimAll(ps: seq<string>): (r: seq<string>)
    ensures |r| == |ps|
  { seq(|ps|, i requires 0 <= i < |ps| => Trim(ps[i])) }

  function NonEmpty(ps: seq<string>): seq<string> {
    if ps == [] then [] else (if ps[0] == "" then [] else [ps[0]]) + NonEmpty(ps[1..])
  }

  function Stripped(esc: bool, ps: seq<string>): (r: seq<string>)
    ensures |r| == |ps|
  { seq(|ps|, i requires 0 <= i < |ps| => DropComments(esc, Normal, ps[i])) }

  lemma {:induction false} RunConcat(esc: bool, m: Mode, a: string, b: string)
    ensures Run(esc, m, a + b) == Run(esc, Run(esc, m, a), b)
  {
    if b == [] {
      assert a + b == a;
    } else {
      assert (a + b)[..|a + b| - 1] == a + b[..|b| - 1];
      RunConcat(esc, m, a, b[..|b| - 1]);
    }
  }

  lemma {:induction false} KeptConcat(esc: bool, m: Mode, a: string, b: string)
    ensures Kept(esc, m, a + b) == Kept(esc, m, a) + Kept(esc, Run(esc, m, a), b)
  {
    if b == [] {
      assert a + b == a;
    } else {
      var b' := b[..|b| - 1];
      assert (a + b)[..|a + b| - 1] == a + b';
      KeptConcat(esc, m, a, b');
      RunConcat(esc, m, a, b');
    }
  }

  lemma RunFirst(esc: bool, m: Mode, a: string)
    requires a != []
    ensures Run(esc, m, a) == Run(esc, Step(esc, m, a[0]), a[1..])
  {
    assert a == [a[0]] + a[1..];
    RunConcat(esc, m, [a[0]], a[1..]);
    assert Run(esc, m, [a[0]]) == Step(esc, m, a[0]) by { assert [a[0]][..0] == []; }
  }

  lemma RunSnoc(esc: bool, m: Mode, a: string, c: char)
    ensures Run(esc, m, a + [c]) == Step(esc, Run(esc, m, a), c)
    ensures Kept(esc, m, a + [c]) == Kept(esc, m, a) + Emit(Run(esc, m, a), c)
  { assert (a + [c])[..|a|] == a; }

  lemma StrippedFirst(esc: bool, cur: string, ps: seq<string>)
    ensures Stripped(esc, [cur] + ps) == [DropComments(esc, Normal, cur)] + Stripped(esc, ps)
  {}

  /** Dropping comments piece by piece or while splitting is the same. */
  lemma {:induction false} CleanIsStripped(esc: bool, s: string, cur: string)
    ensures CleanPieces(esc, Run(esc, Normal, cur), s, Kept(esc, Normal, cur))
            == Stripped(esc, Pieces(esc, Run(esc, Normal, cur), s, cur))
    decreases |s|
  {
    var m := Run(esc, Normal, cur);
    if s != [] {
      if TopLevel(m) && s[0] == ';' {
        CleanIsStripped(esc, s[1..], "");
        StrippedFirst(esc, cur, Pieces(esc, Normal, s[1..], ""));
      } else {
        RunSnoc(esc, Normal, cur, s[0]);
        CleanIsStripped(esc, s[1..], cur + [s[0]]);
      }
    }
  }

  // ----- Losslessness and where the cuts fall -----

  /** The raw pieces rejoined with ';' rebuild the text: nothing is lost or moved. */
  lemma {:induction false} PiecesRebuild(esc: bool, m: Mode, s: string, cur: string)
    ensures Join(Pieces(esc, m, s, cur), ";") == cur + s
    decreases |s|
  {
    if s == [] {
      assert cur + s == cur;
    } else if TopLevel(m) && s[0] == ';' {
      var rest := Pieces(esc, Normal, s[1..], "");
      PiecesRebuild(esc, Normal, s[1..], "");
      assert ([cur] + rest)[1..] == rest;
      assert "" + s[1..] == s[1..];
      assert cur + ";" + s[1..] == cur + s;
    } else {
      PiecesRebuild(esc, Step(esc, m, s[0]), s[1..], cur + [s[0]]);
      assert cur + [s[0]] + s[1..] == cur + s;
    }
  }

  /** Splitting in two stages: the second continues the last piece of the first in its mode. */
  lemma {:induction false} PiecesConcat(esc: bool, m: Mode, a: string, b: string, cur: string)
    ensures var ps := Pieces(esc, m, a, cur);
            Pieces(esc, m, a + b, cur) == ps[..|ps| - 1] + Pieces(esc, Run(esc, m, a), b, ps[|ps| - 1])
    decreases |a|
  {
    if a == [] {
      assert a + b == b;
    } else {
      assert (a + b)[1..] == a[1..] + b;
      RunFirst(esc, m, a);
      if TopLevel(m) && a[0] == ';' {
        PiecesConcat(esc, Normal, a[1..], b, "");
        PushedFirst(cur, Pieces(esc, Normal, a[1..], ""), Pieces(esc, Run(esc, m, a), b, LastPiece(esc, m, a, cur)));
      } else {
        PiecesConcat(esc, Step(esc, m, a[0]), a[1..], b, cur + [a[0]]);
      }
    }
  }

  function LastPiece(esc: bool, m: Mode, a: string, cur: string): string {
    var ps := Pieces(esc, m, a, cur);
    ps[|ps| - 1]
  }

  lemma PushedFirst(cur: string, rest: seq<string>, more: seq<string>)
    requires rest != []
    ensures var ps := [cur] + rest; ps[..|ps| - 1] + more == [cur] + (rest[..|rest| - 1] + more) && ps[|ps| - 1] == rest[|rest| - 1]
  {}

  /** A ';' cuts exactly when the text before it leaves every quote and comment closed. */
  lemma CutsExactlyAtTopLevel(esc: bool, a: string, b: string)
    ensures var ps, m := Pieces(esc, Normal, a, ""), Run(esc, Normal, a);
            Pieces(esc, Normal, a + ";" + b, "")
            == (if TopLevel(m) then ps + Pieces(esc, Normal, b, "")
                else ps[..|ps| - 1] + Pieces(esc, Step(esc, m, ';'), b, ps[|ps| - 1] + ";"))
  {
    assert a + ";" + b == a + (";" + b);
    PiecesConcat(esc, Normal, a, ";" + b, "");
    assert (";" + b)[1..] == b;
    var ps := Pieces(esc, Normal, a, "");
    assert ps == ps[..|ps| - 1] + [ps[|ps| - 1]];
  }

  // ----- Round trip -----

  /** A statement that no ';' cuts and that ends outside quotes and comments. */
  predicate Whole(esc: bool, s: string) {
    Pieces(esc, Normal, s, "") == [s] && TopLevel(Run(esc, Normal, s))
  }

  lemma {:induction false} JoinedWhole(esc: bool, stmts: seq<string>)
    requires stmts != [] && forall s | s in stmts :: Whole(esc, s)
    ensures Pieces(esc, Normal, Join(stmts, ";"), "") == stmts
  {
    assert Whole(esc, stmts[0]);
    if |stmts| > 1 {
      JoinedWhole(esc, stmts[1..]);
      CutsExactlyAtTopLevel(esc, stmts[0], Join(stmts[1..], ";"));
      assert stmts == [stmts[0]] + stmts[1..];
    }
  }

  // ----- Trimming and comment dropping commute -----

  lemma {:induction false} TrimStartPadded(w: string, s: string)
    requires AllSpace(w)
    ensures TrimStart(w + s) == TrimStart(s)
  {
    if w == [] { assert w + s == s; }
    else {
      assert (w + s)[1..] == w[1..] + s;
      TrimStartPadded(w[1..], s);
    }
  }

  lemma {:induction false} TrimEndPadded(s: string, w: string)
    requires AllSpace(w)
    ensures TrimEnd(s + w) == TrimEnd(s)
  {
    if w == [] { assert s + w == s; }
    else {
      assert (s + w)[..|s + w| - 1] == s + w[..|w| - 1];
      TrimEndPadded(s, w[..|w| - 1]);
    }
  }

  lemma {:induction false} TrimStartSplit(s: string) returns (w: string)
    ensures AllSpace(w) && s == w + TrimStart(s)
  {
    w := "";
    if s != [] && IsSpace(s[0]) {
      var v := TrimStartSplit(s[1..]);
      w := [s[0]] + v;
      assert s == [s[0]] + s[1..];
    }
  }

  lemma {:induction false} TrimEndSplit(s: string) returns (w: string)
    ensures AllSpace(w) && s == TrimEnd(s) + w
  {
    w := "";
    if s != [] && IsSpace(s[|s| - 1]) {
      var v := TrimEndSplit(s[..|s| - 1]);
      w := v + [s[|s| - 1]];
      assert s == s[..|s| - 1] + [s[|s| - 1]];
    } else {
      assert s + w == s;
    }
  }

  lemma {:induction false} TrimStartSpaces(s: string, w: string)
    requires AllSpace(w)
    ensures TrimStart(s) != "" ==> TrimStart(s + w) == TrimStart(s) + w
    ensures TrimStart(s) == "" ==> TrimStart(s + w) == ""
  {
    if s == [] {
      assert s + w == w + "";
      TrimStartPadded(w, "");
    } else if IsSpace(s[0]) {
      assert (s + w)[1..] == s[1..] + w;
      TrimStartSpaces(s[1..], w);
    }
  }

  lemma TrimPadded(w: string, s: string, v: string)
    requires AllSpace(w) && AllSpace(v)
    ensures Trim(w + s + v) == Trim(s)
  {
    assert w + s + v == w + (s + v);
    TrimStartPadded(w, s + v);
    TrimStartSpaces(s, v);
    if TrimStart(s) != "" { TrimEndPadded(TrimStart(s), v); }
  }

  lemma TrimSplit(s: string) returns (w: string, v: string)
    ensures AllSpace(w) && AllSpace(v) && s == w + Trim(s) + v
  {
    w := TrimStartSplit(s);
    v := TrimEndSplit(TrimStart(s));
    assert w + (Trim(s) + v) == w + Trim(s) + v;
  }

  lemma SpaceStep(esc: bool, m: Mode, c: char)
    requires IsSpace(c)
    ensures Step(esc, Normal, c) == Normal && Emit(Normal, c) == [c]
    ensures Pending(Step(esc, m, c)) == "" && (Emit(m, c) == Pending(m) + [c] || Emit(m, c) == Pending(m))
  {}

  lemma {:induction false} LeadingSpaces(esc: bool, w: string)
    requires AllSpace(w)
    ensures Run(esc, Normal, w) == Normal && Kept(esc, Normal, w) == w
  {
    if w != [] {
      var v, c := w[..|w| - 1], w[|w| - 1];
      LeadingSpaces(esc, v);
      SpaceStep(esc, Normal, c);
      RunSnoc(esc, Normal, v, c);
      assert w == v + [c];
    }
  }

  lemma DropConcat(esc: bool, m: Mode, a: string, b: string)
    ensures DropComments(esc, m, a + b) == Kept(esc, m, a) + DropComments(esc, Run(esc, m, a), b)
  {
    RunConcat(esc, m, a, b);
    KeptConcat(esc, m, a, b);
    var n := Run(esc, m, a);
    Associate(Kept(esc, m, a), Kept(esc, n, b), Pending(Run(esc, n, b)));
  }

  lemma OneChar(esc: bool, m: Mode, c: char)
    ensures Run(esc, m, [c]) == Step(esc, m, c) && Kept(esc, m, [c]) == Emit(m, c)
  { assert [c][..0] == []; }

  lemma SpaceFirst(esc: bool, m: Mode, c: char, v: string)
    requires IsSpace(c)
    ensures DropComments(esc, m, [c] + v) == Emit(m, c) + DropComments(esc, Step(esc, m, c), v)
    ensures Pending(Step(esc, m, c)) == "" && (Emit(m, c) == Pending(m) + [c] || Emit(m, c) == Pending(m))
  {
    DropConcat(esc, m, [c], v);
    OneChar(esc, m, c);
    SpaceStep(esc, m, c);
  }

  lemma NothingDropped(esc: bool, m: Mode)
    ensures DropComments(esc, m, "") == Pending(m) + ""
  {}

  /** Trailing spaces leave a pending character and some spaces, whatever the mode. */
  lemma {:induction false} TrailingSpaces(esc: bool, m: Mode, w: string) returns (u: string)
    requires AllSpace(w)
    ensures AllSpace(u) && DropComments(esc, m, w) == Pending(m) + u
    decreases |w|
  {
    u := "";
    NothingDropped(esc, m);
    if w != [] {
      var c, v := w[0], w[1..];
      assert w == [c] + v;
      SpaceFirst(esc, m, c, v);
      var rest := TrailingSpaces(esc, Step(esc, m, c), v);
      u := (if Emit(m, c) == Pending(m) then "" else [c]) + rest;
      SpaceThen(DropComments(esc, m, w), Emit(m, c), Pending(m), c, rest);
    }
  }

  lemma SpaceThen(all: string, e: string, p: string, c: char, rest: string)
    requires all == e + ("" + rest) && (e == p + [c] || e == p)
    ensures all == p + ((if e == p then "" else [c]) + rest)
  {}

  lemma DropAfterSpaces(esc: bool, w: string, s: string)
    requires AllSpace(w)
    ensures DropComments(esc, Normal, w + s) == w + DropComments(esc, Normal, s)
  {
    LeadingSpaces(esc, w);
    DropConcat(esc, Normal, w, s);
  }

  lemma DropBeforeSpaces(esc: bool, s: string, v: string) returns (u: string)
    requires AllSpace(v)
    ensures AllSpace(u) && DropComments(esc, Normal, s + v) == DropComments(esc, Normal, s) + u
  {
    DropConcat(esc, Normal, s, v);
    u := TrailingSpaces(esc, Run(esc, Normal, s), v);
    Associate(Kept(esc, Normal, s), Pending(Run(esc, Normal, s)), u);
  }

  lemma Associate(a: string, b: string, c: string)
    ensures a + (b + c) == a + b + c
  {}

  /** Trimming a piece before its comments are dropped changes nothing after a final trim. */
  lemma TrimThenDrop(esc: bool, s: string)
    ensures Trim(DropComments(esc, Normal, Trim(s))) == Trim(DropComments(esc, Normal, s))
  {
    var w, v := TrimSplit(s);
    var t := Trim(s);
    Associate(w, t, v);
    DropAfterSpaces(esc, w, t + v);
    var u := DropBeforeSpaces(esc, t, v);
    Associate(w, DropComments(esc, Normal, t), u);
    TrimPadded(w, DropComments(esc, Normal, t), u);
  }

  // ----- Backslashes inside backticks -----

  /** The only place the two lexers part: a backtick right after an escaping backslash. */
  predicate NoEscapedTick(s: string) {
    forall k | 0 <= k < |s| :: Run(true, Normal, s[..k]) == TickEsc ==> s[k] != '`'
  }

  function Base(m: Mode): Mode { if m == TickEsc then Tick else m }

  lemma BaseStep(m: Mode, c: char)
    requires m == TickEsc ==> c != '`'
    ensures Base(Step(true, m, c)) == Step(false, Base(m), c)
    ensures Emit(m, c) == Emit(Base(m), c) && Pending(m) == Pending(Base(m)) && (TopLevel(m) <==> TopLevel(Base(m)))
  {}

  predicate SameModes(s: string) {
    forall k | 0 <= k <= |s| :: Base(Run(true, Normal, s[..k])) == Run(false, Normal, s[..k])
  }

  lemma {:induction false} SameModesUpTo(s: string, n: nat)
    requires n <= |s|
    requires forall k | 0 <= k < n :: Run(true, Normal, s[..k]) == TickEsc ==> s[k] != '`'
    ensures Base(Run(true, Normal, s[..n])) == Run(false, Normal, s[..n])
  {
    if n > 0 {
      SameModesUpTo(s, n - 1);
      assert s[..n] == s[..n - 1] + [s[n - 1]];
      RunSnoc(true, Normal, s[..n - 1], s[n - 1]);
      RunSnoc(false, Normal, s[..n - 1], s[n - 1]);
      BaseStep(Run(true, Normal, s[..n - 1]), s[n - 1]);
    }
  }

  /** The lexers agree on every prefix exactly when no backtick is escaped. */
  lemma SameModesIff(s: string)
    ensures SameModes(s) <==> NoEscapedTick(s)
  {
    if NoEscapedTick(s) {
      forall k | 0 <= k <= |s| ensures Base(Run(true, Normal, s[..k])) == Run(false, Normal, s[..k]) {
        SameModesUpTo(s, k);
      }
    }
    if SameModes(s) {
      forall k | 0 <= k < |s| && Run(true, Normal, s[..k]) == TickEsc ensures s[k] != '`' {
        assert Base(Run(true, Normal, s[..k])) == Run(false, Normal, s[..k]) == Tick;
        assert Base(Run(true, Normal, s[..k + 1])) == Run(false, Normal, s[..k + 1]);
        assert s[..k + 1][..k] == s[..k];
      }
    }
  }
}
