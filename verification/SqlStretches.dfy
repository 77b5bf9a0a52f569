/**
 * What the lexer of SqlLexer takes for a quoted string, a comment and ordinary text, on the characters
 * themselves (server.js:1258-1272, db/migrate.js:93-132), and what both splitters do with them.
 */
module SqlStretches {
  import opened SqlLexer
  import opened SqlSplitters

  predicate QuoteMark(q: char) { q == '\'' || q == '"' || q == '`' }

  /**
   * What may stand between two marks q: no q, and a backslash with the character it protects. Between
   * backticks a backslash protects nothing unless `esc`.
   */
  predicate Quotable(esc: bool, q: char, body: string) {
    || body == ""
    || (body[0] != q && body[0] != '\\' && Quotable(esc, q, body[1..]))
    || (body[0] == '\\' && (q != '`' || esc) && |body| >= 2 && Quotable(esc, q, body[2..]))
    || (body[0] == '\\' && q == '`' && !esc && Quotable(esc, q, body[1..]))
  }

  /** No star-slash in the text. */
  predicate NoClose(body: string) { forall k | 0 <= k < |body| - 1 :: !(body[k] == '*' && body[k + 1] == '/') }

  /** A character that opens nothing and cuts nothing. */
  predicate Ordinary(c: char) { c != '-' && c != '/' && c != '\'' && c != '"' && c != '`' && c != ';' }

  /** Read from mode m the text ends in mode n, stays in one piece, and leaves `kept` outside comments. */
  predicate Reads(esc: bool, m: Mode, s: string, n: Mode, kept: string) {
    Run(esc, m, s) == n && Kept(esc, m, s) == kept && Pieces(esc, m, s, "") == [s]
  }

  lemma {:induction false} PiecesFrom(esc: bool, m: Mode, s: string, cur: string)
    requires Pieces(esc, m, s, "") == [s]
    ensures Pieces(esc, m, s, cur) == [cur + s]
  {
    PiecesShift(esc, m, s, "", cur);
    assert cur + "" == cur;
  }

  /** The piece begun so far stands in front of the first piece and changes nothing else. */
  lemma {:induction false} PiecesShift(esc: bool, m: Mode, s: string, more: string, cur: string)
    ensures var ps := Pieces(esc, m, s, more);
            Pieces(esc, m, s, cur + more) == [cur + ps[0]] + ps[1..]
    decreases |s|
  {
    if s == [] {
    } else if TopLevel(m) && s[0] == ';' {
    } else {
      PiecesShift(esc, Step(esc, m, s[0]), s[1..], more + [s[0]], cur);
      assert cur + more + [s[0]] == cur + (more + [s[0]]);
    }
  }

  lemma OneChar(esc: bool, m: Mode, c: char)
    requires !(TopLevel(m) && c == ';')
    ensures Reads(esc, m, [c], Step(esc, m, c), Emit(m, c))
  {
    assert [c][..0] == [] && [c][1..] == [] && "" + [c] == [c];
    assert Kept(esc, m, [c]) == Kept(esc, m, "") + Emit(m, c);
  }

  /** Stretches one after the other. */
  lemma Then(esc: bool, m: Mode, a: string, n: Mode, ka: string, b: string, o: Mode, kb: string)
    requires Reads(esc, m, a, n, ka) && Reads(esc, n, b, o, kb)
    ensures Reads(esc, m, a + b, o, ka + kb)
  {
    RunConcat(esc, m, a, b);
    KeptConcat(esc, m, a, b);
    PiecesConcat(esc, m, a, b, "");
    PiecesFrom(esc, n, b, a);
    assert [a][..0] + [a + b] == [a + b];
  }

  // ----- Quotes -----

  function ModeIn(q: char): Mode { if q == '\'' then Single else if q == '"' then Double else Tick }

  lemma Nothing(esc: bool, m: Mode)
    ensures Reads(esc, m, "", m, "")
  {}

  lemma QuoteOpens(esc: bool, q: char)
    requires QuoteMark(q)
    ensures Reads(esc, Normal, [q], ModeIn(q), [q]) && Reads(esc, ModeIn(q), [q], Normal, [q])
  {
    OneChar(esc, Normal, q);
    OneChar(esc, ModeIn(q), q);
  }

  lemma CharIn(esc: bool, q: char, c: char)
    requires QuoteMark(q) && c != q && (c != '\\' || (q == '`' && !esc))
    ensures Reads(esc, ModeIn(q), [c], ModeIn(q), [c])
  { OneChar(esc, ModeIn(q), c); }

  lemma PairIn(esc: bool, q: char, c: char)
    requires QuoteMark(q) && (q != '`' || esc)
    ensures Reads(esc, ModeIn(q), ['\\'] + [c], ModeIn(q), ['\\'] + [c])
  {
    var e := Step(esc, ModeIn(q), '\\');
    BackslashIn(esc, q);
    EscapedIn(esc, q, c);
    Then(esc, ModeIn(q), ['\\'], e, ['\\'], [c], ModeIn(q), [c]);
  }

  lemma BackslashIn(esc: bool, q: char)
    requires QuoteMark(q)
    ensures Reads(esc, ModeIn(q), ['\\'], Step(esc, ModeIn(q), '\\'), ['\\'])
  { OneChar(esc, ModeIn(q), '\\'); }

  lemma EscapedIn(esc: bool, q: char, c: char)
    requires QuoteMark(q) && (q != '`' || esc)
    ensures Reads(esc, Step(esc, ModeIn(q), '\\'), [c], ModeIn(q), [c])
  { OneChar(esc, Step(esc, ModeIn(q), '\\'), c); }

  lemma {:induction false} BodyReads(esc: bool, q: char, body: string)
    requires QuoteMark(q) && Quotable(esc, q, body)
    ensures Reads(esc, ModeIn(q), body, ModeIn(q), body)
    decreases |body|
  {
    if body == "" {
      Nothing(esc, ModeIn(q));
    } else {
      var k := if body[0] != '\\' || (q == '`' && !esc) then 1 else 2;
      BodyReads(esc, q, body[k..]);
      if k == 1 {
        CharIn(esc, q, body[0]);
        assert body[..k] == [body[0]];
      } else {
        PairIn(esc, q, body[1]);
        assert body[..k] == ['\\'] + [body[1]];
      }
      Kept2(esc, ModeIn(q), body[..k], body[k..]);
      assert body == body[..k] + body[k..];
    }
  }

  /** Two stretches of one mode that keep everything. */
  lemma Kept2(esc: bool, m: Mode, a: string, b: string)
    requires Reads(esc, m, a, m, a) && Reads(esc, m, b, m, b)
    ensures Reads(esc, m, a + b, m, a + b)
  { Then(esc, m, a, m, a, b, m, b); }

  /** Three stretches: in, along, out. */
  lemma InAndOut(esc: bool, a: string, m: Mode, ka: string, b: string, n: Mode, kb: string, c: string, kc: string)
    requires Reads(esc, Normal, a, m, ka) && Reads(esc, m, b, n, kb) && Reads(esc, n, c, Normal, kc)
    ensures Reads(esc, Normal, a + b + c, Normal, ka + kb + kc) && Run(esc, Normal, a + b) == n
  {
    Then(esc, Normal, a, m, ka, b, n, kb);
    Then(esc, Normal, a + b, n, ka + kb, c, Normal, kc);
  }

  /** A quoted string: nothing in it cuts, all of it is kept, and after its second mark it is over. */
  lemma QuotedReads(esc: bool, q: char, body: string)
    requires QuoteMark(q) && Quotable(esc, q, body)
    ensures Reads(esc, Normal, [q] + body + [q], Normal, [q] + body + [q])
    ensures !TopLevel(Run(esc, Normal, [q] + body))
  {
    QuoteOpens(esc, q);
    BodyReads(esc, q, body);
    InAndOut(esc, [q], ModeIn(q), [q], body, ModeIn(q), body, [q], [q]);
  }

  lemma {:induction false} QuotableWithout(esc: bool, q: char, body: string)
    requires q !in body && '\\' !in body
    ensures Quotable(esc, q, body)
  {
    if body != "" {
      assert body[0] in body && forall c | c in body[1..] :: c in body;
      QuotableWithout(esc, q, body[1..]);
    }
  }

  // ----- Comments -----

  lemma {:induction false} LineReads(esc: bool, body: string)
    requires '\n' !in body
    ensures Reads(esc, Line, body, Line, "")
  {
    if body == "" {
      Nothing(esc, Line);
    } else {
      assert body[0] in body && forall c | c in body[1..] :: c in body;
      OneChar(esc, Line, body[0]);
      LineReads(esc, body[1..]);
      assert body == [body[0]] + body[1..];
      Then(esc, Line, [body[0]], Line, "", body[1..], Line, "");
    }
  }

  lemma LineOpens(esc: bool)
    ensures Reads(esc, Normal, "--", Line, "") && Reads(esc, Line, "\n", Normal, "\n")
  {
    OneChar(esc, Normal, '-');
    OneChar(esc, Dash, '-');
    Then(esc, Normal, "-", Dash, "", "-", Line, "");
    assert "-" + "-" == "--";
    OneChar(esc, Line, '\n');
  }

  /** From two dashes to the newline nothing cuts and nothing is kept but the newline. */
  lemma LineCommentReads(esc: bool, body: string)
    requires '\n' !in body
    ensures Reads(esc, Normal, "--" + body + "\n", Normal, "\n")
    ensures !TopLevel(Run(esc, Normal, "--" + body))
  {
    LineOpens(esc);
    LineReads(esc, body);
    InAndOut(esc, "--", Line, "", body, Line, "", "\n", "\n");
    assert "" + "" + "\n" == "\n";
  }

  /** Inside a block comment, after a star or not. */
  function InBlock(body: string): Mode { if body != "" && body[|body| - 1] == '*' then Star else Block }

  lemma {:induction false} BlockReads(esc: bool, body: string)
    requires NoClose(body)
    ensures Reads(esc, Block, body, InBlock(body), "")
  {
    if body == "" {
      Nothing(esc, Block);
    } else {
      var init, c := body[..|body| - 1], body[|body| - 1];
      assert body == init + [c];
      forall k | 0 <= k < |init| - 1 ensures !(init[k] == '*' && init[k + 1] == '/') { assert init[k] == body[k]; }
      BlockReads(esc, init);
      if init != "" { assert !(body[|init| - 1] == '*' && body[|init| - 1 + 1] == '/'); }
      OneChar(esc, InBlock(init), c);
      Then(esc, Block, init, InBlock(init), "", [c], InBlock(body), "");
    }
  }

  lemma BlockOpens(esc: bool)
    ensures Reads(esc, Normal, "/*", Block, "")
  {
    OneChar(esc, Normal, '/');
    OneChar(esc, Slash, '*');
    Then(esc, Normal, "/", Slash, "", "*", Block, "");
    assert "/" + "*" == "/*";
  }

  lemma BlockCloses(esc: bool, m: Mode)
    requires m == Block || m == Star
    ensures Reads(esc, m, "*/", Normal, "")
  {
    OneChar(esc, m, '*');
    OneChar(esc, Star, '/');
    Then(esc, m, "*", Star, "", "/", Normal, "");
    assert "*" + "/" == "*/";
  }

  /** From slash-star to the first star-slash nothing cuts and nothing is kept. */
  lemma BlockCommentReads(esc: bool, body: string)
    requires NoClose(body)
    ensures Reads(esc, Normal, "/*" + body + "*/", Normal, "")
    ensures !TopLevel(Run(esc, Normal, "/*" + body))
  {
    BlockOpens(esc);
    BlockReads(esc, body);
    BlockCloses(esc, InBlock(body));
    InAndOut(esc, "/*", Block, "", body, InBlock(body), "", "*/", "");
    assert "" + "" + "" == "";
  }

  // ----- Everything else -----

  lemma OrdinaryReads(esc: bool, c: char)
    requires Ordinary(c)
    ensures Reads(esc, Normal, [c], Normal, [c])
    ensures Reads(esc, Normal, ['-', c], Normal, ['-', c])
    ensures c != '*' ==> Reads(esc, Normal, ['/', c], Normal, ['/', c])
  {
    OneChar(esc, Normal, c);
    OneChar(esc, Normal, '-');
    OneChar(esc, Dash, c);
    Then(esc, Normal, ['-'], Dash, "", [c], Normal, ['-', c]);
    assert ['-'] + [c] == ['-', c] && ['/'] + [c] == ['/', c];
    if c != '*' {
      OneChar(esc, Normal, '/');
      OneChar(esc, Slash, c);
      Then(esc, Normal, ['/'], Slash, "", [c], Normal, ['/', c]);
    }
  }

  /**
   * After a text that ends outside quotes and comments, with no '-' or '/' pending, a stretch joins the
   * last piece uncut, what it keeps joins what survives, and the text is outside again.
   */
  lemma Appended(esc: bool, a: string, s: string, kept: string)
    requires Run(esc, Normal, a) == Normal && Reads(esc, Normal, s, Normal, kept)
    ensures Run(esc, Normal, a + s) == Normal
    ensures var ps := Pieces(esc, Normal, a, "");
            Pieces(esc, Normal, a + s, "") == ps[..|ps| - 1] + [ps[|ps| - 1] + s]
    ensures DropComments(esc, Normal, a + s) == DropComments(esc, Normal, a) + kept
  {
    RunConcat(esc, Normal, a, s);
    KeptConcat(esc, Normal, a, s);
    PiecesConcat(esc, Normal, a, s, "");
    var ps := Pieces(esc, Normal, a, "");
    PiecesFrom(esc, Normal, s, ps[|ps| - 1]);
    assert Kept(esc, Normal, a) + "" == Kept(esc, Normal, a);
  }

  /** A quoted string after any such text, for every quote mark and both lexers. */
  lemma QuotedAppended(esc: bool, a: string, q: char, body: string)
    requires Run(esc, Normal, a) == Normal && QuoteMark(q) && Quotable(esc, q, body)
    ensures var ps, s := Pieces(esc, Normal, a, ""), [q] + body + [q];
            && Run(esc, Normal, a + s) == Normal
            && Pieces(esc, Normal, a + s, "") == ps[..|ps| - 1] + [ps[|ps| - 1] + s]
            && DropComments(esc, Normal, a + s) == DropComments(esc, Normal, a) + s
  {
    QuotedReads(esc, q, body);
    Appended(esc, a, [q] + body + [q], [q] + body + [q]);
  }

  /** A comment after any such text: no cut, and of it only the newline survives. */
  lemma CommentAppended(esc: bool, a: string, body: string)
    requires Run(esc, Normal, a) == Normal
    ensures '\n' !in body ==>
              var ps, s := Pieces(esc, Normal, a, ""), "--" + body + "\n";
              && Run(esc, Normal, a + s) == Normal
              && Pieces(esc, Normal, a + s, "") == ps[..|ps| - 1] + [ps[|ps| - 1] + s]
              && DropComments(esc, Normal, a + s) == DropComments(esc, Normal, a) + "\n"
    ensures NoClose(body) ==>
              var ps, s := Pieces(esc, Normal, a, ""), "/*" + body + "*/";
              && Run(esc, Normal, a + s) == Normal
              && Pieces(esc, Normal, a + s, "") == ps[..|ps| - 1] + [ps[|ps| - 1] + s]
              && DropComments(esc, Normal, a + s) == DropComments(esc, Normal, a)
  {
    if '\n' !in body {
      LineCommentReads(esc, body);
      Appended(esc, a, "--" + body + "\n", "\n");
    }
    if NoClose(body) {
      BlockCommentReads(esc, body);
      Appended(esc, a, "/*" + body + "*/", "");
      assert DropComments(esc, Normal, a) + "" == DropComments(esc, Normal, a);
    }
  }

  /** An ordinary character opens nothing and cuts nothing; ';' there cuts. */
  lemma OrdinaryAppended(esc: bool, a: string, c: char, b: string)
    requires Run(esc, Normal, a) == Normal
    ensures Ordinary(c) ==>
              var ps := Pieces(esc, Normal, a, "");
              && Run(esc, Normal, a + [c]) == Normal
              && Pieces(esc, Normal, a + [c], "") == ps[..|ps| - 1] + [ps[|ps| - 1] + [c]]
              && DropComments(esc, Normal, a + [c]) == DropComments(esc, Normal, a) + [c]
    ensures Pieces(esc, Normal, a + ";" + b, "") == Pieces(esc, Normal, a, "") + Pieces(esc, Normal, b, "")
  {
    if Ordinary(c) {
      OrdinaryReads(esc, c);
      Appended(esc, a, [c], [c]);
    }
    CutsExactlyAtTopLevel(esc, a, b);
  }

  // ----- Trim -----

  /** White space and line terminators of ECMAScript. */
  predicate White(c: char) {
    var n := c as int;
    || 9 <= n <= 13 || n == 32 || n == 0xA0 || n == 0x1680 || 0x2000 <= n <= 0x200A
    || n == 0x2028 || n == 0x2029 || n == 0x202F || n == 0x205F || n == 0x3000 || n == 0xFEFF
  }

  /** t is s without the white space at its ends. */
  ghost predicate Trimmed(s: string, t: string) {
    && (t != "" ==> !White(t[0]) && !White(t[|t| - 1]))
    && exists w: string, v: string :: s == w + t + v && (forall c | c in w + v :: White(c))
  }

  lemma {:induction false} TrimEndFacts(s: string)
    ensures TrimEnd(s) <= s && (TrimEnd(s) != "" ==> !White(TrimEnd(s)[|TrimEnd(s)| - 1]))
  { if s != "" && IsSpace(s[|s| - 1]) { TrimEndFacts(s[..|s| - 1]); } }

  lemma {:induction false} TrimStartFacts(s: string)
    ensures TrimStart(s) != "" ==> !White(TrimStart(s)[0])
  { if s != "" && IsSpace(s[0]) { TrimStartFacts(s[1..]); } }

  /** Trim drops exactly the white space at both ends. */
  lemma TrimIs(s: string)
    ensures Trimmed(s, Trim(s))
  {
    var w, v := TrimSplit(s);
    TrimStartFacts(s);
    TrimEndFacts(TrimStart(s));
    assert s == w + Trim(s) + v;
    forall c | c in w + v ensures White(c) { assert c in w || c in v; }
  }

  lemma NothingToTrim(s: string)
    requires s != "" ==> !White(s[0]) && !White(s[|s| - 1])
    ensures Trim(s) == s
  {}

  // ----- The splitters on a quoted text -----

  /** A text that is one quoted string is one statement for both splitters, semicolons and comment marks in it or not. */
  lemma QuotedStatement(q: char, body: string)
    requires QuoteMark(q) && q !in body && '\\' !in body
    ensures var s := [q] + body + [q]; ServerPieces(s) == [s] && MigratePieces(s) == [s]
  {
    var s := [q] + body + [q];
    QuotableWithout(false, q, body);
    QuotableWithout(true, q, body);
    QuotedReads(false, q, body);
    QuotedReads(true, q, body);
    NothingToTrim(s);
    assert DropComments(true, Normal, s) == s + "" == s;
    assert TrimAll([s][..0]) == [] && [] + [s] == [s];
    assert TrimAll(Stripped(true, [s])) == [s];
    assert [s][1..] == [];
    assert NonEmpty([s]) == [s] + NonEmpty([]);
  }
}
