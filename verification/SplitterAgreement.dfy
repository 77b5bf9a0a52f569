/** How the two splitters relate to each other and to the statements that were joined. */
module SplitterAgreement {
  import opened Text
  import opened SqlLexer
  import opened SqlSplitters

  /** The server's statements with comments dropped, trimmed, and the empty ones left out. */
  function ServerCleaned(sql: string): seq<string> { NonEmpty(TrimAll(Stripped(false, ServerPieces(sql)))) }

  lemma CleanAt(esc: bool, m: Mode, s: string, i: nat, kept: string)
    requires i < |s|
    ensures CleanPieces(esc, m, s[i..], kept)
         == if TopLevel(m) && s[i] == ';' then [kept + Pending(m)] + CleanPieces(esc, Normal, s[i + 1..], "")
            else CleanPieces(esc, Step(esc, m, s[i]), s[i + 1..], kept + Emit(m, s[i]))
  { assert s[i..][1..] == s[i + 1..]; }

  /** One character further, the two lexers still clean alike. */
  lemma SameCleanStep(m: Mode, s: string, i: nat, kept: string)
    requires i < |s| && (m == TickEsc ==> s[i] != '`')
    requires if TopLevel(m) && s[i] == ';' then CleanAlike(Normal, s, i + 1, "")
             else CleanAlike(Step(true, m, s[i]), s, i + 1, kept + Emit(m, s[i]))
    ensures CleanAlike(m, s, i, kept)
  {
    BaseStep(m, s[i]);
    CleanAt(true, m, s, i, kept);
    CleanAt(false, Base(m), s, i, kept);
  }

  ghost predicate CleanAlike(m: Mode, s: string, i: nat, kept: string)
    requires i <= |s|
  { CleanPieces(true, m, s[i..], kept) == CleanPieces(false, Base(m), s[i..], kept) }

  lemma {:induction false} SameCleanPieces(sql: string, i: nat, kept: string)
    requires i <= |sql| && NoEscapedTick(sql)
    ensures CleanAlike(Run(true, Normal, sql[..i]), sql, i, kept)
    decreases |sql| - i
  {
    if i < |sql| {
      var m, c := Run(true, Normal, sql[..i]), sql[i];
      assert sql[..i + 1] == sql[..i] + [c];
      RunSnoc(true, Normal, sql[..i], c);
      if TopLevel(m) && c == ';' {
        assert Step(true, m, c) == Normal;
        SameCleanPieces(sql, i + 1, "");
      } else {
        SameCleanPieces(sql, i + 1, kept + Emit(m, c));
      }
      SameCleanStep(m, sql, i, kept);
    }
  }

  lemma {:induction false} TrimmedPieces(ps: seq<string>)
    ensures TrimAll(Stripped(false, TrimAll(ps))) == TrimAll(Stripped(false, ps))
  {
    forall k | 0 <= k < |ps| ensures TrimAll(Stripped(false, TrimAll(ps)))[k] == TrimAll(Stripped(false, ps))[k] {
      TrimThenDrop(false, ps[k]);
    }
  }

  lemma CleanSnoc(esc: bool, ps: seq<string>, p: string)
    ensures TrimAll(Stripped(esc, ps + [p])) == TrimAll(Stripped(esc, ps)) + [Trim(DropComments(esc, Normal, p))]
  {}

  /** An empty tail adds nothing, whether it is dropped before or after cleaning. */
  lemma PushedCleaned(ps: seq<string>)
    requires ps != []
    ensures NonEmpty(TrimAll(Stripped(false, Pushed(ps)))) == NonEmpty(TrimAll(Stripped(false, ps)))
  {
    var init, last := ps[..|ps| - 1], ps[|ps| - 1];
    var clean := TrimAll(Stripped(false, init));
    assert ps == init + [last];
    TrimmedPieces(init);
    TrimThenDrop(false, last);
    CleanSnoc(false, init, last);
    NonEmptySnoc(clean, Trim(DropComments(false, Normal, last)));
    if Trim(last) == "" {
      assert DropComments(false, Normal, "") == "" && Trim("") == "";
      assert Pushed(ps) == TrimAll(init);
    } else {
      CleanSnoc(false, TrimAll(init), Trim(last));
    }
  }

  /** The two splitters agree on every text in which no backslash escapes a backtick inside backticks. */
  lemma SplittersAgree(sql: string)
    requires NoEscapedTick(sql)
    ensures ServerCleaned(sql) == MigratePieces(sql)
  {
    assert sql[..0] == "" && sql[0..] == sql;
    SameCleanPieces(sql, 0, "");
    CleanIsStripped(true, sql, "");
    CleanIsStripped(false, sql, "");
    PushedCleaned(Pieces(false, Normal, sql, ""));
  }

  /** Without a backslash inside backticks the condition holds. */
  lemma NoBackslashInTicks(sql: string)
    requires forall k | 0 <= k < |sql| :: Run(false, Normal, sql[..k]) == Tick ==> sql[k] != '\\'
    ensures NoEscapedTick(sql)
  {
    forall k | 0 <= k < |sql| ensures Run(true, Normal, sql[..k]) != TickEsc { NeverEscapes(sql, k); }
  }

  lemma {:induction false} NeverEscapes(sql: string, n: nat)
    requires n <= |sql|
    requires forall k | 0 <= k < |sql| :: Run(false, Normal, sql[..k]) == Tick ==> sql[k] != '\\'
    ensures Run(true, Normal, sql[..n]) == Run(false, Normal, sql[..n]) != TickEsc
  {
    if n > 0 {
      NeverEscapes(sql, n - 1);
      assert sql[..n][..n - 1] == sql[..n - 1];
    }
  }

  const ESCAPED_TICK := "`\\`;b"

  lemma EscapedTickServer()
    ensures Pieces(false, Normal, ESCAPED_TICK, "") == ["`\\`", "b"]
  {
    assert ESCAPED_TICK[1..] == "\\`;b" && "\\`;b"[1..] == "`;b" && "`;b"[1..] == ";b" && ";b"[1..] == "b" && "b"[1..] == "";
    assert "" + ['`'] == "`" && "`" + ['\\'] == "`\\" && "`\\" + ['`'] == "`\\`" && "" + ['b'] == "b";
    assert Pieces(false, Normal, "b", "") == ["b"];
    assert Pieces(false, Normal, ";b", "`\\`") == ["`\\`"] + ["b"];
    assert Pieces(false, Tick, "`;b", "`\\") == ["`\\`", "b"];
    assert Pieces(false, Tick, "\\`;b", "`") == ["`\\`", "b"];
  }

  lemma EscapedTickTail()
    ensures Pieces(true, Tick, ";b", "`\\`") == [ESCAPED_TICK]
  {
    assert ";b"[1..] == "b" && "b"[1..] == "" && "`\\`" + [';'] == "`\\`;" && "`\\`;" + ['b'] == ESCAPED_TICK;
    assert Pieces(true, Tick, "b", "`\\`;") == [ESCAPED_TICK];
  }

  lemma EscapedTickMigrate()
    ensures Pieces(true, Normal, ESCAPED_TICK, "") == [ESCAPED_TICK]
  {
    assert ESCAPED_TICK[1..] == "\\`;b" && "\\`;b"[1..] == "`;b" && "`;b"[1..] == ";b";
    assert "" + ['`'] == "`" && "`" + ['\\'] == "`\\" && "`\\" + ['`'] == "`\\`";
    EscapedTickTail();
    assert Pieces(true, TickEsc, "`;b", "`\\") == [ESCAPED_TICK];
    assert Pieces(true, Tick, "\\`;b", "`") == [ESCAPED_TICK];
  }

  lemma EscapedTickOpens()
    ensures !NoEscapedTick(ESCAPED_TICK)
  {
    var two := ESCAPED_TICK[..2];
    assert two[..1] == "`" && "`"[..0] == "" && two[1] == '\\';
    assert Run(true, Normal, "`") == Tick;
    assert Run(true, Normal, two) == TickEsc;
  }

  lemma AllNonEmpty(esc: bool, ps: seq<string>)
    requires forall k | 0 <= k < |ps| :: StartsPlain(ps[k])
    ensures |NonEmpty(TrimAll(Stripped(esc, ps)))| == |ps|
  {
    var cs := TrimAll(Stripped(esc, ps));
    forall k | 0 <= k < |cs| ensures cs[k] != "" { PlainStartKept(esc, ps[k]); }
    NonEmptyAll(cs);
  }

  /** `\`;b : the server sees a closed name and a second statement, the migrator one open name. */
  lemma EscapedTickDiffers()
    ensures !NoEscapedTick(ESCAPED_TICK) && |ServerCleaned(ESCAPED_TICK)| == 2 && |MigratePieces(ESCAPED_TICK)| == 1
  {
    EscapedTickServer();
    EscapedTickMigrate();
    EscapedTickOpens();
    Counts(ESCAPED_TICK, ["`\\`", "b"], [ESCAPED_TICK]);
  }

  lemma Counts(sql: string, ps: seq<string>, qs: seq<string>)
    requires Pieces(false, Normal, sql, "") == ps && Pieces(true, Normal, sql, "") == qs
    requires (forall p | p in ps :: StartsPlain(p)) && (forall q | q in qs :: StartsPlain(q))
    ensures |ServerCleaned(sql)| == |ps| && |MigratePieces(sql)| == |qs|
  {
    PushedCleaned(ps);
    AllNonEmpty(false, ps);
    AllNonEmpty(true, qs);
  }

  predicate StartsPlain(s: string) { s != "" && !IsSpace(s[0]) && s[0] != '-' && s[0] != '/' }

  /** A text that opens with an ordinary character keeps it, so it does not trim to nothing. */
  lemma PlainStartKept(esc: bool, s: string)
    requires StartsPlain(s)
    ensures Trim(DropComments(esc, Normal, s)) != ""
  {
    KeptStarts(esc, s);
    TrimEndKeeps(DropComments(esc, Normal, s));
  }

  lemma {:induction false} KeptStarts(esc: bool, s: string)
    requires StartsPlain(s)
    ensures Kept(esc, Normal, s) != "" && Kept(esc, Normal, s)[0] == s[0]
  {
    if |s| > 1 { KeptStarts(esc, s[..|s| - 1]); }
    else { assert s[..0] == ""; }
  }

  lemma {:induction false} TrimEndKeeps(s: string)
    requires s != "" && !IsSpace(s[0])
    ensures TrimEnd(s) != ""
  {
    if |s| > 1 { TrimEndKeeps(s[..|s| - 1]); }
  }

  // ----- Round trips -----

  /** Joining whole, trimmed statements with ';' and splitting gives them back, comments and all. */
  lemma ServerRoundTrip(stmts: seq<string>)
    requires stmts != [] && stmts[|stmts| - 1] != ""
    requires forall s | s in stmts :: Whole(false, s) && Trim(s) == s
    ensures ServerPieces(Join(stmts, ";")) == stmts
  {
    JoinedWhole(false, stmts);
    forall k | 0 <= k < |stmts| ensures Trim(stmts[k]) == stmts[k] { assert stmts[k] in stmts; }
    PushedSame(stmts);
  }

  lemma PushedSame(ps: seq<string>)
    requires ps != [] && ps[|ps| - 1] != "" && forall k | 0 <= k < |ps| :: Trim(ps[k]) == ps[k]
    ensures Pushed(ps) == ps
  {
    TrimAllSame(ps[..|ps| - 1]);
    assert ps == ps[..|ps| - 1] + [ps[|ps| - 1]];
  }

  lemma TrimAllSame(ps: seq<string>)
    requires forall k | 0 <= k < |ps| :: Trim(ps[k]) == ps[k]
    ensures TrimAll(ps) == ps
  {}

  /** The migration splitter gives back the statements that carry no comment. */
  lemma MigrateRoundTrip(stmts: seq<string>)
    requires stmts != []
    requires forall s | s in stmts :: s != "" && Whole(true, s) && Trim(s) == s && DropComments(true, Normal, s) == s
    ensures MigratePieces(Join(stmts, ";")) == stmts
  {
    JoinedWhole(true, stmts);
    forall k | 0 <= k < |stmts| ensures TrimAll(Stripped(true, stmts))[k] == stmts[k] { assert stmts[k] in stmts; }
    assert TrimAll(Stripped(true, stmts)) == stmts;
    NonEmptyAll(stmts);
  }

  lemma {:induction false} NonEmptyAll(ps: seq<string>)
    requires forall p | p in ps :: p != ""
    ensures NonEmpty(ps) == ps
  {
    if ps != [] {
      assert ps[0] in ps && ps == [ps[0]] + ps[1..];
      forall p | p in ps[1..] ensures p in ps {}
      NonEmptyAll(ps[1..]);
    }
  }

  /** Nothing of the text is lost: the server's untrimmed pieces rejoined with ';' are the text. */
  lemma ServerLossless(sql: string)
    ensures var ps := Pieces(false, Normal, sql, "");
            Join(ps, ";") == sql
            && ServerPieces(sql) == TrimAll(if Trim(ps[|ps| - 1]) == "" then ps[..|ps| - 1] else ps)
  {
    PiecesRebuild(false, Normal, sql, "");
    assert "" + sql == sql;
    var ps := Pieces(false, Normal, sql, "");
    assert ps == ps[..|ps| - 1] + [ps[|ps| - 1]];
    assert TrimAll(ps) == TrimAll(ps[..|ps| - 1]) + [Trim(ps[|ps| - 1])];
  }
}
