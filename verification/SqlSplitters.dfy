/**
 * The two SQL statement splitters: splitSqlStatements of server.js:1253-1275, five flags and one
 * loop, and _splitStatements of db/migrate.js:88-133, nested loops that skip comments.
 */
module SqlSplitters {
  import opened SqlLexer

  /** What splitSqlStatements returns: every ';' pushes, even an empty piece; an empty tail does not. */
  function ServerPieces(sql: string): seq<string> { Pushed(Pieces(false, Normal, sql, "")) }

  function Pushed(ps: seq<string>): seq<string>
    requires ps != []
  {
    var last := Trim(ps[|ps| - 1]);
    TrimAll(ps[..|ps| - 1]) + (if last == "" then [] else [last])
  }

  /** What _splitStatements returns: pieces without comments, trimmed, the empty ones left out. */
  function MigratePieces(sql: string): seq<string> {
    NonEmpty(TrimAll(Stripped(true, Pieces(true, Normal, sql, ""))))
  }

  /** The loop's progress: the pieces pushed and those still to come are the pieces of the text. */
  ghost predicate Scanned(sql: string, raw: seq<string>, m: Mode, cur: string, i: nat)
    requires i <= |sql|
  { raw + Pieces(false, m, sql[i..], cur) == Pieces(false, Normal, sql, "") }

  lemma TakeOne(sql: string, raw: seq<string>, m: Mode, cur: string, i: nat)
    requires i < |sql| && Scanned(sql, raw, m, cur, i) && !(TopLevel(m) && sql[i] == ';')
    ensures Scanned(sql, raw, Step(false, m, sql[i]), cur + [sql[i]], i + 1)
  { assert sql[i..][1..] == sql[i + 1..]; }

  lemma TakeTwo(sql: string, raw: seq<string>, m: Mode, cur: string, i: nat)
    requires i + 1 < |sql| && Scanned(sql, raw, m, cur, i)
    requires !(TopLevel(m) && sql[i] == ';') && !(TopLevel(Step(false, m, sql[i])) && sql[i + 1] == ';')
    ensures Scanned(sql, raw, Step(false, Step(false, m, sql[i]), sql[i + 1]), cur + [sql[i], sql[i + 1]], i + 2)
  {
    TakeOne(sql, raw, m, cur, i);
    TakeOne(sql, raw, Step(false, m, sql[i]), cur + [sql[i]], i + 1);
    assert cur + [sql[i]] + [sql[i + 1]] == cur + [sql[i], sql[i + 1]];
  }

  lemma PushRaw(sql: string, raw: seq<string>, m: Mode, cur: string, i: nat)
    requires i < |sql| && Scanned(sql, raw, m, cur, i) && TopLevel(m) && sql[i] == ';'
    ensures Scanned(sql, raw + [cur], Normal, "", i + 1) && TrimAll(raw + [cur]) == TrimAll(raw) + [Trim(cur)]
  {
    assert sql[i..][1..] == sql[i + 1..];
    var rest := Pieces(false, Normal, sql[i + 1..], "");
    assert raw + [cur] + rest == raw + ([cur] + rest);
  }

  /** How the five flags of the server's loop describe the automaton, one character behind at most. */
  predicate Flags(m: Mode, sql: string, i: nat, sq: bool, dq: bool, bq: bool, line: bool, block: bool)
    requires i <= |sql|
  {
    if line then !sq && !dq && !bq && !block && (m == Line || (m == Dash && i < |sql| && sql[i] == '-'))
    else if block then !sq && !dq && !bq && (m == Block || (m == Star && (i == |sql| || sql[i] != '/')))
    else if sq then !dq && !bq && (m == Single || (m == SingleEsc && i == |sql|))
    else if dq then !bq && (m == Double || (m == DoubleEsc && i == |sql|))
    else if bq then m == Tick
    else m == Normal || (m == Dash && (i == |sql| || sql[i] != '-')) || (m == Slash && (i == |sql| || sql[i] != '*'))
  }

  method SplitSqlStatements(sql: string) returns (out: seq<string>)
    ensures out == ServerPieces(sql)
  {
    out := [];
    var cur, i := "", 0;
    var n := |sql|;
    var sq, dq, bq, line, block := false, false, false, false, false;
    ghost var m, raw: seq<string> := Normal, [];
    assert sql[0..] == sql;
    while i < n
      invariant 0 <= i <= n && Flags(m, sql, i, sq, dq, bq, line, block)
      invariant Scanned(sql, raw, m, cur, i)
      invariant out == TrimAll(raw)
    {
      var ch := sql[i];
      var more := i + 1 < n;
      if line {
        TakeOne(sql, raw, m, cur, i);
        cur, m := cur + [ch], Step(false, m, ch);
        if ch == '\n' { line := false; }
        i := i + 1;
      } else if block {
        if ch == '*' && more && sql[i + 1] == '/' {
          TakeTwo(sql, raw, m, cur, i);
          cur, m := cur + [ch, sql[i + 1]], Step(false, Step(false, m, ch), sql[i + 1]);
          i, block := i + 2, false;
        } else {
          TakeOne(sql, raw, m, cur, i);
          cur, m := cur + [ch], Step(false, m, ch);
          i := i + 1;
        }
      } else if sq {
        if ch == '\\' && more {
          TakeTwo(sql, raw, m, cur, i);
          cur, m := cur + [ch, sql[i + 1]], Step(false, Step(false, m, ch), sql[i + 1]);
          i := i + 2;
        } else {
          TakeOne(sql, raw, m, cur, i);
          cur, m := cur + [ch], Step(false, m, ch);
          if ch == '\'' { sq := false; }
          i := i + 1;
        }
      } else if dq {
        if ch == '\\' && more {
          TakeTwo(sql, raw, m, cur, i);
          cur, m := cur + [ch, sql[i + 1]], Step(false, Step(false, m, ch), sql[i + 1]);
          i := i + 2;
        } else {
          TakeOne(sql, raw, m, cur, i);
          cur, m := cur + [ch], Step(false, m, ch);
          if ch == '"' { dq := false; }
          i := i + 1;
        }
      } else if bq {
        TakeOne(sql, raw, m, cur, i);
        cur, m := cur + [ch], Step(false, m, ch);
        if ch == '`' { bq := false; }
        i := i + 1;
      } else if ch == '-' && more && sql[i + 1] == '-' {
        TakeOne(sql, raw, m, cur, i);
        line := true;
        cur, m := cur + [ch], Step(false, m, ch);
        i := i + 1;
      } else if ch == '/' && more && sql[i + 1] == '*' {
        TakeTwo(sql, raw, m, cur, i);
        block := true;
        cur, m := cur + [ch, sql[i + 1]], Step(false, Step(false, m, ch), sql[i + 1]);
        i := i + 2;
      } else if ch == ';' {
        PushRaw(sql, raw, m, cur, i);
        out, raw := out + [Trim(cur)], raw + [cur];
        cur, m := "", Normal;
        i := i + 1;
      } else {
        TakeOne(sql, raw, m, cur, i);
        if ch == '\'' { sq := true; } else if ch == '"' { dq := true; } else if ch == '`' { bq := true; }
        cur, m := cur + [ch], Step(false, m, ch);
        i := i + 1;
      }
    }
    assert sql[n..] == "" && Pieces(false, Normal, sql, "") == raw + [cur];
    if Trim(cur) != "" { out := out + [Trim(cur)]; }
  }

  // ----- _splitStatements -----

  /** Outside comments and quotes, one character behind at most; a line comment ends before its newline. */
  predicate Outside(m: Mode, sql: string, i: nat)
    requires i <= |sql|
  {
    || m == Normal
    || (m == Dash && (i == |sql| || sql[i] != '-'))
    || (m == Slash && (i == |sql| || sql[i] != '*'))
    || (m == Line && (i == |sql| || sql[i] == '\n'))
    || (i == |sql| && !TopLevel(m))
  }

  /** The scan so far: what is done and what is to come make up the comment-free pieces of the text. */
  ghost predicate Synced(sql: string, done: seq<string>, m: Mode, kept: string, i: nat)
    requires i <= |sql|
  { done + CleanPieces(true, m, sql[i..], kept) == CleanPieces(true, Normal, sql, "") }

  lemma Advance(sql: string, done: seq<string>, m: Mode, kept: string, i: nat)
    requires i < |sql| && Synced(sql, done, m, kept, i) && !(TopLevel(m) && sql[i] == ';')
    ensures Synced(sql, done, Step(true, m, sql[i]), kept + Emit(m, sql[i]), i + 1)
  { assert sql[i..][1..] == sql[i + 1..]; }

  /** A top-level ';' closes the piece. */
  lemma Cut(sql: string, done: seq<string>, m: Mode, kept: string, i: nat)
    requires i < |sql| && Synced(sql, done, m, kept, i) && TopLevel(m) && sql[i] == ';'
    ensures Synced(sql, done + [kept + Pending(m)], Normal, "", i + 1)
  {
    assert sql[i..][1..] == sql[i + 1..];
    var rest := CleanPieces(true, Normal, sql[i + 1..], "");
    assert done + [kept + Pending(m)] + rest == done + ([kept + Pending(m)] + rest);
  }

  /** Outside comments, a character that opens nothing is copied now and emitted sooner or later. */
  lemma Copied(m: Mode, sql: string, i: nat, kept: string)
    requires i < |sql| && Outside(m, sql, i)
    ensures kept + Emit(m, sql[i]) + Pending(Step(true, m, sql[i])) == kept + Pending(m) + [sql[i]]
    ensures Step(true, m, sql[i]) == FromNormal(sql[i])
  {}

  predicate IsQuote(c: char) { c == '\'' || c == '"' || c == '`' }

  function Escaped(quote: char): Mode
    requires IsQuote(quote)
  { if quote == '\'' then SingleEsc else if quote == '"' then DoubleEsc else TickEsc }

  function AfterQuoted(quote: char, c: char): Mode
    requires IsQuote(quote)
  { if c == quote then Normal else if c == '\\' then Escaped(quote) else FromNormal(quote) }

  /** Inside a quote every character is emitted; a backslash protects the next one. */
  lemma QuotedStep(sql: string, done: seq<string>, quote: char, kept: string, i: nat)
    requires i < |sql| && IsQuote(quote) && Synced(sql, done, FromNormal(quote), kept, i)
    ensures Synced(sql, done, AfterQuoted(quote, sql[i]), kept + [sql[i]], i + 1)
  { Advance(sql, done, FromNormal(quote), kept, i); }

  lemma EscapedStep(sql: string, done: seq<string>, quote: char, kept: string, i: nat)
    requires i < |sql| && IsQuote(quote) && Synced(sql, done, Escaped(quote), kept, i)
    ensures Synced(sql, done, FromNormal(quote), kept + [sql[i]], i + 1)
  { Advance(sql, done, Escaped(quote), kept, i); }

  /** A backslash and the character it protects. */
  lemma EscapedPair(sql: string, done: seq<string>, quote: char, kept: string, i: nat)
    requires i + 1 < |sql| && IsQuote(quote) && sql[i] == '\\' && Synced(sql, done, FromNormal(quote), kept, i)
    ensures Synced(sql, done, FromNormal(quote), kept + [sql[i]] + [sql[i + 1]], i + 2)
  {
    QuotedStep(sql, done, quote, kept, i);
    EscapedStep(sql, done, quote, kept + [sql[i]], i + 1);
  }

  /** The quote closed, or the text ended inside it: nothing is pending. */
  lemma QuoteLeft(quote: char, c: char, sql: string, i: nat)
    requires IsQuote(quote) && i <= |sql| && (c == quote || i == |sql|)
    ensures Outside(AfterQuoted(quote, c), sql, i) && Pending(AfterQuoted(quote, c)) == ""
    ensures i == |sql| ==> Outside(FromNormal(quote), sql, i)
    ensures Pending(FromNormal(quote)) == ""
  {}

  method SplitStatements(sql: string) returns (out: seq<string>)
    ensures out == MigratePieces(sql)
  {
    out := [];
    var buf, i := "", 0;
    var n := |sql|;
    ghost var m, done: seq<string>, kept := Normal, [], "";
    assert sql[0..] == sql;
    while i < n
      invariant 0 <= i <= n && Outside(m, sql, i) && Synced(sql, done, m, kept, i)
      invariant buf == kept + Pending(m) && out == NonEmpty(TrimAll(done))
      decreases n - i
    {
      var c := sql[i];
      if c == '-' && i + 1 < n && sql[i + 1] == '-' {
        i, m, kept := SkipLine(sql, done, m, kept, i);
      } else if c == '/' && i + 1 < n && sql[i + 1] == '*' {
        i, m, kept := SkipBlock(sql, done, m, kept, i);
      } else if c == '\'' || c == '"' || c == '`' {
        i, buf, m, kept := CopyQuoted(sql, done, m, kept, i, buf);
      } else if c == ';' {
        var stmt := Trim(buf);
        PushPiece(done, buf);
        Cut(sql, done, m, kept, i);
        if stmt != "" { out := out + [stmt]; }
        done, kept, m, buf := done + [buf], "", Normal, "";
        i := i + 1;
      } else {
        Advance(sql, done, m, kept, i);
        Copied(m, sql, i, kept);
        buf := buf + [c];
        kept, m := kept + Emit(m, c), Step(true, m, c);
        i := i + 1;
      }
    }
    assert sql[n..] == "" && CleanPieces(true, Normal, sql, "") == done + [buf];
    var tail := Trim(buf);
    PushPiece(done, buf);
    if tail != "" { out := out + [tail]; }
    RunOfNothing(sql);
  }

  lemma RunOfNothing(sql: string)
    ensures CleanPieces(true, Normal, sql, "") == Stripped(true, Pieces(true, Normal, sql, ""))
  { CleanIsStripped(true, sql, ""); }

  lemma PushPiece(done: seq<string>, buf: string)
    ensures NonEmpty(TrimAll(done + [buf])) == NonEmpty(TrimAll(done)) + (if Trim(buf) == "" then [] else [Trim(buf)])
  {
    assert TrimAll(done + [buf]) == TrimAll(done) + [Trim(buf)];
    NonEmptySnoc(TrimAll(done), Trim(buf));
  }

  lemma {:induction false} NonEmptySnoc(ps: seq<string>, x: string)
    ensures NonEmpty(ps + [x]) == NonEmpty(ps) + (if x == "" then [] else [x])
  {
    if ps == [] {
      assert ps + [x] == [x];
      assert [x][1..] == [];
    } else {
      assert (ps + [x])[1..] == ps[1..] + [x];
      NonEmptySnoc(ps[1..], x);
    }
  }

  /** `while (i < N && sql[i] !== '\n') i++`, from a '--' on. */
  method SkipLine(sql: string, ghost done: seq<string>, ghost m: Mode, ghost kept: string, at: nat)
      returns (i: nat, ghost m': Mode, ghost kept': string)
    requires at + 1 < |sql| && sql[at] == '-' && sql[at + 1] == '-'
    requires Outside(m, sql, at) && Synced(sql, done, m, kept, at)
    ensures at < i <= |sql| && Outside(m', sql, i) && Synced(sql, done, m', kept', i)
    ensures kept' + Pending(m') == kept + Pending(m)
  {
    i := at;
    m', kept' := m, kept;
    while i < |sql| && sql[i] != '\n'
      invariant at <= i <= |sql| && Synced(sql, done, m', kept', i)
      invariant if i == at then m' == m && kept' == kept
                else kept' == kept + Pending(m) && m' == if i == at + 1 then Dash else Line
    {
      Advance(sql, done, m', kept', i);
      kept', m' := kept' + Emit(m', sql[i]), Step(true, m', sql[i]);
      i := i + 1;
    }
  }

  /** Inside a block comment nothing is emitted. */
  lemma Silent(sql: string, done: seq<string>, m: Mode, kept: string, i: nat)
    requires i < |sql| && (m == Block || m == Star) && Synced(sql, done, m, kept, i)
    ensures Synced(sql, done, Step(true, m, sql[i]), kept, i + 1)
  {
    Advance(sql, done, m, kept, i);
    assert kept + "" == kept;
  }

  lemma OpenBlock(sql: string, done: seq<string>, m: Mode, kept: string, at: nat)
    requires at + 1 < |sql| && sql[at] == '/' && sql[at + 1] == '*'
    requires Outside(m, sql, at) && Synced(sql, done, m, kept, at)
    ensures Synced(sql, done, Block, kept + Pending(m), at + 2)
  {
    Advance(sql, done, m, kept, at);
    assert Emit(m, '/') == Pending(m) && Step(true, m, '/') == Slash;
    Advance(sql, done, Slash, kept + Pending(m), at + 1);
    assert kept + Pending(m) + "" == kept + Pending(m);
  }

  lemma CloseBlock(sql: string, done: seq<string>, m: Mode, kept: string, i: nat)
    requires i + 1 < |sql| && sql[i] == '*' && sql[i + 1] == '/'
    requires (m == Block || m == Star) && Synced(sql, done, m, kept, i)
    ensures Synced(sql, done, Normal, kept, i + 2)
  {
    Silent(sql, done, m, kept, i);
    Silent(sql, done, Star, kept, i + 1);
  }

  /** Skip from a slash-star past the next star-slash, or to the end. */
  method SkipBlock(sql: string, ghost done: seq<string>, ghost m: Mode, ghost kept: string, at: nat)
      returns (i: nat, ghost m': Mode, ghost kept': string)
    requires at + 1 < |sql| && sql[at] == '/' && sql[at + 1] == '*'
    requires Outside(m, sql, at) && Synced(sql, done, m, kept, at)
    ensures at < i <= |sql| && Outside(m', sql, i) && Synced(sql, done, m', kept', i)
    ensures kept' + Pending(m') == kept + Pending(m)
  {
    OpenBlock(sql, done, m, kept, at);
    kept', m' := kept + Pending(m), Block;
    i := at + 2;
    while i < |sql| && !(sql[i] == '*' && i + 1 < |sql| && sql[i + 1] == '/')
      invariant at + 2 <= i <= |sql| && Synced(sql, done, m', kept', i) && kept' == kept + Pending(m)
      invariant m' == Block || (m' == Star && (i == |sql| || sql[i] != '/'))
    {
      Silent(sql, done, m', kept', i);
      m' := Step(true, m', sql[i]);
      i := i + 1;
    }
    if i < |sql| {
      CloseBlock(sql, done, m', kept', i);
      m' := Normal;
      i := i + 2;
    }
    assert kept' + "" == kept';
  }

  lemma OpenQuote(sql: string, done: seq<string>, m: Mode, kept: string, at: nat)
    requires at < |sql| && IsQuote(sql[at]) && Outside(m, sql, at) && Synced(sql, done, m, kept, at)
    ensures Synced(sql, done, FromNormal(sql[at]), kept + Pending(m) + [sql[at]], at + 1)
  {
    Advance(sql, done, m, kept, at);
    Copied(m, sql, at, kept);
    assert kept + Emit(m, sql[at]) + "" == kept + Emit(m, sql[at]);
  }

  /** A quoted string is copied verbatim, escapes included. */
  method CopyQuoted(sql: string, ghost done: seq<string>, ghost m: Mode, ghost kept: string, at: nat, b: string)
      returns (i: nat, buf: string, ghost m': Mode, ghost kept': string)
    requires at < |sql| && IsQuote(sql[at])
    requires Outside(m, sql, at) && Synced(sql, done, m, kept, at) && b == kept + Pending(m)
    ensures at < i <= |sql| && Outside(m', sql, i) && Synced(sql, done, m', kept', i) && buf == kept' + Pending(m')
  {
    var quote := sql[at];
    OpenQuote(sql, done, m, kept, at);
    i, buf := at + 1, b + [quote];
    kept', m' := buf, FromNormal(quote);
    while i < |sql|
      invariant at < i <= |sql| && m' == FromNormal(quote) && Synced(sql, done, m', kept', i) && buf == kept'
    {
      var cc := sql[i];
      buf := buf + [cc];
      if cc == '\\' && i + 1 < |sql| {
        EscapedPair(sql, done, quote, kept', i);
        buf := buf + [sql[i + 1]];
        kept' := buf;
        i := i + 2;
        continue;
      }
      QuotedStep(sql, done, quote, kept', i);
      kept', m' := buf, AfterQuoted(quote, cc);
      i := i + 1;
      if cc == quote || i == |sql| {
        QuoteLeft(quote, cc, sql, i);
        assert kept' + "" == kept';
        return;
      }
    }
    QuoteLeft(quote, quote, sql, i);
    assert kept' + "" == kept';
  }
}
