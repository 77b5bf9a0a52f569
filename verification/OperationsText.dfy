/**
 * The text buildUnionSql emits (lib/inventoryOperations.js:680-742), token by token, read back by the
 * rules of SQL: AND binds tighter than OR, parentheses group, placeholders are bound left to right.
 */
module OperationsText {
  import opened Text
  import opened OperationsQuery
  import opened OperationsMeaning

  /** Head(s) stands for SELECT, the column list of s, FROM its table; the list holds no placeholder. */
  datatype Token = Head(s: Source) | Where | Union | LPar | RPar | Comma | Hole | AndWord | OrWord
                 | InWord | LikeWord | IsWord | NullWord | DateWord | Coalesce
                 | AtLeastSign | AtMostSign | EqualsSign | DiffersSign
                 | Name(c: string) | Literal(lit: string) | Number(n: nat)

  // ----- Writing -----

  function ExprTokens(e: Expr): seq<Token> {
    match e
    case Col(c) => [Name(c)]
    case DateOf(c) => [DateWord, LPar, Name(c), RPar]
    case FirstOf(c, d) => [Coalesce, LPar, Name(c), Comma, Name(d), RPar]
  }

  function HoleList(n: nat): seq<Token> {
    if n == 0 then [] else if n == 1 then [Hole] else [Hole, Comma] + HoleList(n - 1)
  }

  function FixedTokens(f: Fixed): seq<Token> {
    match f
    case EqualsText(c, lit) => [Name(c), EqualsSign, Literal(lit)]
    case DiffersFrom(c, lit) => [Name(c), DiffersSign, Literal(lit)]
    case IsNull(c) => [Name(c), IsWord, NullWord]
    case Never => [Number(1), EqualsSign, Number(0)]
  }

  function AtomTokens(a: Atom): seq<Token> {
    match a
    case In(e, n) => ExprTokens(e) + ([InWord, LPar] + (HoleList(n) + [RPar]))
    case Eq(e) => ExprTokens(e) + [EqualsSign, Hole]
    case AtLeast(e) => ExprTokens(e) + [AtLeastSign, Hole]
    case AtMost(e) => ExprTokens(e) + [AtMostSign, Hole]
    case LikeHole(e) => ExprTokens(e) + [LikeWord, Hole]
    case Const(f) => FixedTokens(f)
  }

  /** How a token of a condition is written. */
  function Spelling(k: Token): string
    requires !k.Head?
  {
    match k
    case Where => "WHERE" case Union => "UNION ALL" case LPar => "(" case RPar => ")" case Comma => "," case Hole => "?"
    case AndWord => "AND" case OrWord => "OR" case InWord => "IN" case LikeWord => "LIKE" case IsWord => "IS" case NullWord => "NULL"
    case DateWord => "DATE" case Coalesce => "COALESCE" case AtLeastSign => ">=" case AtMostSign => "<=" case EqualsSign => "="
    case DiffersSign => "<>" case Name(c) => "t.`" + c + "`" case Literal(lit) => "'" + lit + "'" case Number(n) => Digits(n)
  }

  predicate NoHead(ts: seq<Token>) { forall k | 0 <= k < |ts| :: !ts[k].Head? }

  function Spelled(ts: seq<Token>): (r: seq<string>)
    requires NoHead(ts)
    ensures |r| == |ts|
  { seq(|ts|, k requires 0 <= k < |ts| => Spelling(ts[k])) }

  /** Columns and the two functions on them as they are written, but for white space. */
  lemma ExprSpelled(c: string, d: string)
    ensures Spelled(ExprTokens(Col(c))) == ["t.`" + c + "`"]
    ensures Spelled(ExprTokens(DateOf(c))) == ["DATE", "(", "t.`" + c + "`", ")"]
    ensures Spelled(ExprTokens(FirstOf(c, d))) == ["COALESCE", "(", "t.`" + c + "`", ",", "t.`" + d + "`", ")"]
  {}

  /** A comparison with one parameter: the expression, its operator, a placeholder. */
  lemma ComparisonSpelled(e: Expr)
    ensures NoHead(ExprTokens(e))
    ensures NoHead(AtomTokens(Eq(e))) && Spelled(AtomTokens(Eq(e))) == Spelled(ExprTokens(e)) + ["=", "?"]
    ensures NoHead(AtomTokens(AtLeast(e))) && Spelled(AtomTokens(AtLeast(e))) == Spelled(ExprTokens(e)) + [">=", "?"]
    ensures NoHead(AtomTokens(AtMost(e))) && Spelled(AtomTokens(AtMost(e))) == Spelled(ExprTokens(e)) + ["<=", "?"]
    ensures NoHead(AtomTokens(LikeHole(e))) && Spelled(AtomTokens(LikeHole(e))) == Spelled(ExprTokens(e)) + ["LIKE", "?"]
  {}

  /** The constant conditions. */
  lemma FixedSpelled(c: string, lit: string)
    ensures Spelled(FixedTokens(EqualsText(c, lit))) == ["t.`" + c + "`", "=", "'" + lit + "'"]
    ensures Spelled(FixedTokens(DiffersFrom(c, lit))) == ["t.`" + c + "`", "<>", "'" + lit + "'"]
    ensures Spelled(FixedTokens(IsNull(c))) == ["t.`" + c + "`", "IS", "NULL"]
    ensures Spelled(FixedTokens(Never)) == ["1", "=", "0"]
  { assert Digits(1) == "1" && Digits(0) == "0"; }

  function Tail(sep: Token, parts: seq<seq<Token>>): seq<Token> {
    if parts == [] then [] else [sep] + (parts[0] + Tail(sep, parts[1..]))
  }

  function Joined(sep: Token, parts: seq<seq<Token>>): seq<Token> {
    if parts == [] then [] else parts[0] + Tail(sep, parts[1..])
  }

  function Paren(ts: seq<Token>): seq<Token> { [LPar] + (ts + [RPar]) }

  /** A comparison as it stands, a parenthesised disjunction, or one whose comparisons have parentheses too. */
  datatype Style = Bare | Grouped | Nested

  function Written(style: Style, a: Atom): seq<Token> {
    if style == Nested then Paren(AtomTokens(a)) else AtomTokens(a)
  }

  function AllWritten(style: Style, atoms: seq<Atom>): (r: seq<seq<Token>>)
    ensures |r| == |atoms|
  { seq(|atoms|, i requires 0 <= i < |atoms| => Written(style, atoms[i])) }

  function ItemTokens(style: Style, atoms: seq<Atom>): seq<Token> {
    if style == Bare then Joined(OrWord, AllWritten(style, atoms)) else Paren(Joined(OrWord, AllWritten(style, atoms)))
  }

  /** The styles of the seven items, in the order of Items. */
  const STYLES: seq<Style> := [Grouped, Bare, Grouped, Bare, Bare, Bare, Nested]

  function WhereParts(items: seq<seq<Part>>, styles: seq<Style>): seq<seq<Token>>
    requires |items| == |styles|
  {
    if items == [] then []
    else
      var k := |items| - 1;
      WhereParts(items[..k], styles[..k]) + (if items[k] == [] then [] else [ItemTokens(styles[k], AtomsOf(items[k]))])
  }

  function BranchText(s: Source, o: Opts): seq<Token> {
    var where := WhereParts(Items(s, o), STYLES);
    [Head(s)] + (if where == [] then [] else [Where] + Joined(AndWord, where))
  }

  function BranchTexts(sources: seq<Source>, o: Opts): seq<seq<Token>> {
    if sources == [] then []
    else
      var s := sources[|sources| - 1];
      BranchTexts(sources[..|sources| - 1], o) + (if Exclusion(s, o).None? then [BranchText(s, o)] else [])
  }

  function QueryText(sources: seq<Source>, o: Opts): seq<Token> { Joined(Union, BranchTexts(sources, o)) }

  // ----- Reading -----

  datatype Cond = Cmp(a: Atom) | AllOf(l: Cond, r: Cond) | AnyOf(l: Cond, r: Cond)

  type Read<T> = Option<(T, seq<Token>)>

  function ReadExpr(ts: seq<Token>): (p: Read<Expr>)
    ensures p.Some? ==> |p.value.1| < |ts|
  {
    if |ts| >= 1 && ts[0].Name? then Some((Col(ts[0].c), ts[1..]))
    else if |ts| >= 4 && ts[..2] == [DateWord, LPar] && ts[2].Name? && ts[3] == RPar
    then Some((DateOf(ts[2].c), ts[4..]))
    else if |ts| >= 6 && ts[..2] == [Coalesce, LPar] && ts[2].Name? && ts[3] == Comma && ts[4].Name? && ts[5] == RPar
    then Some((FirstOf(ts[2].c, ts[4].c), ts[6..]))
    else None
  }

  /** Placeholders separated by commas up to the closing parenthesis. */
  function ReadHoles(ts: seq<Token>): (p: Read<nat>)
    ensures p.Some? ==> |p.value.1| < |ts|
  {
    if |ts| < 2 || ts[0] != Hole then None
    else if ts[1] == RPar then Some((1, ts[2..]))
    else if ts[1] == Comma then
      match ReadHoles(ts[2..])
      case None => None
      case Some(more) => Some((more.0 + 1, more.1))
    else None
  }

  function ReadOperator(e: Expr, ts: seq<Token>): (p: Read<Atom>)
    ensures p.Some? ==> |p.value.1| < |ts|
  {
    if |ts| < 2 then None
    else if ts[..2] == [InWord, LPar] then
      match ReadHoles(ts[2..])
      case None => None
      case Some(list) => Some((In(e, list.0), list.1))
    else if ts[..2] == [EqualsSign, Hole] then Some((Eq(e), ts[2..]))
    else if ts[..2] == [AtLeastSign, Hole] then Some((AtLeast(e), ts[2..]))
    else if ts[..2] == [AtMostSign, Hole] then Some((AtMost(e), ts[2..]))
    else if ts[..2] == [LikeWord, Hole] then Some((LikeHole(e), ts[2..]))
    else if e.Col? && ts[0] == EqualsSign && ts[1].Literal? then Some((Const(EqualsText(e.c, ts[1].lit)), ts[2..]))
    else if e.Col? && ts[0] == DiffersSign && ts[1].Literal? then Some((Const(DiffersFrom(e.c, ts[1].lit)), ts[2..]))
    else if e.Col? && ts[..2] == [IsWord, NullWord] then Some((Const(IsNull(e.c)), ts[2..]))
    else None
  }

  function ReadAtom(ts: seq<Token>): (p: Read<Atom>)
    ensures p.Some? ==> |p.value.1| < |ts|
  {
    if |ts| >= 3 && ts[..3] == [Number(1), EqualsSign, Number(0)] then Some((Const(Never), ts[3..]))
    else
      match ReadExpr(ts)
      case None => None
      case Some(e) => ReadOperator(e.0, e.1)
  }

  /** A comparison, or a condition in parentheses. */
  function ReadFactor(ts: seq<Token>): (p: Read<Cond>)
    ensures p.Some? ==> |p.value.1| < |ts|
    decreases |ts|, 0
  {
    if ts == [] then None
    else if ts[0] == LPar then
      match ReadCond(ts[1..])
      case None => None
      case Some(c) => if c.1 != [] && c.1[0] == RPar then Some((c.0, c.1[1..])) else None
    else
      match ReadAtom(ts)
      case None => None
      case Some(a) => Some((Cmp(a.0), a.1))
  }

  function ReadAnds(c: Cond, ts: seq<Token>): (p: Read<Cond>)
    ensures p.Some? ==> |p.value.1| <= |ts|
    decreases |ts|, 1
  {
    if ts == [] || ts[0] != AndWord then Some((c, ts))
    else
      match ReadFactor(ts[1..])
      case None => None
      case Some(d) => ReadAnds(AllOf(c, d.0), d.1)
  }

  function ReadTerm(ts: seq<Token>): (p: Read<Cond>)
    ensures p.Some? ==> |p.value.1| < |ts|
    decreases |ts|, 2
  {
    match ReadFactor(ts)
    case None => None
    case Some(c) => ReadAnds(c.0, c.1)
  }

  function ReadOrs(c: Cond, ts: seq<Token>): (p: Read<Cond>)
    ensures p.Some? ==> |p.value.1| <= |ts|
    decreases |ts|, 3
  {
    if ts == [] || ts[0] != OrWord then Some((c, ts))
    else
      match ReadTerm(ts[1..])
      case None => None
      case Some(d) => ReadOrs(AnyOf(c, d.0), d.1)
  }

  function ReadCond(ts: seq<Token>): (p: Read<Cond>)
    ensures p.Some? ==> |p.value.1| < |ts|
    decreases |ts|, 4
  {
    match ReadTerm(ts)
    case None => None
    case Some(c) => ReadOrs(c.0, c.1)
  }

  datatype Select = Select(source: Source, cond: Option<Cond>)

  function ReadSelect(ts: seq<Token>): (p: Read<Select>)
    ensures p.Some? ==> |p.value.1| < |ts|
  {
    if ts == [] || !ts[0].Head? then None
    else if |ts| >= 2 && ts[1] == Where then
      match ReadCond(ts[2..])
      case None => None
      case Some(c) => Some((Select(ts[0].s, Some(c.0)), c.1))
    else Some((Select(ts[0].s, None), ts[1..]))
  }

  function ReadSelects(ts: seq<Token>): Option<seq<Select>>
    decreases |ts|
  {
    match ReadSelect(ts)
    case None => None
    case Some(q) =>
      if q.1 == [] then Some([q.0])
      else if q.1[0] != Union then None
      else
        match ReadSelects(q.1[1..])
        case None => None
        case Some(more) => Some([q.0] + more)
  }

  /** The empty text is the empty union. */
  function ReadQuery(ts: seq<Token>): Option<seq<Select>> { if ts == [] then Some([]) else ReadSelects(ts) }

  // ----- What a text means -----

  function CondHoles(c: Cond): nat {
    match c
    case Cmp(a) => Holes(a)
    case AllOf(l, r) => CondHoles(l) + CondHoles(r)
    case AnyOf(l, r) => CondHoles(l) + CondHoles(r)
  }

  function CondTruth(c: Cond, row: Record, args: seq<string>): Truth
    requires |args| == CondHoles(c)
  {
    match c
    case Cmp(a) => AtomTruth(a, row, args)
    case AllOf(l, r) => var k := CondHoles(l); And(CondTruth(l, row, args[..k]), CondTruth(r, row, args[k..]))
    case AnyOf(l, r) => var k := CondHoles(l); Or(CondTruth(l, row, args[..k]), CondTruth(r, row, args[k..]))
  }

  function SelectHoles(q: Select): nat { if q.cond.None? then 0 else CondHoles(q.cond.value) }

  predicate Selected(q: Select, row: Record, args: seq<string>)
    requires |args| == SelectHoles(q)
  { q.cond.None? || CondTruth(q.cond.value, row, args) == Holds }

  function Answer(q: Select, rows: seq<Record>, args: seq<string>): seq<Out>
    requires |args| == SelectHoles(q)
  {
    if rows == [] then []
    else
      var row := rows[|rows| - 1];
      Answer(q, rows[..|rows| - 1], args) + (if Selected(q, row, args) then [Project(q.source, row)] else [])
  }

  function AllHoles(qs: seq<Select>): nat {
    if qs == [] then 0 else AllHoles(qs[..|qs| - 1]) + SelectHoles(qs[|qs| - 1])
  }

  function AnswerAll(qs: seq<Select>, db: map<string, seq<Record>>, params: seq<string>): seq<Out>
    requires |params| == AllHoles(qs)
  {
    if qs == [] then []
    else
      var q, k := qs[|qs| - 1], AllHoles(qs[..|qs| - 1]);
      AnswerAll(qs[..|qs| - 1], db, params[..k]) + Answer(q, Rows(db, q.source), params[k..])
  }

  // ----- Reading back what was written -----

  function FoldAny(c: Cond, more: seq<Cond>): Cond
    decreases |more|
  { if more == [] then c else FoldAny(AnyOf(c, more[0]), more[1..]) }

  function FoldAll(c: Cond, more: seq<Cond>): Cond
    decreases |more|
  { if more == [] then c else FoldAll(AllOf(c, more[0]), more[1..]) }

  /** Whatever follows, the text is read as the condition and no further. */
  ghost predicate Reads(t: seq<Token>, c: Cond) {
    forall rest: seq<Token> {:trigger t + rest} :: ReadFactor(t + rest) == Some((c, rest))
  }

  ghost predicate AllRead(ts: seq<seq<Token>>, cs: seq<Cond>) {
    |ts| == |cs| && forall i | 0 <= i < |ts| :: Reads(ts[i], cs[i])
  }

  lemma {:induction false} HolesRead(n: nat, rest: seq<Token>)
    requires n >= 1
    ensures ReadHoles(HoleList(n) + [RPar] + rest) == Some((n, rest))
  {
    var ts := HoleList(n) + [RPar] + rest;
    if n == 1 {
      assert ts[2..] == rest;
    } else {
      HolesRead(n - 1, rest);
      assert ts[2..] == HoleList(n - 1) + [RPar] + rest;
    }
  }

  lemma ExprReads(e: Expr, rest: seq<Token>)
    ensures ReadExpr(ExprTokens(e) + rest) == Some((e, rest))
    ensures ExprTokens(e)[0] != LPar && !ExprTokens(e)[0].Number?
  {
    var ts := ExprTokens(e) + rest;
    match e
    case Col(c) => assert ts[1..] == rest;
    case DateOf(c) => assert ts[4..] == rest && ts[..2] == [DateWord, LPar];
    case FirstOf(c, d) => assert ts[6..] == rest && ts[..2] == [Coalesce, LPar];
  }

  lemma OperatorReads(e: Expr, t: seq<Token>, a: Atom, rest: seq<Token>)
    requires ReadOperator(e, t + rest) == Some((a, rest))
    ensures ReadAtom(ExprTokens(e) + t + rest) == Some((a, rest)) && (ExprTokens(e) + t)[0] != LPar
  {
    ExprReads(e, t + rest);
    assert ExprTokens(e) + t + rest == ExprTokens(e) + (t + rest);
    assert (ExprTokens(e) + t + rest)[0] == ExprTokens(e)[0];
  }

  lemma SignReads(e: Expr, sign: Token, a: Atom, rest: seq<Token>)
    requires || (sign == EqualsSign && a == Eq(e)) || (sign == AtLeastSign && a == AtLeast(e))
             || (sign == AtMostSign && a == AtMost(e)) || (sign == LikeWord && a == LikeHole(e))
    ensures ReadOperator(e, [sign, Hole] + rest) == Some((a, rest))
  {
    var ts := [sign, Hole] + rest;
    assert ts[..2] == [sign, Hole] && ts[2..] == rest;
  }

  lemma FixedReads(f: Fixed, rest: seq<Token>)
    ensures ReadAtom(FixedTokens(f) + rest) == Some((Const(f), rest))
  {
    var ts := FixedTokens(f) + rest;
    assert ts[3..] == rest;
    if f.Never? {
      assert ts[..3] == [Number(1), EqualsSign, Number(0)];
    } else {
      var op := ts[1..];
      assert op[2..] == rest;
      assert op[..2] == FixedTokens(f)[1..];
      assert ts[..3][0] == ts[0];
    }
  }

  lemma AtomReads(a: Atom, rest: seq<Token>)
    requires a.In? ==> a.n >= 1
    ensures ReadAtom(AtomTokens(a) + rest) == Some((a, rest)) && AtomTokens(a) != [] && AtomTokens(a)[0] != LPar
  {
    match a
    case In(e, n) =>
      var t := [InWord, LPar] + (HoleList(n) + [RPar]);
      HolesRead(n, rest);
      assert (t + rest)[..2] == [InWord, LPar] && (t + rest)[2..] == HoleList(n) + [RPar] + rest;
      OperatorReads(e, t, a, rest);
    case Eq(e) => SignReads(e, EqualsSign, a, rest); OperatorReads(e, [EqualsSign, Hole], a, rest);
    case AtLeast(e) => SignReads(e, AtLeastSign, a, rest); OperatorReads(e, [AtLeastSign, Hole], a, rest);
    case AtMost(e) => SignReads(e, AtMostSign, a, rest); OperatorReads(e, [AtMostSign, Hole], a, rest);
    case LikeHole(e) => SignReads(e, LikeWord, a, rest); OperatorReads(e, [LikeWord, Hole], a, rest);
    case Const(f) => FixedReads(f, rest);
  }

  lemma BareReads(a: Atom)
    requires a.In? ==> a.n >= 1
    ensures Reads(AtomTokens(a), Cmp(a))
  {
    forall rest: seq<Token> ensures ReadFactor(AtomTokens(a) + rest) == Some((Cmp(a), rest)) {
      AtomReads(a, rest);
      assert (AtomTokens(a) + rest)[0] == AtomTokens(a)[0];
    }
  }

  lemma AndNext(c: Cond, t: seq<Token>, d: Cond, more: seq<Token>)
    requires Reads(t, d)
    ensures ReadAnds(c, [AndWord] + (t + more)) == ReadAnds(AllOf(c, d), more)
  {
    assert ([AndWord] + (t + more))[1..] == t + more;
    assert ReadFactor(t + more) == Some((d, more));
  }

  lemma {:induction false} AndsRead(c: Cond, ts: seq<seq<Token>>, cs: seq<Cond>, rest: seq<Token>)
    requires AllRead(ts, cs) && (rest == [] || rest[0] != AndWord)
    ensures ReadAnds(c, Tail(AndWord, ts) + rest) == Some((FoldAll(c, cs), rest))
    decreases |ts|
  {
    if ts == [] {
      assert Tail(AndWord, ts) + rest == rest;
    } else {
      var more := Tail(AndWord, ts[1..]) + rest;
      assert Tail(AndWord, ts) + rest == [AndWord] + (ts[0] + more);
      AndNext(c, ts[0], cs[0], more);
      AllReadTail(ts, cs);
      AndsRead(AllOf(c, cs[0]), ts[1..], cs[1..], rest);
    }
  }

  lemma AllReadTail(ts: seq<seq<Token>>, cs: seq<Cond>)
    requires AllRead(ts, cs) && ts != []
    ensures Reads(ts[0], cs[0]) && AllRead(ts[1..], cs[1..])
  {}

  /** A factor followed by OR, a closing parenthesis or nothing is a whole term. */
  lemma TermReads(t: seq<Token>, c: Cond, rest: seq<Token>)
    requires Reads(t, c) && (rest == [] || rest[0] != AndWord)
    ensures ReadTerm(t + rest) == Some((c, rest))
  { assert ReadFactor(t + rest) == Some((c, rest)); }

  lemma TailStart(sep: Token, ts: seq<seq<Token>>, rest: seq<Token>)
    ensures Tail(sep, ts) + rest == [] || (Tail(sep, ts) + rest)[0] == sep || (ts == [] && Tail(sep, ts) + rest == rest)
  { if ts == [] { assert Tail(sep, ts) + rest == rest; } }

  lemma OrNext(c: Cond, t: seq<Token>, d: Cond, more: seq<Token>)
    requires Reads(t, d) && (more == [] || more[0] != AndWord)
    ensures ReadOrs(c, [OrWord] + (t + more)) == ReadOrs(AnyOf(c, d), more)
  {
    TermReads(t, d, more);
    assert ([OrWord] + (t + more))[1..] == t + more;
  }

  lemma {:induction false} OrsRead(c: Cond, ts: seq<seq<Token>>, cs: seq<Cond>, rest: seq<Token>)
    requires AllRead(ts, cs) && (rest == [] || (rest[0] != AndWord && rest[0] != OrWord))
    ensures ReadOrs(c, Tail(OrWord, ts) + rest) == Some((FoldAny(c, cs), rest))
    decreases |ts|
  {
    if ts == [] {
      assert Tail(OrWord, ts) + rest == rest;
    } else {
      var more := Tail(OrWord, ts[1..]) + rest;
      assert Tail(OrWord, ts) + rest == [OrWord] + (ts[0] + more);
      TailStart(OrWord, ts[1..], rest);
      AllReadTail(ts, cs);
      OrNext(c, ts[0], cs[0], more);
      OrsRead(AnyOf(c, cs[0]), ts[1..], cs[1..], rest);
    }
  }

  /** Terms joined by OR, up to the closing parenthesis. */
  lemma DisjunctionReads(ts: seq<seq<Token>>, cs: seq<Cond>, rest: seq<Token>)
    requires AllRead(ts, cs) && ts != []
    ensures ReadCond(Joined(OrWord, ts) + ([RPar] + rest)) == Some((FoldAny(cs[0], cs[1..]), [RPar] + rest))
  {
    var close := [RPar] + rest;
    var more := Tail(OrWord, ts[1..]) + close;
    assert Joined(OrWord, ts) + close == ts[0] + more;
    TailStart(OrWord, ts[1..], close);
    AllReadTail(ts, cs);
    TermReads(ts[0], cs[0], more);
    OrsRead(cs[0], ts[1..], cs[1..], close);
  }

  /** A parenthesised disjunction is read as one factor. */
  lemma GroupReads(ts: seq<seq<Token>>, cs: seq<Cond>)
    requires AllRead(ts, cs) && ts != []
    ensures Reads(Paren(Joined(OrWord, ts)), FoldAny(cs[0], cs[1..]))
  {
    var t := Paren(Joined(OrWord, ts));
    forall rest: seq<Token> ensures ReadFactor(t + rest) == Some((FoldAny(cs[0], cs[1..]), rest)) {
      DisjunctionReads(ts, cs, rest);
      assert (t + rest)[1..] == Joined(OrWord, ts) + ([RPar] + rest);
      assert ([RPar] + rest)[1..] == rest;
    }
  }

  /** Factors joined by AND are read as their conjunction. */
  lemma ConjunctionReads(ts: seq<seq<Token>>, cs: seq<Cond>, rest: seq<Token>)
    requires AllRead(ts, cs) && ts != [] && (rest == [] || (rest[0] != AndWord && rest[0] != OrWord))
    ensures ReadCond(Joined(AndWord, ts) + rest) == Some((FoldAll(cs[0], cs[1..]), rest))
  {
    var more := Tail(AndWord, ts[1..]) + rest;
    assert Joined(AndWord, ts) + rest == ts[0] + more;
    assert Reads(ts[0], cs[0]);
    AndsRead(cs[0], ts[1..], cs[1..], rest);
    assert ReadOrs(FoldAll(cs[0], cs[1..]), rest) == Some((FoldAll(cs[0], cs[1..]), rest));
  }

  // ----- The items of a branch -----

  function Cmps(atoms: seq<Atom>): (r: seq<Cond>)
    ensures |r| == |atoms|
  { seq(|atoms|, i requires 0 <= i < |atoms| => Cmp(atoms[i])) }

  function AnyCond(atoms: seq<Atom>): Cond
    requires atoms != []
  { FoldAny(Cmps(atoms)[0], Cmps(atoms)[1..]) }

  predicate NoEmptyLists(atoms: seq<Atom>) { forall i | 0 <= i < |atoms| :: atoms[i].In? ==> atoms[i].n >= 1 }

  lemma WrittenReads(style: Style, a: Atom)
    requires a.In? ==> a.n >= 1
    ensures Reads(Written(style, a), Cmp(a))
  {
    BareReads(a);
    if style == Nested {
      assert Joined(OrWord, [AtomTokens(a)]) == AtomTokens(a) + Tail(OrWord, []);
      assert Joined(OrWord, [AtomTokens(a)]) == AtomTokens(a);
      GroupReads([AtomTokens(a)], [Cmp(a)]);
    }
  }

  lemma ItemReads(style: Style, atoms: seq<Atom>)
    requires atoms != [] && NoEmptyLists(atoms) && (style == Bare ==> |atoms| == 1)
    ensures Reads(ItemTokens(style, atoms), AnyCond(atoms))
  {
    var ts, cs := AllWritten(style, atoms), Cmps(atoms);
    forall i | 0 <= i < |ts| ensures Reads(ts[i], cs[i]) { WrittenReads(style, atoms[i]); }
    if style == Bare {
      assert ts[1..] == [] && cs[1..] == [];
      assert ItemTokens(style, atoms) == ts[0] + Tail(OrWord, ts[1..]);
      assert ItemTokens(style, atoms) == ts[0];
      assert Reads(ts[0], cs[0]);
    } else {
      GroupReads(ts, cs);
    }
  }

  predicate Writable(item: seq<Part>, style: Style) { NoEmptyLists(AtomsOf(item)) && (style == Bare ==> |item| <= 1) }

  predicate Disjunctions(where: seq<seq<Atom>>) { forall i | 0 <= i < |where| :: where[i] != [] }

  function AnyConds(where: seq<seq<Atom>>): (r: seq<Cond>)
    requires Disjunctions(where)
    ensures |r| == |where|
  { seq(|where|, i requires 0 <= i < |where| => AnyCond(where[i])) }

  function AllCond(where: seq<seq<Atom>>): Cond
    requires where != [] && Disjunctions(where)
  { FoldAll(AnyConds(where)[0], AnyConds(where)[1..]) }

  lemma AllReadSnoc(ts: seq<seq<Token>>, where: seq<seq<Atom>>, t: seq<Token>, atoms: seq<Atom>)
    requires Disjunctions(where) && AllRead(ts, AnyConds(where)) && atoms != [] && Reads(t, AnyCond(atoms))
    ensures Disjunctions(where + [atoms]) && AllRead(ts + [t], AnyConds(where + [atoms]))
  { assert AnyConds(where + [atoms]) == AnyConds(where) + [AnyCond(atoms)]; }

  lemma {:induction false} PartsRead(items: seq<seq<Part>>, styles: seq<Style>)
    requires |items| == |styles| && forall k | 0 <= k < |items| :: Writable(items[k], styles[k])
    ensures Disjunctions(WhereOf(items)) && AllRead(WhereParts(items, styles), AnyConds(WhereOf(items)))
  {
    if items != [] {
      var k := |items| - 1;
      assert forall j | 0 <= j < k :: items[..k][j] == items[j] && styles[..k][j] == styles[j];
      PartsRead(items[..k], styles[..k]);
      if items[k] != [] {
        assert Writable(items[k], styles[k]);
        ItemReads(styles[k], AtomsOf(items[k]));
        AllReadSnoc(WhereParts(items[..k], styles[..k]), WhereOf(items[..k]), ItemTokens(styles[k], AtomsOf(items[k])), AtomsOf(items[k]));
      }
    }
  }

  lemma {:induction false} ScopeWritable(cols: seq<string>, scopeFor: string -> Scope)
    ensures NoEmptyLists(AtomsOf(ScopeParts(cols, scopeFor)))
  {
    if cols != [] {
      var init, c := cols[..|cols| - 1], cols[|cols| - 1];
      ScopeWritable(init, scopeFor);
      var ps, qs := ScopeParts(cols, scopeFor), ScopeParts(init, scopeFor);
      forall i | 0 <= i < |ps| ensures ps[i].atom.In? ==> ps[i].atom.n >= 1 {
        if i < |qs| { assert AtomsOf(qs)[i] == ps[i].atom; }
      }
    }
  }

  lemma BranchWritable(s: Source, o: Opts)
    requires Exclusion(s, o).None?
    ensures var items := Items(s, o); |items| == |STYLES| && forall k | 0 <= k < |items| :: Writable(items[k], STYLES[k])
  { ScopeWritable(s.scopeColumns, o.scopeFor); }

  function SelectOf(b: Branch): Select
    requires Disjunctions(b.where)
  { Select(b.source, if b.where == [] then None else Some(AllCond(b.where))) }

  /** A branch, followed by UNION or by nothing, is read back as its source with its condition. */
  lemma BranchReads(s: Source, o: Opts, rest: seq<Token>)
    requires Exclusion(s, o).None? && (rest == [] || rest[0] == Union)
    ensures Disjunctions(WhereOf(Items(s, o)))
    ensures ReadSelect(BranchText(s, o) + rest) == Some((SelectOf(Branch(s, WhereOf(Items(s, o)))), rest))
  {
    BranchWritable(s, o);
    PartsRead(Items(s, o), STYLES);
    var parts, where := WhereParts(Items(s, o), STYLES), WhereOf(Items(s, o));
    if where == [] {
      assert (BranchText(s, o) + rest)[1..] == rest;
    } else {
      ConjunctionReads(parts, AnyConds(where), rest);
      WhereRead(s, Joined(AndWord, parts), AllCond(where), rest);
    }
  }

  lemma WhereRead(s: Source, cond: seq<Token>, c: Cond, rest: seq<Token>)
    requires ReadCond(cond + rest) == Some((c, rest))
    ensures ReadSelect([Head(s)] + ([Where] + cond) + rest) == Some((Select(s, Some(c)), rest))
  {
    var ts := [Head(s)] + ([Where] + cond) + rest;
    assert ts[2..] == cond + rest;
  }

  function SelectsOf(bs: seq<Branch>): (r: seq<Select>)
    requires forall i | 0 <= i < |bs| :: Disjunctions(bs[i].where)
    ensures |r| == |bs|
  { seq(|bs|, i requires 0 <= i < |bs| => SelectOf(bs[i])) }

  ghost predicate BranchRead(t: seq<Token>, q: Select) {
    && t != []
    && forall rest: seq<Token> {:trigger t + rest} :: (rest == [] || rest[0] == Union) ==> ReadSelect(t + rest) == Some((q, rest))
  }

  ghost predicate BranchesRead(ts: seq<seq<Token>>, qs: seq<Select>) {
    |ts| == |qs| && forall i | 0 <= i < |ts| :: BranchRead(ts[i], qs[i])
  }

  lemma {:induction false} SelectsRead(ts: seq<seq<Token>>, qs: seq<Select>)
    requires BranchesRead(ts, qs) && ts != []
    ensures ReadSelects(Joined(Union, ts)) == Some(qs)
    decreases |ts|
  {
    assert BranchRead(ts[0], qs[0]);
    var rest := Tail(Union, ts[1..]);
    assert ReadSelect(ts[0] + rest) == Some((qs[0], rest));
    if |ts| == 1 {
      assert qs == [qs[0]];
    } else {
      assert rest[1..] == Joined(Union, ts[1..]);
      SelectsRead(ts[1..], qs[1..]);
      assert qs == [qs[0]] + qs[1..];
    }
  }

  lemma {:induction false} BranchesReadBack(sources: seq<Source>, o: Opts)
    ensures var bs := Compile(sources, o).branches;
            && (forall i | 0 <= i < |bs| :: Disjunctions(bs[i].where))
            && BranchesRead(BranchTexts(sources, o), SelectsOf(bs))
  {
    if sources != [] {
      var s := sources[|sources| - 1];
      BranchesReadBack(sources[..|sources| - 1], o);
      if Exclusion(s, o).None? {
        var b := Branch(s, WhereOf(Items(s, o)));
        BranchReads(s, o, []);
        forall rest: seq<Token> | rest == [] || rest[0] == Union
          ensures ReadSelect(BranchText(s, o) + rest) == Some((SelectOf(b), rest))
        { BranchReads(s, o, rest); }
        assert BranchRead(BranchText(s, o), SelectOf(b));
      }
    }
  }

  /** The emitted text is read back as exactly the compiled branches. */
  lemma TextReadsBack(sources: seq<Source>, o: Opts)
    ensures var bs := Compile(sources, o).branches;
            && (forall i | 0 <= i < |bs| :: Disjunctions(bs[i].where))
            && ReadQuery(QueryText(sources, o)) == Some(SelectsOf(bs))
  {
    BranchesReadBack(sources, o);
    var ts := BranchTexts(sources, o);
    if ts == [] {
      assert SelectsOf(Compile(sources, o).branches) == [];
    } else {
      assert BranchRead(ts[0], SelectsOf(Compile(sources, o).branches)[0]);
      SelectsRead(ts, SelectsOf(Compile(sources, o).branches));
    }
  }

  // ----- The text means what the branches mean -----

  lemma {:induction false} FoldAnySnoc(c: Cond, more: seq<Cond>, d: Cond)
    ensures FoldAny(c, more + [d]) == AnyOf(FoldAny(c, more), d)
    decreases |more|
  {
    if more == [] {
      assert ([] + [d])[1..] == [];
    } else {
      assert (more + [d])[0] == more[0] && (more + [d])[1..] == more[1..] + [d];
      FoldAnySnoc(AnyOf(c, more[0]), more[1..], d);
    }
  }

  lemma {:induction false} FoldAllSnoc(c: Cond, more: seq<Cond>, d: Cond)
    ensures FoldAll(c, more + [d]) == AllOf(FoldAll(c, more), d)
    decreases |more|
  {
    if more == [] {
      assert ([] + [d])[1..] == [];
    } else {
      assert (more + [d])[0] == more[0] && (more + [d])[1..] == more[1..] + [d];
      FoldAllSnoc(AllOf(c, more[0]), more[1..], d);
    }
  }

  lemma {:induction false} AnyCondMeans(atoms: seq<Atom>, row: Record, args: seq<string>)
    requires atoms != [] && |args| == AnyHoles(atoms)
    ensures CondHoles(AnyCond(atoms)) == AnyHoles(atoms) && CondTruth(AnyCond(atoms), row, args) == AnyTruth(atoms, row, args)
    decreases |atoms|
  {
    var n := |atoms| - 1;
    var init, last := atoms[..n], atoms[n];
    var k := AnyHoles(init);
    if n == 0 {
      assert Cmps(atoms)[1..] == [] && args[..k] == [] && args[k..] == args;
    } else {
      AnyCondMeans(init, row, args[..k]);
      assert Cmps(atoms)[1..] == Cmps(init)[1..] + [Cmp(last)];
      FoldAnySnoc(Cmps(init)[0], Cmps(init)[1..], Cmp(last));
    }
  }

  lemma AllCondSnoc(init: seq<seq<Atom>>, last: seq<Atom>)
    requires Disjunctions(init) && last != []
    ensures Disjunctions(init + [last])
    ensures AllCond(init + [last]) == if init == [] then AnyCond(last) else AllOf(AllCond(init), AnyCond(last))
  {
    var cs := AnyConds(init + [last]);
    if init == [] {
      assert cs[1..] == [];
    } else {
      assert cs[0] == AnyConds(init)[0] && cs[1..] == AnyConds(init)[1..] + [AnyCond(last)];
      FoldAllSnoc(AnyConds(init)[0], AnyConds(init)[1..], AnyCond(last));
    }
  }

  /** The condition c means what the WHERE items mean, for these parameters. */
  predicate CondMeans(c: Cond, where: seq<seq<Atom>>, row: Record, args: seq<string>)
    requires |args| == WhereHoles(where)
  { CondHoles(c) == WhereHoles(where) && CondTruth(c, row, args) == WhereTruth(where, row, args) }

  lemma FirstItemMeans(c: Cond, last: seq<Atom>, row: Record, args: seq<string>)
    requires |args| == AnyHoles(last) && CondHoles(c) == |args| && CondTruth(c, row, args) == AnyTruth(last, row, args)
    ensures WhereHoles([last]) == |args| && CondMeans(c, [last], row, args)
  {
    WhereSnoc([], last, row, [], args);
    assert [] + [last] == [last] && [] + args == args;
  }

  lemma NextItemMeans(l: Cond, r: Cond, init: seq<seq<Atom>>, last: seq<Atom>, row: Record, given: seq<string>, more: seq<string>)
    requires |given| == WhereHoles(init) && CondMeans(l, init, row, given)
    requires |more| == AnyHoles(last) && CondHoles(r) == |more| && CondTruth(r, row, more) == AnyTruth(last, row, more)
    ensures WhereHoles(init + [last]) == |given + more| && CondMeans(AllOf(l, r), init + [last], row, given + more)
  {
    WhereSnoc(init, last, row, given, more);
    assert (given + more)[..|given|] == given && (given + more)[|given|..] == more;
  }

  lemma {:induction false} AllCondMeans(where: seq<seq<Atom>>, row: Record, args: seq<string>)
    requires where != [] && Disjunctions(where) && |args| == WhereHoles(where)
    ensures CondMeans(AllCond(where), where, row, args)
    decreases |where|
  {
    var init, last := where[..|where| - 1], where[|where| - 1];
    var given, more := args[..WhereHoles(init)], args[WhereHoles(init)..];
    assert where == init + [last] && args == given + more;
    AnyCondMeans(last, row, more);
    AllCondSnoc(init, last);
    if init == [] {
      FirstItemMeans(AnyCond(last), last, row, more);
      assert where == [last] && args == more;
    } else {
      AllCondMeans(init, row, given);
      NextItemMeans(AllCond(init), AnyCond(last), init, last, row, given, more);
    }
  }

  lemma {:induction false} AnswerMeans(b: Branch, rows: seq<Record>, args: seq<string>)
    requires Disjunctions(b.where) && |args| == WhereHoles(b.where)
    ensures SelectHoles(SelectOf(b)) == WhereHoles(b.where) && Answer(SelectOf(b), rows, args) == RunSelect(b, rows, args)
  {
    if b.where != [] { AllCondMeans(b.where, map[], args); }
    if rows != [] {
      AnswerMeans(b, rows[..|rows| - 1], args);
      if b.where != [] { AllCondMeans(b.where, rows[|rows| - 1], args); }
    }
  }

  lemma {:induction false} AnswerAllMeans(bs: seq<Branch>, db: map<string, seq<Record>>, params: seq<string>)
    requires (forall i | 0 <= i < |bs| :: Disjunctions(bs[i].where)) && |params| == QueryHoles(bs)
    ensures AllHoles(SelectsOf(bs)) == QueryHoles(bs) && AnswerAll(SelectsOf(bs), db, params) == RunQuery(bs, db, params)
  {
    if bs != [] {
      var init, b := bs[..|bs| - 1], bs[|bs| - 1];
      var k := QueryHoles(init);
      AnswerAllMeans(init, db, params[..k]);
      AnswerMeans(b, Rows(db, b.source), params[k..]);
      assert SelectsOf(bs)[..|bs| - 1] == SelectsOf(init);
    }
  }

  /**
   * The emitted text, read by the rules of SQL with its parameters bound left to right, answers exactly
   * the wanted rows of the visible sources.
   */
  lemma TextMeansDirect(sources: seq<Source>, o: Opts, db: map<string, seq<Record>>)
    ensures var q, params := ReadQuery(QueryText(sources, o)), Compile(sources, o).params;
            q.Some? && AllHoles(q.value) == |params| && AnswerAll(q.value, db, params) == Direct(sources, o, db)
  {
    TextReadsBack(sources, o);
    CompiledMeansDirect(sources, o, db);
    AnswerAllMeans(Compile(sources, o).branches, db, Compile(sources, o).params);
  }
}
