/**
 * The ledger operations column by column: what is accepted, which row, entries and balances it
 * leaves, who may do it and when (lib/glPosting.js:247-259, 461-662; lib/glTransitions.js:52-391).
 */
module LedgerRules {
  import opened Text
  import opened LedgerTables
  import opened LedgerSums
  import opened LedgerInvariant

  // ----- Periods -----

  /** Period i is the first that contains the date, both ends included. */
  predicate Governs(ps: seq<Period>, d: Date, i: int) {
    && 0 <= i < |ps| && ps[i].start <= d <= ps[i].end
    && forall k | 0 <= k < i :: d < ps[k].start || ps[k].end < d
  }

  predicate NoPeriod(ps: seq<Period>, d: Date) { forall k | 0 <= k < |ps| :: d < ps[k].start || ps[k].end < d }

  lemma GovernsNext(ps: seq<Period>, d: Date, i: int)
    requires ps != [] && (d < ps[0].start || ps[0].end < d) && Governs(ps[1..], d, i)
    ensures Governs(ps, d, i + 1)
  {
    forall k | 0 <= k < i + 1 ensures d < ps[k].start || ps[k].end < d { if k > 0 { assert ps[1..][k - 1] == ps[k]; } }
  }

  lemma {:induction false} PeriodFound(ps: seq<Period>, d: Date)
    ensures match PeriodAt(ps, d)
            case None => NoPeriod(ps, d)
            case Some(s) => exists i :: Governs(ps, d, i) && ps[i].status == s
  {
    if ps == [] {
    } else if ps[0].start <= d <= ps[0].end {
      assert Governs(ps, d, 0);
    } else {
      PeriodFound(ps[1..], d);
      if PeriodAt(ps, d).Some? {
        var i :| Governs(ps[1..], d, i) && ps[1..][i].status == PeriodAt(ps, d).value;
        GovernsNext(ps, d, i);
        assert ps[i + 1].status == PeriodAt(ps, d).value;
      } else {
        forall k | 0 <= k < |ps| ensures d < ps[k].start || ps[k].end < d { if k > 0 { assert ps[1..][k - 1] == ps[k]; } }
      }
    }
  }

  lemma GovernsOnce(ps: seq<Period>, d: Date, i: int, j: int)
    requires Governs(ps, d, i) && Governs(ps, d, j)
    ensures i == j
  {}

  /** The lookup finds the first period that contains the date, and nothing exactly when none does. */
  lemma PeriodAtIff(ps: seq<Period>, d: Date)
    ensures forall s :: PeriodAt(ps, d) == Some(s) <==> exists i :: Governs(ps, d, i) && ps[i].status == s
    ensures PeriodAt(ps, d).None? <==> NoPeriod(ps, d)
  {
    PeriodFound(ps, d);
    forall i, j | Governs(ps, d, i) && Governs(ps, d, j) ensures i == j { GovernsOnce(ps, d, i, j); }
  }

  /** No period contains the date, or the first that does is open. */
  ghost predicate PeriodOpen(ps: seq<Period>, d: Date) {
    d == 0 || NoPeriod(ps, d) || exists i :: Governs(ps, d, i) && ps[i].status == Open
  }

  /** The first period that contains the date is softly closed and the user may post into it by force. */
  ghost predicate ForcedByRight(ps: seq<Period>, d: Date, force: bool, u: User) {
    && force && (u.role == "admin" || u.developer || "finance.periods.override_lock" in u.caps)
    && exists i :: Governs(ps, d, i) && (ps[i].status == SoftClose || ps[i].status == SoftClosed)
  }

  /** Posting is blocked exactly when the period is not open. */
  lemma ClosedIff(ps: seq<Period>, d: Date)
    ensures IsPeriodClosed(ps, d) <==> !PeriodOpen(ps, d)
  {
    PeriodFound(ps, d);
    forall i, j | Governs(ps, d, i) && Governs(ps, d, j) ensures i == j { GovernsOnce(ps, d, i, j); }
  }

  /** The gate of post and approvePost lets a date through exactly when it is open or forced by right. */
  lemma GateIff(ps: seq<Period>, d: Date, force: bool, u: User)
    ensures PeriodDenial(ps, d, force, u).None? <==> PeriodOpen(ps, d) || (d != 0 && ForcedByRight(ps, d, force, u))
  {
    PeriodFound(ps, d);
    forall i, j | Governs(ps, d, i) && Governs(ps, d, j) ensures i == j { GovernsOnce(ps, d, i, j); }
  }

  // ----- What is accepted -----

  function Debits(ls: seq<Line>): int { if ls == [] then 0 else ls[0].debit + Debits(ls[1..]) }

  function Credits(ls: seq<Line>): int { if ls == [] then 0 else ls[0].credit + Credits(ls[1..]) }

  predicate ZeroLine(l: Line) { l.debit == 0 && l.credit == 0 }

  /** The lines that become entries, in order. */
  function Nonzero(ls: seq<Line>): seq<Line> {
    if ls == [] then [] else (if ZeroLine(ls[0]) then [] else [ls[0]]) + Nonzero(ls[1..])
  }

  /** Amounts on one side only, and an account the code names. */
  predicate GoodLine(codes: map<string, AccountId>, l: Line) {
    ZeroLine(l) || (l.debit >= 0 && l.credit >= 0 && (l.debit == 0 || l.credit == 0) && l.code != "" && l.code in codes)
  }

  /** Why a line is bad, in the order the reasons are tested. */
  function Fault(l: Line): Refusal {
    if l.debit < 0 || l.credit < 0 then NegativeLine
    else if l.debit > 0 && l.credit > 0 then TwoSidedLine
    else UnknownAccount(l.code)
  }

  /** The entry of a line: its own dimensions, or the journal's for the four that are inherited. */
  predicate EntryOf(codes: map<string, AccountId>, h: HeaderDims, l: Line, i: Item) {
    && l.code in codes && i.account == codes[l.code] && i.code == l.code && i.debit == l.debit && i.credit == l.credit
    && i.dims.brand == (if l.dims.brand == "" then h.brand else l.dims.brand)
    && i.dims.branch == (if l.dims.branch == "" then h.branch else l.dims.branch)
    && i.dims.project == (if l.dims.project == "" then h.project else l.dims.project)
    && i.dims.costCenter == (if l.dims.costCenter == "" then h.costCenter else l.dims.costCenter)
    && i.dims.warehouse == l.dims.warehouse && i.dims.partyType == l.dims.partyType && i.dims.partyId == l.dims.partyId
  }

  predicate EntriesOf(codes: map<string, AccountId>, h: HeaderDims, ls: seq<Line>, items: seq<Item>) {
    |items| == |ls| && forall k | 0 <= k < |ls| :: EntryOf(codes, h, ls[k], items[k])
  }

  lemma {:induction false} DebitsConcat(a: seq<Line>, b: seq<Line>)
    ensures Debits(a + b) == Debits(a) + Debits(b)
  {
    if a == [] {
      assert a + b == b;
    } else {
      assert (a + b)[1..] == a[1..] + b;
      DebitsConcat(a[1..], b);
    }
  }

  lemma {:induction false} CreditsConcat(a: seq<Line>, b: seq<Line>)
    ensures Credits(a + b) == Credits(a) + Credits(b)
  {
    if a == [] {
      assert a + b == b;
    } else {
      assert (a + b)[1..] == a[1..] + b;
      CreditsConcat(a[1..], b);
    }
  }

  lemma {:induction false} NonzeroConcat(a: seq<Line>, b: seq<Line>)
    ensures Nonzero(a + b) == Nonzero(a) + Nonzero(b)
  {
    if a == [] {
      assert a + b == b;
    } else {
      assert (a + b)[1..] == a[1..] + b;
      NonzeroConcat(a[1..], b);
    }
  }

  lemma OneLine(l: Line)
    ensures Debits([l]) == l.debit && Credits([l]) == l.credit && Nonzero([l]) == if ZeroLine(l) then [] else [l]
  { assert [l][1..] == [] && [l] == [l] + []; }

  predicate AllGood(codes: map<string, AccountId>, ls: seq<Line>) { forall k | 0 <= k < |ls| :: GoodLine(codes, ls[k]) }

  lemma {:induction false} GoodEntries(codes: map<string, AccountId>, h: HeaderDims, ls: seq<Line>)
    requires AllGood(codes, ls)
    ensures Enrich(codes, h, ls).Ok? && EntriesOf(codes, h, Nonzero(ls), Enrich(codes, h, ls).value)
  {
    if ls != [] {
      var n := |ls| - 1;
      forall k | 0 <= k < n ensures GoodLine(codes, ls[..n][k]) { assert ls[..n][k] == ls[k]; }
      GoodEntries(codes, h, ls[..n]);
      assert ls == ls[..n] + [ls[n]];
      NonzeroConcat(ls[..n], [ls[n]]);
      OneLine(ls[n]);
    }
  }

  lemma AcceptedSides(codes: map<string, AccountId>, h: HeaderDims, l: Line)
    requires Accept(codes, h, l).Ok?
    ensures var more := Accept(codes, h, l).value;
            |more| <= 1 && (if more == [] then l.debit == l.credit == 0 else more[0].debit == l.debit && more[0].credit == l.credit)
  {}

  lemma EnrichSplits(codes: map<string, AccountId>, h: HeaderDims, init: seq<Line>, l: Line)
    requires Enrich(codes, h, init + [l]).Ok?
    ensures Enrich(codes, h, init).Ok? && Accept(codes, h, l).Ok?
    ensures Enrich(codes, h, init + [l]).value == Enrich(codes, h, init).value + Accept(codes, h, l).value
  { assert (init + [l])[..|init|] == init; }

  lemma {:induction false} GoodSums(codes: map<string, AccountId>, h: HeaderDims, ls: seq<Line>)
    requires Enrich(codes, h, ls).Ok?
    ensures SumDebit(Enrich(codes, h, ls).value) == Debits(ls) && SumCredit(Enrich(codes, h, ls).value) == Credits(ls)
  {
    if ls != [] {
      var init, l := ls[..|ls| - 1], ls[|ls| - 1];
      assert ls == init + [l];
      EnrichSplits(codes, h, init, l);
      GoodSums(codes, h, init);
      AcceptedSides(codes, h, l);
      SumsAfter(Enrich(codes, h, init).value, Accept(codes, h, l).value);
      DebitsConcat(init, [l]);
      CreditsConcat(init, [l]);
      OneLine(l);
    }
  }

  lemma SumsAfter(items: seq<Item>, more: seq<Item>)
    requires |more| <= 1
    ensures SumDebit(items + more) == SumDebit(items) + (if more == [] then 0 else more[0].debit)
    ensures SumCredit(items + more) == SumCredit(items) + (if more == [] then 0 else more[0].credit)
  { if more == [] { assert items + more == items; } else { assert (items + more)[..|items|] == items; } }

  /** Without a bad line every nonzero line becomes its entry. */
  lemma GoodLines(codes: map<string, AccountId>, h: HeaderDims, ls: seq<Line>)
    requires AllGood(codes, ls)
    ensures Enrich(codes, h, ls).Ok?
    ensures var items := Enrich(codes, h, ls).value;
            EntriesOf(codes, h, Nonzero(ls), items) && SumDebit(items) == Debits(ls) && SumCredit(items) == Credits(ls)
  {
    GoodEntries(codes, h, ls);
    GoodSums(codes, h, ls);
  }

  /** The first bad line decides. */
  lemma {:induction false} BadLine(codes: map<string, AccountId>, h: HeaderDims, ls: seq<Line>, i: nat)
    requires i < |ls| && !GoodLine(codes, ls[i]) && forall k | 0 <= k < i :: GoodLine(codes, ls[k])
    ensures Enrich(codes, h, ls) == Refused(Fault(ls[i]))
  {
    var n := |ls| - 1;
    if i < n {
      assert ls[..n][i] == ls[i];
      forall k | 0 <= k < i ensures GoodLine(codes, ls[..n][k]) { assert ls[..n][k] == ls[k]; }
      BadLine(codes, h, ls[..n], i);
    } else {
      forall k | 0 <= k < n ensures GoodLine(codes, ls[..n][k]) { assert ls[..n][k] == ls[k]; }
      GoodLines(codes, h, ls[..n]);
    }
  }

  /** Equal totals, or one halala apart where the doubles let that pass. */
  predicate Even(ctx: Ctx, ls: seq<Line>) {
    Debits(ls) == Credits(ls) || (ctx.oneHalalaPasses && -1 <= Debits(ls) - Credits(ls) <= 1)
  }

  ghost predicate Acceptable(ctx: Ctx, s: Spec) {
    && s.lines != [] && PeriodOpen(ctx.periods, if s.date == 0 then ctx.today else s.date)
    && AllGood(ctx.codes, s.lines) && (exists l | l in s.lines :: !ZeroLine(l)) && Even(ctx, s.lines)
  }

  lemma {:induction false} SomeNonzero(ls: seq<Line>)
    ensures Nonzero(ls) != [] <==> exists l | l in ls :: !ZeroLine(l)
  {
    if ls != [] {
      SomeNonzero(ls[1..]);
      assert ls == [ls[0]] + ls[1..];
    }
  }

  /** A journal is accepted exactly when it is acceptable, and then its entries are its nonzero lines in order. */
  lemma AcceptedIff(ctx: Ctx, s: Spec)
    ensures Plan(ctx, s).Ok? <==> Acceptable(ctx, s)
    ensures Plan(ctx, s).Ok? ==>
              var items := Plan(ctx, s).value;
              EntriesOf(ctx.codes, s.dims, Nonzero(s.lines), items) && SumDebit(items) == Debits(s.lines) && SumCredit(items) == Credits(s.lines)
  {
    ClosedIff(ctx.periods, if s.date == 0 then ctx.today else s.date);
    SomeNonzero(s.lines);
    if AllGood(ctx.codes, s.lines) {
      GoodLines(ctx.codes, s.dims, s.lines);
    } else {
      var i := FirstBad(ctx.codes, s.lines);
      BadLine(ctx.codes, s.dims, s.lines, i);
    }
  }

  lemma {:induction false} FirstBad(codes: map<string, AccountId>, ls: seq<Line>) returns (i: nat)
    requires !AllGood(codes, ls)
    ensures i < |ls| && !GoodLine(codes, ls[i]) && forall k | 0 <= k < i :: GoodLine(codes, ls[k])
  {
    i := 0;
    while GoodLine(codes, ls[i])
      invariant i < |ls| && forall k | 0 <= k < i :: GoodLine(codes, ls[k])
      decreases |ls| - i
    {
      if i + 1 == |ls| { assert AllGood(codes, ls); }
      i := i + 1;
    }
  }

  /** A refusal names the first reason that is true, in the order of the checks. */
  lemma RefusedFor(ctx: Ctx, s: Spec)
    requires !Acceptable(ctx, s)
    ensures Plan(ctx, s).Refused?
    ensures var why := Plan(ctx, s).why;
            if s.lines == [] then why == NoLines
            else if !PeriodOpen(ctx.periods, if s.date == 0 then ctx.today else s.date) then why == PeriodClosed
            else if !AllGood(ctx.codes, s.lines) then
              exists i | 0 <= i < |s.lines| ::
                !GoodLine(ctx.codes, s.lines[i]) && why == Fault(s.lines[i]) && forall k | 0 <= k < i :: GoodLine(ctx.codes, s.lines[k])
            else if forall l | l in s.lines :: ZeroLine(l) then why == AllZero
            else why == Unbalanced(Debits(s.lines), Credits(s.lines))
  {
    AcceptedIff(ctx, s);
    ClosedIff(ctx.periods, if s.date == 0 then ctx.today else s.date);
    SomeNonzero(s.lines);
    if AllGood(ctx.codes, s.lines) {
      GoodLines(ctx.codes, s.dims, s.lines);
    } else {
      var i := FirstBad(ctx.codes, s.lines);
      BadLine(ctx.codes, s.dims, s.lines, i);
    }
  }

  // ----- The row that is stored -----

  /** The header of an inserted journal. */
  predicate StoredAs(j: Journal, s: Spec, today: Date, number: string) {
    && j.number == number && j.date == (if s.date == 0 then today else s.date)
    && j.refType == (if s.refType == "" then "manual" else s.refType) && j.refId == s.refId
    && j.totalDebit == Debits(s.lines) && j.totalCredit == Credits(s.lines)
    && j.status == (if s.draft then Draft else Posted)
    && j.createdBy == s.author && j.approvedBy == "" && j.postedBy == s.author && j.reversedBy == None
  }

  /** postJournal stores the journal under its own date, reference, author and totals. */
  lemma PostedRow(t: Tables, e: Event)
    requires e.Post? && Enabled(t, e)
    ensures var t' := Apply(t, e);
            && t'.journals == t.journals[e.newId := t'.journals[e.newId]]
            && StoredAs(t'.journals[e.newId], e.spec, e.ctx.today, e.number) && t'.journals[e.newId].reverses == None
  { AcceptedIff(e.ctx, e.spec); }

  lemma InsertedEntries(t: Tables, e: Event)
    requires (e.Post? || e.Reverse?) && Enabled(t, e) && RowsOk(t)
    ensures ItemsOf(Apply(t, e).rows, e.newId) == Plan(e.ctx, SpecOf(t, e)).value
  {
    var items := Plan(e.ctx, SpecOf(t, e)).value;
    assert Apply(t, e).rows == t.rows + RowsFor(e.newId, items);
    ItemsOfAppend(t.rows, e.newId, items, e.newId);
    ItemsOfAbsent(t.rows, e.newId);
  }

  /** Its entries are the nonzero lines in order, each on the account its code names. */
  lemma PostedEntries(t: Tables, e: Event)
    requires e.Post? && Enabled(t, e) && RowsOk(t)
    ensures EntriesOf(e.ctx.codes, e.spec.dims, Nonzero(e.spec.lines), ItemsOf(Apply(t, e).rows, e.newId))
  {
    AcceptedIff(e.ctx, e.spec);
    InsertedEntries(t, e);
  }

  function Reverser(u: User): string { if u.username != "" then u.username else if u.name != "" then u.name else "system" }

  /**
   * reverse() stores a posted journal that names its original, on the given date or today, and
   * marks the original; no other row changes.
   */
  lemma ReversedRow(t: Tables, e: Event)
    requires e.Reverse? && Enabled(t, e) && Structure(t)
    ensures var t' := Apply(t, e);
            && t'.journals == t.journals[e.newId := t'.journals[e.newId]][e.id := t.journals[e.id].(reversedBy := Some(e.newId))]
            && t'.journals[e.newId] == Journal(e.number, if e.date == 0 then e.ctx.today else e.date, "reversal", e.id,
                                               t.journals[e.id].totalCredit, t.journals[e.id].totalDebit, Posted,
                                               Reverser(e.user), "", Reverser(e.user), None, Some(e.id))
            && t'.audits == t.audits + [Audit("reverse_journal", e.id, Reverser(e.user))]
  {
    ReversalPlan(t, e.ctx, e.id, e.date, ReverserOf(e.user));
    MirroredSums(e.ctx.codes, ItemsOf(t.rows, e.id));
    assert HeaderOk(t, e.id);
  }

  /** The entries of a reversal are those of the original in order, debit and credit exchanged. */
  lemma ReversedEntries(t: Tables, e: Event)
    requires e.Reverse? && Enabled(t, e) && Structure(t)
    ensures var was, now := ItemsOf(t.rows, e.id), ItemsOf(Apply(t, e).rows, e.newId);
            && |now| == |was|
            && forall k | 0 <= k < |was| ::
                 && now[k].debit == was[k].credit && now[k].credit == was[k].debit && now[k].dims == was[k].dims
                 && now[k].code == was[k].code && was[k].code in e.ctx.codes && now[k].account == e.ctx.codes[was[k].code]
  {
    ReversalPlan(t, e.ctx, e.id, e.date, ReverserOf(e.user));
    InsertedEntries(t, e);
  }

  /** The entries of a journal are its rows, in table order. */
  lemma {:induction false} EntriesInOrder(r: Row, rows: seq<Row>, id: JournalId)
    ensures ItemsOf([], id) == [] && ItemsOf([r] + rows, id) == (if r.journal == id then [r.item] else []) + ItemsOf(rows, id)
  {
    if rows == [] {
      assert [r] + rows == [r] && [r][..0] == [];
    } else {
      var n := |rows| - 1;
      assert ([r] + rows)[..n + 1] == [r] + rows[..n];
      EntriesInOrder(r, rows[..n], id);
    }
  }

  // ----- Balances -----

  /** What a list of entries moves on an account: its debits less its credits. */
  function Movement(items: seq<Item>, a: AccountId): int {
    if items == [] then 0 else (if items[0].account == a then items[0].debit - items[0].credit else 0) + Movement(items[1..], a)
  }

  lemma {:induction false} MovementIsNet(items: seq<Item>, a: AccountId)
    ensures NetOn(items, a) == Movement(items, a)
  {
    if items != [] {
      MovementIsNet(items[1..], a);
      assert items == [items[0]] + items[1..];
      NetOnConcat([items[0]], items[1..], a);
      assert [items[0]][..0] == [];
    }
  }

  /** The entries an operation posts: those it inserts unless as a draft, or those of the draft it posts. */
  function Posts(t: Tables, e: Event): seq<Item>
    requires Enabled(t, e)
  {
    match e
    case Post(_, s, id, _, _) => if s.draft then [] else ItemsOf(Apply(t, e).rows, id)
    case PostApproved(_, id, _, _) => ItemsOf(t.rows, id)
    case ApprovePost(_, id, _, _) => ItemsOf(t.rows, id)
    case Reverse(_, _, _, _, newId, _, _) => ItemsOf(Apply(t, e).rows, newId)
    case _ => []
  }

  /** Every operation moves every account by exactly what it posts on it, but for an insertion's lost updates. */
  lemma BalancesMove(t: Tables, e: Event, a: AccountId)
    requires Enabled(t, e) && RowsOk(t)
    ensures Apply(t, e).accounts.Keys == t.accounts.Keys
    ensures a in t.accounts ==>
              Apply(t, e).accounts[a]
              == t.accounts[a] + (if (e.Post? || e.Reverse?) && a in e.lost then 0 else Movement(Posts(t, e), a))
  {
    MovementIsNet(Posts(t, e), a);
    if e.Post? || e.Reverse? { InsertedEntries(t, e); }
  }

  // ----- Who may do it, and what it changes -----

  /** The user created the journal and is neither admin nor developer. */
  predicate OwnWork(j: Journal, u: User) {
    && j.createdBy != "" && j.createdBy == (if u.username != "" then u.username else u.name)
    && u.role != "admin" && !u.developer
  }

  /** When approve, post, approvePost, deleteJournal and reverse go through. */
  ghost predicate Allowed(t: Tables, e: Event)
    requires !e.Post?
  {
    e.id in t.journals
    && match e
       case Approve(id, u) => t.journals[id].status == Draft && !OwnWork(t.journals[id], u)
       case PostApproved(ctx, id, u, force) =>
         && t.journals[id].status == Approved && !OwnWork(t.journals[id], u)
         && var d := t.journals[id].date; PeriodOpen(ctx.periods, d) || (d != 0 && ForcedByRight(ctx.periods, d, force, u))
       case ApprovePost(ctx, id, u, force) =>
         && "finance.gl.approve" in u.caps && "finance.gl.post" in u.caps
         && t.journals[id].status == Draft && !OwnWork(t.journals[id], u)
         && var d := t.journals[id].date; PeriodOpen(ctx.periods, d) || (d != 0 && ForcedByRight(ctx.periods, d, force, u))
       case Delete(id, _) => t.journals[id].status == Draft
       case Reverse(ctx, id, _, date, _, _, _) =>
         && t.journals[id].status == Posted && t.journals[id].reversedBy.None? && ItemsOf(t.rows, id) != []
         && Acceptable(ctx, SpecOf(t, e))
  }

  lemma AllowedIff(t: Tables, e: Event)
    requires !e.Post?
    ensures Denial(t, e).None? <==> Allowed(t, e)
  {
    match e
    case PostApproved(ctx, id, u, force) => if id in t.journals { GateIff(ctx.periods, t.journals[id].date, force, u); }
    case ApprovePost(ctx, id, u, force) => if id in t.journals { GateIff(ctx.periods, t.journals[id].date, force, u); }
    case Reverse(ctx, _, _, _, _, _, _) => AcceptedIff(ctx, SpecOf(t, e));
    case _ =>
  }

  /** What a denial code says. */
  ghost predicate NamesFact(t: Tables, e: Event, code: string)
    requires !e.Post?
  {
    if code == "PERMISSION_DENIED" then e.ApprovePost? && !("finance.gl.approve" in e.user.caps && "finance.gl.post" in e.user.caps)
    else if code == "not_found" then e.id !in t.journals
    else e.id in t.journals && NamesState(t, e, code)
  }

  /** What a denial code says about the journal. */
  ghost predicate NamesState(t: Tables, e: Event, code: string)
    requires !e.Post? && e.id in t.journals
  {
    var j := t.journals[e.id];
    match e
    case Approve(_, u) => if OwnWork(j, u) then code == "sod-self-approval-denied" else code == "not_draft" && j.status != Draft
    case PostApproved(ctx, _, u, force) =>
      if OwnWork(j, u) then code == "sod-self-post-denied"
      else if j.status == Posted then code == "already-posted"
      else if j.status == Draft then code == "not-approved"
      else BlockedAs(ctx.periods, j.date, force, u, code)
    case ApprovePost(ctx, _, u, force) =>
      if OwnWork(j, u) then code == "sod-self-approval-denied"
      else if j.status != Draft then code == "not_draft"
      else BlockedAs(ctx.periods, j.date, force, u, code)
    case Delete(_, _) =>
      if j.status == Approved then code == "approved_journal_requires_governed_action"
      else j.status == Posted && code == "posted_journal_immutable"
    case Reverse(ctx, _, _, _, _, _, _) =>
      if j.status != Posted then code == "only_posted_can_be_reversed"
      else if j.reversedBy.Some? then code == "already_reversed"
      else if ItemsOf(t.rows, e.id) == [] then code == "no_entries"
      else code == "reversal_post_failed" && !Acceptable(ctx, SpecOf(t, e))
  }

  /** The first period that contains the date blocks the posting in the way the code says. */
  ghost predicate BlockedAs(ps: seq<Period>, d: Date, force: bool, u: User, code: string) {
    exists i :: Governs(ps, d, i) &&
      if ps[i].status == SoftClose || ps[i].status == SoftClosed
      then if force then code == "period_force_requires_override_capability" && !ForcedByRight(ps, d, force, u)
           else code == "period_locked_soft"
      else code == "period_locked_hard" && (ps[i].status == Closed || ps[i].status == Locked)
  }

  lemma BlockedFor(ps: seq<Period>, d: Date, force: bool, u: User)
    requires PeriodDenial(ps, d, force, u).Some?
    ensures BlockedAs(ps, d, force, u, PeriodDenial(ps, d, force, u).value)
  {
    PeriodAtIff(ps, d);
    var i :| Governs(ps, d, i) && ps[i].status == PeriodAt(ps, d).value;
    GateIff(ps, d, force, u);
  }

  lemma PostingDenialIsTrue(t: Tables, e: Event)
    requires (e.PostApproved? || e.ApprovePost?) && Denial(t, e).Some?
    ensures NamesFact(t, e, Denial(t, e).value)
  {
    if e.id in t.journals {
      var d := t.journals[e.id].date;
      if PeriodDenial(e.ctx.periods, d, e.force, e.user).Some? { BlockedFor(e.ctx.periods, d, e.force, e.user); }
    }
  }

  /** Every denial names a fact. */
  lemma DenialIsTrue(t: Tables, e: Event)
    requires !e.Post? && Denial(t, e).Some?
    ensures NamesFact(t, e, Denial(t, e).value)
  {
    if e.PostApproved? || e.ApprovePost? { PostingDenialIsTrue(t, e); }
    else if e.Reverse? { AcceptedIff(e.ctx, SpecOf(t, e)); }
  }

  /** The row, the order and the audit row of a decision: nothing else changes but balances. */
  lemma DecisionEffect(t: Tables, e: Event)
    requires (e.Approve? || e.PostApproved? || e.ApprovePost?) && Enabled(t, e)
    ensures var actor := if e.user.username != "" then e.user.username else e.user.name;
            var j, t' := t.journals[e.id], Apply(t, e);
            && t'.order == t.order && t'.rows == t.rows
            && t'.journals == t.journals[e.id :=
                 if e.Approve? then j.(status := Approved, approvedBy := actor)
                 else if e.PostApproved? then j.(status := Posted, postedBy := actor)
                 else j.(status := Posted, approvedBy := actor, postedBy := actor)]
            && t'.audits == t.audits + [Audit(if e.Approve? then "approve_journal" else if e.PostApproved? then "post_journal"
                                              else "approve_post_journal", e.id, actor)]
  {}

  /** A deletion takes the row and its entries, and nothing else. */
  lemma DeletionEffect(t: Tables, e: Event, r: Row)
    requires e.Delete? && Enabled(t, e)
    ensures var t' := Apply(t, e);
            && e.id !in t'.journals && t'.journals == t.journals - {e.id} && t'.accounts == t.accounts
            && (r in t'.rows <==> r in t.rows && r.journal != e.id)
            && t'.audits == t.audits + [Audit("delete_journal", e.id, if e.user.username != "" then e.user.username else e.user.name)]
  { InWithout(t.rows, e.id, r); }
}
