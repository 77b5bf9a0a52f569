/**
 * The general ledger as its three tables (gl_accounts, gl_journals, gl_entries) and the six
 * operations that change them, as functions on whole table contents.
 * Money is counted in halalas: every amount passes round2 before it is stored.
 * LedgerStore issues the same operations statement by statement and is proved to end here.
 */
module LedgerTables {
  import opened Text

  type AccountId = string
  type JournalId = string
  type Date = nat  // yyyymmdd; 0 stands for a missing date

  datatype Status = Draft | Approved | Posted

  /** Dimension columns of an entry; "" is NULL (the code stores no empty string). */
  datatype Dims = Dims(brand: string, branch: string, project: string, costCenter: string,
                       warehouse: string, partyType: string, partyId: string)

  datatype HeaderDims = HeaderDims(brand: string, branch: string, project: string, costCenter: string)

  datatype Line = Line(code: string, debit: int, credit: int, dims: Dims)

  datatype Spec = Spec(date: Date, refType: string, refId: string, lines: seq<Line>,
                       dims: HeaderDims, draft: bool, author: string)

  /** One accepted line: its account is resolved and its dimensions are final. */
  datatype Item = Item(account: AccountId, code: string, debit: int, credit: int, dims: Dims)

  datatype Row = Row(journal: JournalId, item: Item)

  datatype Journal = Journal(number: string, date: Date, refType: string, refId: string,
                             totalDebit: int, totalCredit: int, status: Status,
                             createdBy: string, approvedBy: string, postedBy: string,
                             reversedBy: Option<JournalId>, reverses: Option<JournalId>)

  datatype Audit = Audit(action: string, journal: JournalId, actor: string)

  /** `order` is the insertion order of gl_journals. */
  datatype Tables = Tables(accounts: map<AccountId, int>, journals: map<JournalId, Journal>,
                           order: seq<JournalId>, rows: seq<Row>, audits: seq<Audit>)

  // ----- What an operation reads but never changes -----

  datatype PeriodStatus = Open | SoftClose | SoftClosed | Closed | Locked

  datatype Period = Period(start: Date, end: Date, status: PeriodStatus)

  datatype User = User(username: string, name: string, role: string, developer: bool, caps: set<string>)

  /**
   * `codes` maps account codes and aliases to active accounts. `oneHalalaPasses` is the
   * outcome of comparing a one-halala difference with the binary double 0.01.
   */
  datatype Ctx = Ctx(codes: map<string, AccountId>, periods: seq<Period>, today: Date, oneHalalaPasses: bool)

  function PeriodAt(ps: seq<Period>, d: Date): Option<PeriodStatus> {
    if ps == [] then None
    else if ps[0].start <= d <= ps[0].end then Some(ps[0].status)
    else PeriodAt(ps[1..], d)
  }

  predicate SoftlyClosed(s: PeriodStatus) { s == SoftClose || s == SoftClosed }

  predicate IsPeriodClosed(ps: seq<Period>, d: Date) {
    d != 0 && PeriodAt(ps, d).Some? && PeriodAt(ps, d).value != Open
  }

  function ActorOf(u: User): string { if u.username != "" then u.username else u.name }

  predicate Privileged(u: User) { u.role == "admin" || u.developer }

  predicate MayForce(u: User) { Privileged(u) || "finance.periods.override_lock" in u.caps }

  /** checkPeriodOpen: None when the journal may be posted, else the refusal code. */
  function PeriodDenial(ps: seq<Period>, d: Date, force: bool, u: User): Option<string> {
    if d == 0 then None
    else match PeriodAt(ps, d)
      case None => None
      case Some(Open) => None
      case Some(s) =>
        if SoftlyClosed(s) && force then
          if MayForce(u) then None else Some("period_force_requires_override_capability")
        else Some(if SoftlyClosed(s) then "period_locked_soft" else "period_locked_hard")
  }

  predicate SelfMade(j: Journal, u: User) { j.createdBy != "" && j.createdBy == ActorOf(u) && !Privileged(u) }

  // ----- Posting: from a specification to accepted items -----

  datatype Refusal = NoLines | PeriodClosed | NegativeLine | TwoSidedLine
                   | UnknownAccount(code: string) | AllZero | Unbalanced(debit: int, credit: int)

  datatype Checked<+T> = Ok(value: T) | Refused(why: Refusal)

  function Inherit(own: string, header: string): string { if own != "" then own else header }

  function RowDims(d: Dims, h: HeaderDims): Dims {
    d.(brand := Inherit(d.brand, h.brand), branch := Inherit(d.branch, h.branch),
       project := Inherit(d.project, h.project), costCenter := Inherit(d.costCenter, h.costCenter))
  }

  /** One line of the validation loop: no item for a zero line. */
  function Accept(codes: map<string, AccountId>, h: HeaderDims, l: Line): Checked<seq<Item>> {
    if l.debit < 0 || l.credit < 0 then Refused(NegativeLine)
    else if l.debit == 0 && l.credit == 0 then Ok([])
    else if l.debit > 0 && l.credit > 0 then Refused(TwoSidedLine)
    else if l.code == "" || l.code !in codes then Refused(UnknownAccount(l.code))
    else Ok([Item(codes[l.code], l.code, l.debit, l.credit, RowDims(l.dims, h))])
  }

  /** All lines in order; the first bad line decides the refusal. */
  function Enrich(codes: map<string, AccountId>, h: HeaderDims, lines: seq<Line>): Checked<seq<Item>> {
    if lines == [] then Ok([])
    else match Enrich(codes, h, lines[..|lines| - 1])
      case Refused(w) => Refused(w)
      case Ok(items) =>
        match Accept(codes, h, lines[|lines| - 1])
        case Refused(w) => Refused(w)
        case Ok(more) => Ok(items + more)
  }

  function SumDebit(items: seq<Item>): int
  { if items == [] then 0 else SumDebit(items[..|items| - 1]) + items[|items| - 1].debit }

  function SumCredit(items: seq<Item>): int
  { if items == [] then 0 else SumCredit(items[..|items| - 1]) + items[|items| - 1].credit }

  /** Math.abs(td - tc) > 0.01 refuses two halalas or more; one halala is up to the doubles. */
  predicate Balanced(ctx: Ctx, td: int, tc: int) {
    td == tc || (ctx.oneHalalaPasses && -1 <= td - tc <= 1)
  }

  function DateOf(ctx: Ctx, s: Spec): Date { if s.date != 0 then s.date else ctx.today }

  function Plan(ctx: Ctx, s: Spec): Checked<seq<Item>> {
    if s.lines == [] then Refused(NoLines)
    else if IsPeriodClosed(ctx.periods, DateOf(ctx, s)) then Refused(PeriodClosed)
    else match Enrich(ctx.codes, s.dims, s.lines)
      case Refused(w) => Refused(w)
      case Ok(items) =>
        if items == [] then Refused(AllZero)
        else if !Balanced(ctx, SumDebit(items), SumCredit(items))
        then Refused(Unbalanced(SumDebit(items), SumCredit(items)))
        else Ok(items)
  }

  // ----- Effects on the tables -----

  function NetOn(items: seq<Item>, a: AccountId): int {
    if items == [] then 0
    else
      var i := items[|items| - 1];
      NetOn(items[..|items| - 1], a) + (if i.account == a then i.debit - i.credit else 0)
  }

  /** Every account moves by the net of its items, except the accounts whose update was lost. */
  function AddNets(accounts: map<AccountId, int>, items: seq<Item>, lost: set<AccountId>): map<AccountId, int> {
    map a | a in accounts :: accounts[a] + (if a in lost then 0 else NetOn(items, a))
  }

  function RowsFor(id: JournalId, items: seq<Item>): (r: seq<Row>)
    ensures |r| == |items|
  { seq(|items|, i requires 0 <= i < |items| => Row(id, items[i])) }

  function ItemsOf(rows: seq<Row>, id: JournalId): seq<Item> {
    if rows == [] then []
    else
      var r := rows[|rows| - 1];
      ItemsOf(rows[..|rows| - 1], id) + (if r.journal == id then [r.item] else [])
  }

  function Without(rows: seq<Row>, id: JournalId): seq<Row> {
    if rows == [] then []
    else
      var r := rows[|rows| - 1];
      Without(rows[..|rows| - 1], id) + (if r.journal == id then [] else [r])
  }

  function Drop(order: seq<JournalId>, id: JournalId): seq<JournalId> {
    if order == [] then []
    else
      var k := order[|order| - 1];
      Drop(order[..|order| - 1], id) + (if k == id then [] else [k])
  }

  function NewJournal(ctx: Ctx, s: Spec, number: string, items: seq<Item>): Journal {
    Journal(number, DateOf(ctx, s), if s.refType != "" then s.refType else "manual", s.refId,
            SumDebit(items), SumCredit(items), if s.draft then Draft else Posted,
            s.author, "", s.author, None, None)
  }

  function Inserted(t: Tables, ctx: Ctx, s: Spec, id: JournalId, number: string, items: seq<Item>,
                    lost: set<AccountId>): Tables
  {
    t.(journals := t.journals[id := NewJournal(ctx, s, number, items)],
       order := t.order + [id],
       rows := t.rows + RowsFor(id, items),
       accounts := if s.draft then t.accounts else AddNets(t.accounts, items, lost))
  }

  function MirrorLine(i: Item): Line { Line(i.code, i.credit, i.debit, i.dims) }

  function MirrorLines(items: seq<Item>): (ls: seq<Line>)
    ensures |ls| == |items|
  { seq(|items|, k requires 0 <= k < |items| => MirrorLine(items[k])) }

  const NO_HEADER := HeaderDims("", "", "", "")

  /** The specification reverse() hands to postJournal. */
  function ReversalSpec(id: JournalId, items: seq<Item>, date: Date, actor: string): Spec {
    Spec(date, "reversal", id, MirrorLines(items), NO_HEADER, false, actor)
  }

  function ReverserOf(u: User): string { if ActorOf(u) != "" then ActorOf(u) else "system" }

  // ----- The operations as events -----

  datatype Event =
    | Post(ctx: Ctx, spec: Spec, newId: JournalId, number: string, lost: set<AccountId>)
    | Approve(id: JournalId, user: User)
    | PostApproved(ctx: Ctx, id: JournalId, user: User, force: bool)
    | ApprovePost(ctx: Ctx, id: JournalId, user: User, force: bool)
    | Delete(id: JournalId, user: User)
    | Reverse(ctx: Ctx, id: JournalId, user: User, date: Date, newId: JournalId, number: string, lost: set<AccountId>)

  predicate NumberFree(t: Tables, number: string) {
    forall k | k in t.journals :: t.journals[k].number != number
  }

  predicate CodesKnown(t: Tables, ctx: Ctx) { forall c | c in ctx.codes :: ctx.codes[c] in t.accounts }

  /** A header insert succeeds: the id and the number are unused and the codes name real accounts. */
  predicate Insertable(t: Tables, ctx: Ctx, id: JournalId, number: string) {
    id !in t.journals && NumberFree(t, number) && CodesKnown(t, ctx)
  }

  /** None when the operation goes through, else the code it answers with. */
  function Denial(t: Tables, e: Event): Option<string> {
    match e
    case Post(ctx, spec, _, _, _) => if Plan(ctx, spec).Ok? then None else Some("refused")
    case Approve(id, u) =>
      if id !in t.journals then Some("not_found")
      else if SelfMade(t.journals[id], u) then Some("sod-self-approval-denied")
      else if t.journals[id].status != Draft then Some("not_draft")
      else None
    case PostApproved(ctx, id, u, force) =>
      if id !in t.journals then Some("not_found")
      else if SelfMade(t.journals[id], u) then Some("sod-self-post-denied")
      else if t.journals[id].status == Posted then Some("already-posted")
      else if t.journals[id].status != Approved then Some("not-approved")
      else PeriodDenial(ctx.periods, t.journals[id].date, force, u)
    case ApprovePost(ctx, id, u, force) =>
      if "finance.gl.approve" !in u.caps || "finance.gl.post" !in u.caps then Some("PERMISSION_DENIED")
      else if id !in t.journals then Some("not_found")
      else if SelfMade(t.journals[id], u) then Some("sod-self-approval-denied")
      else if t.journals[id].status != Draft then Some("not_draft")
      else PeriodDenial(ctx.periods, t.journals[id].date, force, u)
    case Delete(id, _) =>
      if id !in t.journals then Some("not_found")
      else if t.journals[id].status == Draft then None
      else if t.journals[id].status == Approved then Some("approved_journal_requires_governed_action")
      else Some("posted_journal_immutable")
    case Reverse(ctx, id, u, date, _, _, _) =>
      if id !in t.journals then Some("not_found")
      else if t.journals[id].status != Posted then Some("only_posted_can_be_reversed")
      else if t.journals[id].reversedBy.Some? then Some("already_reversed")
      else if ItemsOf(t.rows, id) == [] then Some("no_entries")
      else if Plan(ctx, ReversalSpec(id, ItemsOf(t.rows, id), date, ReverserOf(u))).Refused?
      then Some("reversal_post_failed")
      else None
  }

  /** The operation can happen in this state and does not answer with a refusal. */
  predicate Enabled(t: Tables, e: Event) {
    && Denial(t, e).None?
    && (e.Post? || e.Reverse? ==> Insertable(t, e.ctx, e.newId, e.number))
  }

  function Stamped(t: Tables, action: string, id: JournalId, actor: string): Tables {
    t.(audits := t.audits + [Audit(action, id, actor)])
  }

  function WithStatus(t: Tables, id: JournalId, s: Status, approver: string, poster: string): Tables
    requires id in t.journals
  {
    t.(journals := t.journals[id := t.journals[id].(status := s, approvedBy := approver, postedBy := poster)])
  }

  function Apply(t: Tables, e: Event): Tables
    requires Enabled(t, e)
  {
    match e
    case Post(ctx, spec, id, number, lost) =>
      Inserted(t, ctx, spec, id, number, Plan(ctx, spec).value, lost)
    case Approve(id, u) =>
      Stamped(WithStatus(t, id, Approved, ActorOf(u), t.journals[id].postedBy), "approve_journal", id, ActorOf(u))
    case PostApproved(_, id, u, _) =>
      Stamped(WithStatus(t, id, Posted, t.journals[id].approvedBy, ActorOf(u))
                .(accounts := AddNets(t.accounts, ItemsOf(t.rows, id), {})),
              "post_journal", id, ActorOf(u))
    case ApprovePost(_, id, u, _) =>
      Stamped(WithStatus(t, id, Posted, ActorOf(u), ActorOf(u))
                .(accounts := AddNets(t.accounts, ItemsOf(t.rows, id), {})),
              "approve_post_journal", id, ActorOf(u))
    case Delete(id, u) =>
      Stamped(Deleted(t, id), "delete_journal", id, ActorOf(u))
    case Reverse(ctx, id, u, date, newId, number, lost) =>
      var spec := ReversalSpec(id, ItemsOf(t.rows, id), date, ReverserOf(u));
      var posted := Inserted(t, ctx, spec, newId, number, Plan(ctx, spec).value, lost);
      Stamped(Linked(posted, id, newId), "reverse_journal", id, ReverserOf(u))
  }

  function Deleted(t: Tables, id: JournalId): Tables {
    t.(journals := t.journals - {id}, order := Drop(t.order, id), rows := Without(t.rows, id))
  }

  /** The two link-back updates of reverse(). */
  function Linked(t: Tables, id: JournalId, newId: JournalId): Tables
    requires id in t.journals && newId in t.journals
  {
    var first := t.journals[id := t.journals[id].(reversedBy := Some(newId))];
    t.(journals := first[newId := first[newId].(reverses := Some(id))])
  }

  // ----- Runs -----

  ghost predicate IsRun(t: Tables, es: seq<Event>)
    decreases |es|
  {
    es == [] || (Enabled(t, es[0]) && IsRun(Apply(t, es[0]), es[1..]))
  }

  ghost function After(t: Tables, es: seq<Event>): Tables
    requires IsRun(t, es)
    decreases |es|
  { if es == [] then t else After(Apply(t, es[0]), es[1..]) }

  /** No balance update failed with an error other than a deadlock or a lock wait. */
  predicate NothingLost(es: seq<Event>) {
    forall i | 0 <= i < |es| :: (es[i].Post? || es[i].Reverse? ==> es[i].lost == {})
  }
}
