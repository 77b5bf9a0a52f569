/**
 * The ledger operations as they run: one SQL statement after another on a connection, with an
 * adversary that may fail any statement, inside bounded retry loops.
 * (lib/glPosting.js:308-337, 411-662; lib/glTransitions.js:140-391; db/connection.js:120-150)
 */
module LedgerStore {
  import opened Text
  import opened JournalNumbers
  import opened LedgerTables
  import opened LedgerSums
  import opened LedgerInvariant

  /** What the adversary does to a statement. */
  datatype Fault = NoFault | DeadlockFault | TimeoutFault | OtherFault

  datatype Error = DeadlockError | TimeoutError | DuplicateError | SqlError | Raised(code: string)

  datatype Outcome = Done | Failed(error: Error)

  /** _isDeadlock and _isTxnRetryable: a deadlock (1213) or a lock wait timeout (1205). */
  predicate Retryable(e: Error) { e == DeadlockError || e == TimeoutError }

  datatype Stmt =
    | Select
    | SelectForUpdate(id: JournalId)
    | InsertHeader(id: JournalId, journal: Journal)
    | AddBalance(account: AccountId, delta: int)
    | InsertEntry(row: Row)
    | SetApproved(id: JournalId, actor: string)
    | SetPosted(id: JournalId, actor: string)
    | SetReversedBy(id: JournalId, newId: JournalId)
    | SetReverses(id: JournalId, original: JournalId)
    | DeleteEntries(id: JournalId)
    | DeleteHeader(id: JournalId)
    | InsertAudit(audit: Audit)

  /** Primary key and uq_journal_number. */
  predicate Duplicates(t: Tables, s: Stmt) {
    s.InsertHeader? && Used(t, s.id, s.journal.number)
  }

  predicate Used(t: Tables, id: JournalId, number: string) { id in t.journals || !NumberFree(t, number) }

  function Updated(t: Tables, id: JournalId, f: Journal -> Journal): Tables {
    if id in t.journals then t.(journals := t.journals[id := f(t.journals[id])]) else t
  }

  function Effect(t: Tables, s: Stmt): Tables {
    match s
    case Select => t
    case SelectForUpdate(_) => t
    case InsertHeader(id, j) => t.(journals := t.journals[id := j], order := t.order + [id])
    case AddBalance(a, d) => t.(accounts := AddOne(t.accounts, a, d))
    case InsertEntry(r) => t.(rows := t.rows + [r])
    case SetApproved(id, u) => Updated(t, id, (j: Journal) => j.(status := Approved, approvedBy := u))
    case SetPosted(id, u) => Updated(t, id, (j: Journal) => j.(status := Posted, postedBy := u))
    case SetReversedBy(id, n) => Updated(t, id, (j: Journal) => j.(reversedBy := Some(n)))
    case SetReverses(id, o) => Updated(t, id, (j: Journal) => j.(reverses := Some(o)))
    case DeleteEntries(id) => t.(rows := Without(t.rows, id))
    case DeleteHeader(id) => t.(journals := t.journals - {id}, order := Drop(t.order, id))
    case InsertAudit(a) => t.(audits := t.audits + [a])
  }

  function EffectAll(t: Tables, ss: seq<Stmt>): Tables {
    if ss == [] then t else Effect(EffectAll(t, ss[..|ss| - 1]), ss[|ss| - 1])
  }

  lemma TwoEffects(t: Tables, a: Stmt, b: Stmt)
    ensures EffectAll(t, [a, b]) == Effect(Effect(t, a), b)
  {
    assert [a, b][..1] == [a] && [a][..0] == [];
    assert EffectAll(t, [a]) == Effect(t, a);
  }

  lemma ThreeEffects(t: Tables, a: Stmt, b: Stmt, c: Stmt)
    ensures EffectAll(t, [a, b, c]) == Effect(Effect(Effect(t, a), b), c)
  {
    assert [a, b, c][..2] == [a, b];
    TwoEffects(t, a, b);
  }

  function OutcomeOf(t: Tables, s: Stmt, f: Fault): Outcome {
    match f
    case DeadlockFault => Failed(DeadlockError)
    case TimeoutFault => Failed(TimeoutError)
    case OtherFault => Failed(SqlError)
    case NoFault => if Duplicates(t, s) then Failed(DuplicateError) else Done
  }

  function ErrorOf(f: Fault): Error
    requires f != NoFault
  { match f case DeadlockFault => DeadlockError case TimeoutFault => TimeoutError case OtherFault => SqlError }

  /** Row locks a statement takes exclusively, in the order it takes them. */
  datatype Lock = JournalRow(id: JournalId) | AccountRow(account: AccountId)

  function LocksOf(s: Stmt): seq<Lock> {
    match s
    case SelectForUpdate(id) => [JournalRow(id)]
    case AddBalance(a, _) => [AccountRow(a)]
    case _ => []
  }

  function AccountLocks(ks: seq<AccountId>): seq<Lock> { seq(|ks|, i requires 0 <= i < |ks| => AccountRow(ks[i])) }

  /** How many statements this connection and the sequence pool had issued, and the counters at that point. */
  datatype Mark = Mark(own: nat, pool: nat, serials: map<string, nat>)

  /** The locks of an accepted posting: its accounts in ascending order, none for a draft. */
  function PostingLocks(ctx: Ctx, spec: Spec): seq<Lock> {
    if spec.draft || Plan(ctx, spec).Refused? then [] else AccountLocks(SortSet(Accounts(Plan(ctx, spec).value)))
  }

  datatype Allocation = Allocated(serial: nat) | NotAllocated(error: Error)

  datatype PostResult = Success(id: JournalId, number: string) | Rejected(why: Refusal) | Threw(error: Error)

  datatype Enriched = Accepted(items: seq<Item>) | Stopped(why: Refusal) | Broken(error: Error)

  datatype Out = Ok(audit: string) | Denied(code: string) | Crashed(error: Error)

  function FailureOf(r: Outcome): Option<Error> { if r.Failed? then Some(r.error) else None }

  function CrashOf(r: Out): Option<Error> { if r.Crashed? then Some(r.error) else None }

  datatype Op =
    | OpApprove(id: JournalId, user: User)
    | OpPost(id: JournalId, user: User, force: bool)
    | OpApprovePost(id: JournalId, user: User, force: bool)
    | OpDelete(id: JournalId, user: User)
    | OpReverse(id: JournalId, user: User, date: Date)

  function EventOf(op: Op, ctx: Ctx, newId: JournalId, number: string, lost: set<AccountId>): Event {
    match op
    case OpApprove(id, u) => Approve(id, u)
    case OpPost(id, u, force) => PostApproved(ctx, id, u, force)
    case OpApprovePost(id, u, force) => ApprovePost(ctx, id, u, force)
    case OpDelete(id, u) => Delete(id, u)
    case OpReverse(id, u, date) => Reverse(ctx, id, u, date, newId, number, lost)
  }

  /** The day of a journal as its number shows it. */
  function Ymd(ctx: Ctx, spec: Spec): string { Pad(DateOf(ctx, spec), 8) }

  function Accounts(items: seq<Item>): set<AccountId> { set i | i in items :: i.account }

  /** Counters only ever move on: a failed posting leaves gaps, no serial is taken back. */
  predicate OnlyGaps(before: map<string, nat>, after: map<string, nat>) {
    forall k | k in before :: k in after && before[k] <= after[k]
  }

  /** The counter of one day stays, or moves on to `next` or beyond. */
  predicate Advanced(before: map<string, nat>, after: map<string, nat>, ymd: string, next: nat) {
    after == before || (ymd in after && after[ymd] >= next && after == before[ymd := after[ymd]])
  }

  /** The counter of the day has moved on to the serial of this number. */
  predicate NumberedBy(before: map<string, nat>, after: map<string, nat>, ymd: string, next: nat, number: string) {
    ymd in after && after[ymd] >= next && after == before[ymd := after[ymd]] && number == Dated(ymd, after[ymd])
  }

  /** A stored journal whose number is a dated one of the day in its date column. */
  ghost predicate Numbered(t: Tables, id: JournalId, number: string) {
    && id in t.journals && t.journals[id].number == number
    && exists n: nat :: number == "JV-" + Pad(t.journals[id].date, 8) + "-" + Pad(n, 4)
  }

  lemma OwnDay(t: Tables, e: Event, n: nat)
    requires (e.Post? || e.Reverse?) && Enabled(t, e) && e.number == Dated(Ymd(e.ctx, SpecOf(t, e)), n)
    ensures Numbered(Apply(t, e), e.newId, e.number)
  {}

  function NumberSet(t: Tables): set<string> { set k | k in t.journals :: t.journals[k].number }

  function NumbersOf(order: seq<JournalId>, js: map<JournalId, Journal>): seq<string> {
    if order == [] then []
    else (if order[0] in js then [js[order[0]].number] else []) + NumbersOf(order[1..], js)
  }

  // ----- ORDER BY account_id -----

  function InsertByAccount(i: Item, s: seq<Item>): (r: seq<Item>)
    ensures |r| == |s| + 1
  {
    if s == [] || Le(i.account, s[0].account) then [i] + s else [s[0]] + InsertByAccount(i, s[1..])
  }

  function SortByAccount(items: seq<Item>): (r: seq<Item>)
    ensures |r| == |items|
  { if items == [] then [] else InsertByAccount(items[0], SortByAccount(items[1..])) }

  predicate Ascending(s: seq<Item>) { forall i, j | 0 <= i < j < |s| :: Le(s[i].account, s[j].account) }

  lemma NetOnFront(i: Item, s: seq<Item>, a: AccountId)
    ensures NetOn([i] + s, a) == (if i.account == a then i.debit - i.credit else 0) + NetOn(s, a)
  {
    NetOnConcat([i], s, a);
    assert [i][..0] == [];
  }

  lemma {:induction false} InsertByAccountNet(i: Item, s: seq<Item>, a: AccountId)
    ensures NetOn(InsertByAccount(i, s), a) == (if i.account == a then i.debit - i.credit else 0) + NetOn(s, a)
  {
    if s == [] || Le(i.account, s[0].account) {
      NetOnFront(i, s, a);
    } else {
      InsertByAccountNet(i, s[1..], a);
      NetOnFront(s[0], InsertByAccount(i, s[1..]), a);
      NetOnFront(s[0], s[1..], a);
      assert s == [s[0]] + s[1..];
    }
  }

  lemma {:induction false} InsertByAccountAscending(i: Item, s: seq<Item>)
    requires Ascending(s)
    ensures Ascending(InsertByAccount(i, s))
    ensures forall x | x in InsertByAccount(i, s) :: x == i || x in s
  {
    if s == [] || Le(i.account, s[0].account) {
      forall k | 0 <= k < |s| ensures Le(i.account, s[k].account) {
        if k > 0 { LeTransitive(i.account, s[0].account, s[k].account); }
      }
    } else {
      var r := InsertByAccount(i, s[1..]);
      InsertByAccountAscending(i, s[1..]);
      LeTotal(i.account, s[0].account);
      forall x | x in r ensures Le(s[0].account, x.account) {
        if x != i { var m :| 1 <= m < |s| && s[m] == x; }
      }
    }
  }

  /** Sorting moves no money: every account keeps its net. */
  lemma {:induction false} SortByAccountFacts(items: seq<Item>, a: AccountId)
    ensures Ascending(SortByAccount(items)) && NetOn(SortByAccount(items), a) == NetOn(items, a)
  {
    if items != [] {
      SortByAccountFacts(items[1..], a);
      InsertByAccountNet(items[0], SortByAccount(items[1..]), a);
      InsertByAccountAscending(items[0], SortByAccount(items[1..]));
      NetOnFront(items[0], items[1..], a);
      assert items == [items[0]] + items[1..];
    }
  }

  lemma SortedNets(accounts: map<AccountId, int>, items: seq<Item>)
    ensures AddNets(accounts, SortByAccount(items), {}) == AddNets(accounts, items, {})
  {
    forall a | a in accounts ensures NetOn(SortByAccount(items), a) == NetOn(items, a) { SortByAccountFacts(items, a); }
  }

  lemma {:induction false} NetOffAccounts(items: seq<Item>, a: AccountId)
    requires a !in Accounts(items)
    ensures NetOn(items, a) == 0
  {
    if items != [] {
      var init := items[..|items| - 1];
      assert items[|items| - 1] in items;
      forall i | i in init ensures i in items {}
      NetOffAccounts(init, a);
    }
  }

  class Connection {
    var committed: Tables           // what every other session sees
    var working: Tables             // what this session sees
    var inTx: bool
    var issued: nat                 // statements issued so far
    const faults: nat -> Fault      // the adversary, statement by statement
    var serials: map<string, nat>   // gl_journal_seq, committed by its own pool
    var seqIssued: nat
    const seqFaults: nat -> Fault
    ghost var locks: seq<Lock>      // exclusive row locks of the open transaction

    constructor (t: Tables, serials: map<string, nat>, faults: nat -> Fault, seqFaults: nat -> Fault)
      ensures committed == t && Idle() && this.serials == serials
      ensures this.faults == faults && this.seqFaults == seqFaults && issued == seqIssued == 0
    {
      committed, working, inTx, issued, seqIssued := t, t, false, 0, 0;
      this.serials, this.faults, this.seqFaults, locks := serials, faults, seqFaults, [];
    }

    /** Outside a transaction every statement commits at once. */
    predicate Idle() reads this { !inTx && working == committed }

    /** A transaction is open, or nothing is pending. After a deadlock nothing is. */
    predicate Settled() reads this { inTx || Idle() }

    method Execute(s: Stmt) returns (r: Outcome)
      requires Settled()
      modifies this`committed, this`working, this`inTx, this`issued, this`locks
      ensures issued == old(issued) + 1
      ensures r == OutcomeOf(old(working), s, faults(old(issued)))
      ensures old(inTx) ==> committed == old(committed)
      ensures r == Done ==> working == Effect(old(working), s) && inTx == old(inTx) && (!inTx ==> Idle())
      ensures r == Failed(DeadlockError) ==> Idle() && committed == old(committed)
      ensures r.Failed? && r.error != DeadlockError ==>
                working == old(working) && inTx == old(inTx) && committed == old(committed)
      ensures locks == old(locks) + LocksOf(s)
    {
      r := OutcomeOf(working, s, faults(issued));
      issued := issued + 1;
      locks := locks + LocksOf(s);
      if r == Done {
        working := Effect(working, s);
        if !inTx { committed := working; }
      } else if r == Failed(DeadlockError) {
        working, inTx := committed, false;
      }
    }

    method Begin()
      modifies this`working, this`inTx, this`locks
      ensures inTx && working == committed && locks == []
    { working, inTx, locks := committed, true, []; }

    method Commit() returns (r: Outcome)
      requires Settled()
      modifies this`committed, this`working, this`inTx, this`issued
      ensures r == Done ==> Idle() && committed == old(working)
      ensures issued == old(issued) + 1 && (r == Done <==> faults(old(issued)) == NoFault)
      ensures r.Failed? ==> committed == old(committed) && Settled() && Broke(old(issued), issued, r.error)
    {
      var f := OutcomeOf(working, Select, faults(issued));
      issued := issued + 1;
      if f == Done {
        committed, inTx := working, false;
        r := Done;
      } else {
        if f == Failed(DeadlockError) { working, inTx := committed, false; }
        r := f;
      }
    }

    method Rollback()
      modifies this`working, this`inTx
      ensures Idle()
    { working, inTx := committed, false; }

    // ----- What the adversary did in a window of statements -----

    ghost predicate Clean(first: nat, end: int) { forall n | first <= n < end :: faults(n) == NoFault }

    /** No statement in the window failed with a deadlock or a lock wait. */
    ghost predicate Survived(first: nat, end: int) { forall n | first <= n < end :: faults(n) == NoFault || faults(n) == OtherFault }

    /** The last statement of the window is the one that failed, with this error. */
    ghost predicate Broke(first: nat, end: nat, e: Error) {
      first < end && faults(end - 1) != NoFault && e == ErrorOf(faults(end - 1))
    }

    /** A window without a failed statement, or one whose last statement is the only one that failed. */
    ghost predicate Traced(first: nat, end: nat, failure: Option<Error>) {
      match failure
      case None => first <= end && Clean(first, end)
      case Some(e) => Broke(first, end, e) && Clean(first, end - 1)
    }

    /** On the sequence pool the last statement of the window failed, with this error. */
    ghost predicate SeqBroke(first: nat, end: nat, e: Error) {
      first < end && seqFaults(end - 1) != NoFault && e == ErrorOf(seqFaults(end - 1))
    }

    /** A failed statement explains the error: on this connection or on the sequence pool. */
    ghost predicate Struck(from: Mark, to: Mark, e: Error) {
      Broke(from.own, to.own, e) || SeqBroke(from.pool, to.pool, e)
    }

    ghost function Now(): Mark
      reads this`issued, this`seqIssued, this`serials
    { Mark(issued, seqIssued, serials) }

    // ----- gl_journal_seq -----

    method SeqStatement() returns (r: Outcome)
      modifies this`seqIssued
      ensures seqIssued == old(seqIssued) + 1 && r == OutcomeOf(working, Select, seqFaults(old(seqIssued)))
    {
      r := OutcomeOf(working, Select, seqFaults(seqIssued));
      seqIssued := seqIssued + 1;
    }

    /** The statements of the sequence pool in a window all went through, but for the last when it failed. */
    ghost predicate SeqRan(first: nat, end: nat, failed: bool) {
      && (forall n | first <= n < end - (if failed then 1 else 0) :: seqFaults(n) == NoFault)
      && (failed ==> first < end && seqFaults(end - 1) != NoFault)
    }

    /** The counter row of the day, seeded from the stored numbers when it is absent. */
    method SeedRow(ymd: string) returns (o: Outcome, table: map<string, nat>)
      modifies this`seqIssued
      ensures SeqRan(old(seqIssued), seqIssued, o.Failed?) && old(seqIssued) < seqIssued <= old(seqIssued) + 3
      ensures o.Failed? ==> OutcomeOf(working, Select, seqFaults(seqIssued - 1)) == o
      ensures o == Done ==>
                && ymd in table && table[ymd] + 1 == NextAfter(serials, ymd)
                && table == if ymd in serials then serials else serials[ymd := table[ymd]]
    {
      table := serials;
      o := SeqStatement();                                       // SELECT 1
      if o.Failed? || ymd in table { return; }
      o := SeqStatement();                                       // SELECT MAX
      if o.Failed? { return; }
      var m := DatedSeed(ymd, NumbersOf(committed.order, committed.journals));
      o := SeqStatement();                                       // INSERT IGNORE
      if o.Failed? { return; }
      table := table[ymd := m];
    }

    /** One attempt of _nextJournalSerial, in its own transaction on the sequence pool. */
    method TrySerial(ymd: string) returns (r: Allocation)
      modifies this`serials, this`seqIssued
      ensures SeqRan(old(seqIssued), seqIssued, r.NotAllocated?) && old(seqIssued) < seqIssued <= old(seqIssued) + 6
      ensures r.NotAllocated? ==> OutcomeOf(working, Select, seqFaults(seqIssued - 1)) == Failed(r.error)
      ensures r.Allocated? ==> serials == old(serials)[ymd := r.serial] && r.serial == NextAfter(old(serials), ymd)
      ensures r.NotAllocated? ==> serials == old(serials)
    {
      var o, table := SeedRow(ymd);
      if o.Failed? { return NotAllocated(o.error); }
      o := SeqStatement();                                       // UPDATE
      if o.Failed? { return NotAllocated(o.error); }
      table := table[ymd := table[ymd] + 1];
      o := SeqStatement();                                       // SELECT LAST_INSERT_ID()
      if o.Failed? { return NotAllocated(o.error); }
      o := SeqStatement();                                       // COMMIT
      if o.Failed? { return NotAllocated(o.error); }
      serials := table;
      r := Allocated(table[ymd]);
    }

    function NextAfter(table: map<string, nat>, ymd: string): nat
      reads this`committed
    { Next(table, ymd, NumbersOf(committed.order, committed.journals)) }

    /** No statement of the sequence pool in the window failed with anything but a deadlock or a lock wait. */
    ghost predicate SeqQuiet(first: nat, end: nat) { forall n | first <= n < end :: seqFaults(n) != OtherFault }

    /** At most eight attempts; any error but a deadlock or a lock wait ends them, and so does the eighth. */
    method NextJournalSerial(ymd: string) returns (r: Allocation, attempts: nat)
      modifies this`serials, this`seqIssued
      ensures 1 <= attempts <= 8 && old(seqIssued) < seqIssued <= old(seqIssued) + 6 * attempts
      ensures r.Allocated? ==> SeqQuiet(old(seqIssued), seqIssued)
      ensures r.NotAllocated? ==>
                && SeqQuiet(old(seqIssued), seqIssued - 1)
                && SeqBroke(old(seqIssued), seqIssued, r.error) && r.error != DuplicateError
                && (attempts < 8 ==> r.error == SqlError)
      ensures r.Allocated? ==> serials == old(serials)[ymd := r.serial]
      ensures r.Allocated? ==>
                r.serial == 1 + if ymd in old(serials) then old(serials)[ymd] else DatedSeed(ymd, NumbersOf(committed.order, committed.journals))
      ensures r.NotAllocated? ==> serials == old(serials)
    {
      r, attempts := NotAllocated(SqlError), 0;
      while attempts < 8
        invariant attempts <= 7 && serials == old(serials)
        invariant old(seqIssued) <= seqIssued <= old(seqIssued) + 6 * attempts && SeqQuiet(old(seqIssued), seqIssued)
      {
        attempts := attempts + 1;
        r := TrySerial(ymd);
        if r.Allocated? || !Retryable(r.error) || attempts == 8 { return; }
      }
    }

    // ----- _postJournalTx -----

    /** One line: refused, skipped when it is zero, or resolved to an item with one lookup. */
    method EnrichLine(ctx: Ctx, h: HeaderDims, l: Line) returns (r: Enriched)
      requires inTx
      modifies this`committed, this`working, this`inTx, this`issued, this`locks
      ensures committed == old(committed) && Traced(old(issued), issued, if r.Broken? then Some(r.error) else None)
      ensures r.Broken? ==> Settled()
      ensures !r.Broken? ==> inTx && working == old(working) && locks == old(locks)
      ensures r.Accepted? ==> Accept(ctx.codes, h, l) == Checked.Ok(r.items) && issued == old(issued) + |r.items|
      ensures r.Stopped? ==> Accept(ctx.codes, h, l) == Refused(r.why) && r.why != PeriodClosed
    {
      if l.debit < 0 || l.credit < 0 { return Stopped(NegativeLine); }
      if l.debit == 0 && l.credit == 0 { return Accepted([]); }
      if l.debit > 0 && l.credit > 0 { return Stopped(TwoSidedLine); }
      var o := Execute(Select);
      if o.Failed? { return Broken(o.error); }
      if l.code == "" || l.code !in ctx.codes { return Stopped(UnknownAccount(l.code)); }
      r := Accepted([Item(ctx.codes[l.code], l.code, l.debit, l.credit, RowDims(l.dims, h))]);
    }

    /** The validation loop: every line in order, resolving its account. */
    method EnrichLines(ctx: Ctx, spec: Spec) returns (r: Enriched)
      requires inTx
      modifies this`committed, this`working, this`inTx, this`issued, this`locks
      ensures committed == old(committed) && Traced(old(issued), issued, if r.Broken? then Some(r.error) else None)
      ensures r.Broken? ==> Settled()
      ensures !r.Broken? ==> inTx && working == old(working) && locks == old(locks)
      ensures r.Accepted? ==> Enrich(ctx.codes, spec.dims, spec.lines) == Checked.Ok(r.items) && issued == old(issued) + |r.items|
      ensures r.Stopped? ==> Enrich(ctx.codes, spec.dims, spec.lines) == Refused(r.why) && r.why != PeriodClosed
    {
      var enriched: seq<Item> := [];
      ghost var t, first, held := working, issued, locks;
      for i := 0 to |spec.lines|
        invariant inTx && working == t && committed == old(committed) && locks == held
        invariant issued == first + |enriched| && Traced(first, issued, None)
        invariant Enrich(ctx.codes, spec.dims, spec.lines[..i]) == Checked.Ok(enriched)
      {
        EnrichNext(ctx.codes, spec.dims, spec.lines, i);
        r := EnrichLine(ctx, spec.dims, spec.lines[i]);
        if !r.Accepted? { return; }
        enriched := enriched + r.items;
      }
      assert spec.lines[..|spec.lines|] == spec.lines;
      r := Accepted(enriched);
    }

    /** One serial and one header insert: what it answers, between two points. */
    ghost predicate TryTold(t: Tables, ymd: string, serial: nat, id: JournalId, from: Mark, r: PostResult, to: Mark) {
      var number := Dated(ymd, serial);
      && from.pool < to.pool
      && match r
         case Rejected(_) => false
         case Success(i, n) => i == id && n == number && !Used(t, id, number) && OneMore(from, to, ymd, serial)
         case Threw(e) =>
           if e == DuplicateError then Used(t, id, number) && OneMore(from, to, ymd, serial)
           else from.own <= to.own <= from.own + 1 && Struck(from, to, e) && Advanced(from.serials, to.serials, ymd, serial)
    }

    /** One clean statement, and the counter at this serial. */
    ghost predicate OneMore(from: Mark, to: Mark, ymd: string, serial: nat) {
      to.own == from.own + 1 && faults(from.own) == NoFault && to.serials == from.serials[ymd := serial]
    }

    method TryHeader(ctx: Ctx, spec: Spec, items: seq<Item>, id: JournalId) returns (r: PostResult)
      requires inTx
      modifies this`committed, this`working, this`inTx, this`issued, this`locks, this`serials, this`seqIssued
      ensures committed == old(committed)
      ensures TryTold(old(working), Ymd(ctx, spec), old(FirstSerial(ctx, spec)), id, old(Now()), r, Now())
      ensures r == Threw(DuplicateError) ==> inTx && locks == old(locks) && working == old(working)
      ensures r.Threw? ==> Settled()
      ensures r.Success? ==>
                inTx && locks == old(locks)
                && working == Effect(old(working), InsertHeader(r.id, NewJournal(ctx, spec, r.number, items)))
    {
      var a, _ := NextJournalSerial(Ymd(ctx, spec));
      if a.NotAllocated? { return Threw(a.error); }
      var number := Dated(Ymd(ctx, spec), a.serial);
      var o := Execute(InsertHeader(id, NewJournal(ctx, spec, number, items)));
      r := if o == Done then Success(id, number) else Threw(o.error);
    }

    /** The header insert number k met a used id or a used number. */
    ghost predicate Taken(t: Tables, ids: nat -> JournalId, ymd: string, base: nat, k: nat) {
      Used(t, ids(k), Dated(ymd, base + k))
    }

    ghost predicate FirstTaken(t: Tables, ids: nat -> JournalId, ymd: string, base: nat, n: nat) {
      forall k: nat | k < n :: Taken(t, ids, ymd, base, k)
    }

    /** n tries met used ids or numbers: the serials were consecutive from `base` on, and every insert was clean. */
    ghost predicate Tried(t: Tables, ids: nat -> JournalId, ymd: string, base: nat, from: Mark, n: nat, to: Mark) {
      && to.own == from.own + n && Clean(from.own, to.own) && FirstTaken(t, ids, ymd, base, n)
      && (if n == 0 then to == from else from.pool < to.pool && to.serials == from.serials[ymd := base + n - 1])
    }

    /** The last of `tries` tries decides; the ones before it met used ids or numbers. */
    ghost predicate HeaderTold(t: Tables, ids: nat -> JournalId, ymd: string, base: nat, from: Mark, r: PostResult, tries: nat, to: Mark) {
      && 1 <= tries <= 6 && (r == Threw(DuplicateError) ==> tries == 6)
      && DecidedAfter(t, ids, ymd, base, from, tries - 1, r, to)
    }

    ghost predicate DecidedAfter(t: Tables, ids: nat -> JournalId, ymd: string, base: nat, from: Mark, n: nat, r: PostResult, to: Mark) {
      exists before: Mark :: Tried(t, ids, ymd, base, from, n, before) && TryTold(t, ymd, base + n, ids(n), before, r, to)
    }

    lemma TryNext(t: Tables, ids: nat -> JournalId, ymd: string, base: nat, from: Mark, n: nat, before: Mark, r: PostResult, to: Mark)
      requires n < 6 && Tried(t, ids, ymd, base, from, n, before) && TryTold(t, ymd, base + n, ids(n), before, r, to)
      ensures r == Threw(DuplicateError) ==> Tried(t, ids, ymd, base, from, n + 1, to)
      ensures r != Threw(DuplicateError) || n == 5 ==> HeaderTold(t, ids, ymd, base, from, r, n + 1, to)
    {
      assert Tried(t, ids, ymd, base, from, n, before);
      if r == Threw(DuplicateError) { assert Taken(t, ids, ymd, base, n); }
    }

    /**
     * Allocate a number and insert the header; a duplicate re-numbers, at most six times. The
     * serials tried are consecutive, and each try but the last met a used id or number.
     */
    method InsertNumberedHeader(ctx: Ctx, spec: Spec, items: seq<Item>, ids: nat -> JournalId) returns (r: PostResult, tries: nat)
      requires inTx
      modifies this`committed, this`working, this`inTx, this`issued, this`locks, this`serials, this`seqIssued
      ensures committed == old(committed)
      ensures HeaderTold(old(working), ids, Ymd(ctx, spec), old(FirstSerial(ctx, spec)), old(Now()), r, tries, Now())
      ensures r.Threw? ==> Settled()
      ensures r.Success? ==>
                inTx && locks == old(locks)
                && working == Effect(old(working), InsertHeader(r.id, NewJournal(ctx, spec, r.number, items)))
    {
      ghost var t, ymd, base, from := working, Ymd(ctx, spec), FirstSerial(ctx, spec), Now();
      r, tries := Threw(DuplicateError), 0;
      while tries < 6
        invariant tries <= 6 && r == Threw(DuplicateError)
        invariant inTx && working == t && committed == old(committed) && locks == old(locks)
        invariant Tried(t, ids, ymd, base, from, tries, Now()) && FirstSerial(ctx, spec) == base + tries
        invariant tries == 6 ==> HeaderTold(t, ids, ymd, base, from, r, 6, Now())
      {
        ghost var before := Now();
        var attempt := tries;
        tries := tries + 1;
        r := TryHeader(ctx, spec, items, ids(attempt));
        TryNext(t, ids, ymd, base, from, attempt, before, r, Now());
        if r != Threw(DuplicateError) { return; }
      }
    }

    /** What the tries of a header come to, seen from where they began. */
    lemma HeaderFacts(t: Tables, ids: nat -> JournalId, ymd: string, base: nat, from: Mark, r: PostResult, tries: nat, to: Mark)
      requires HeaderTold(t, ids, ymd, base, from, r, tries, to)
      ensures from.own <= to.own && from.pool < to.pool && !r.Rejected? && Survived(from.own, to.own - 1)
      ensures Advanced(from.serials, to.serials, ymd, base)
      ensures r == Threw(DuplicateError) ==> FirstTaken(t, ids, ymd, base, 6)
      ensures r.Threw? && r.error != DuplicateError ==> Struck(from, to, r.error)
      ensures r.Success? ==> Clean(from.own, to.own) && !Used(t, r.id, r.number) && NumberedBy(from.serials, to.serials, ymd, base, r.number)
    {
      var n: nat := tries - 1;
      var before: Mark :| Tried(t, ids, ymd, base, from, n, before) && TryTold(t, ymd, base + n, ids(n), before, r, to);
      if r == Threw(DuplicateError) { TryNext(t, ids, ymd, base, from, n, before, r, to); }
    }

    /** The serial the next allocation of the journal's day gives. */
    ghost function FirstSerial(ctx: Ctx, spec: Spec): nat
      reads this`serials, this`committed
    { NextAfter(serials, Ymd(ctx, spec)) }

    /** The deltas map: net debit minus credit per account. */
    method NetDeltas(items: seq<Item>) returns (deltas: map<AccountId, int>)
      ensures deltas.Keys == Accounts(items) && forall a | a in deltas :: deltas[a] == NetOn(items, a)
    {
      deltas := map[];
      for i := 0 to |items|
        invariant deltas.Keys == Accounts(items[..i])
        invariant forall a | a in deltas :: deltas[a] == NetOn(items[..i], a)
      {
        var e := items[i];
        assert items[..i + 1][..i] == items[..i] && items[..i + 1] == items[..i] + [e];
        if e.account !in deltas { NetOffAccounts(items[..i], e.account); }
        var before := if e.account in deltas then deltas[e.account] else 0;
        deltas := deltas[e.account := before + (e.debit - e.credit)];
      }
      assert items[..|items|] == items;
    }

    method AddDelta(a: AccountId, delta: int) returns (r: Outcome)
      requires inTx
      modifies this`committed, this`working, this`inTx, this`issued, this`locks
      ensures committed == old(committed) && issued == old(issued) + 1
      ensures locks == old(locks) + [AccountRow(a)]
      ensures r == Done ==> inTx && working == old(working).(accounts := AddOne(old(working).accounts, a, delta))
      ensures r.Failed? && !Retryable(r.error) ==> inTx && working == old(working)
      ensures r.Failed? ==> Settled() && faults(old(issued)) != NoFault && r.error == ErrorOf(faults(old(issued)))
      ensures r == Done ==> faults(old(issued)) == NoFault
    { r := Execute(AddBalance(a, delta)); }

    /** The accounts whose update, one statement each from `first` on, failed with a swallowed error. */
    ghost function LostIn(keys: seq<AccountId>, first: nat): set<AccountId> {
      set k | 0 <= k < |keys| && faults(first + k) == OtherFault :: keys[k]
    }

    lemma LostNext(keys: seq<AccountId>, first: nat, a: AccountId)
      ensures LostIn(keys + [a], first) == LostIn(keys, first) + (if faults(first + |keys|) == OtherFault then {a} else {})
    {
      var more := keys + [a];
      assert more[|keys|] == a && forall k | 0 <= k < |keys| :: more[k] == keys[k];
      forall x | x in LostIn(keys, first) ensures x in LostIn(more, first) {
        var k :| 0 <= k < |keys| && faults(first + k) == OtherFault && keys[k] == x;
        assert more[k] == x;
      }
      if faults(first + |keys|) == OtherFault { assert more[|keys|] in LostIn(more, first); }
    }

    /** All updates were issued, and none met a deadlock or a lock wait: the lost ones are those with a swallowed error. */
    ghost predicate Updates(keys: seq<AccountId>, first: nat, end: nat, lost: set<AccountId>) {
      end == first + |keys| && Survived(first, end) && lost == LostIn(keys, first)
    }

    /** The first k keys are updated, but for the lost ones. */
    ghost predicate Updated(base: map<AccountId, int>, items: seq<Item>, keys: seq<AccountId>, k: nat, first: nat, lost: set<AccountId>)
      requires k <= |keys|
      reads this`working, this`issued
    {
      && working.accounts == Partly(base, items, keys[..k], lost)
      && Updates(keys[..k], first, issued, lost)
      && forall a | a in lost :: a in keys[..k]
    }

    /** The update of key k; an error that is no deadlock or lock wait loses it and counts as done. */
    method ApplyDelta(keys: seq<AccountId>, k: nat, delta: int, ghost items: seq<Item>, ghost base: map<AccountId, int>,
                      ghost first: nat, ghost before: set<AccountId>)
        returns (r: Outcome, ghost lost: set<AccountId>)
      requires inTx && k < |keys| && keys[k] !in keys[..k] && delta == NetOn(items, keys[k])
      requires Updated(base, items, keys, k, first, before)
      modifies this`committed, this`working, this`inTx, this`issued, this`locks
      ensures committed == old(committed) && issued == old(issued) + 1 && locks == old(locks) + [AccountRow(keys[k])]
      ensures r.Failed? ==> Settled() && Retryable(r.error) && faults(old(issued)) != NoFault && r.error == ErrorOf(faults(old(issued)))
      ensures r == Done ==>
                && inTx && working == old(working).(accounts := working.accounts)
                && Updated(base, items, keys, k + 1, first, lost)
    {
      var a := keys[k];
      assert keys[..k + 1] == keys[..k] + [a];
      lost := before;
      PartlyLost(base, items, keys[..k], a, lost);
      PartlyDone(base, items, keys[..k], a, lost);
      LostNext(keys[..k], first, a);
      r := AddDelta(a, delta);
      if r.Failed? && !Retryable(r.error) {
        lost := lost + {a};
        r := Done;
      }
    }

    /** One UPDATE per key; an error that is no deadlock or lock wait loses that update and goes on. */
    method ApplyDeltas(keys: seq<AccountId>, deltas: map<AccountId, int>, items: seq<Item>)
        returns (r: Outcome, ghost lost: set<AccountId>)
      requires inTx && forall a | a in keys :: a in deltas && deltas[a] == NetOn(items, a)
      requires forall i, j | 0 <= i < j < |keys| :: keys[i] != keys[j]
      modifies this`committed, this`working, this`inTx, this`issued, this`locks
      ensures committed == old(committed) && old(issued) <= issued <= old(issued) + |keys|
      ensures r.Failed? ==>
                Settled() && Retryable(r.error) && Broke(old(issued), issued, r.error) && Survived(old(issued), issued - 1)
      ensures r == Done ==>
                && inTx && working == old(working).(accounts := working.accounts)
                && working.accounts == Partly(old(working).accounts, items, keys, lost)
                && locks == old(locks) + AccountLocks(keys)
                && Updates(keys, old(issued), issued, lost)
    {
      lost := {};
      ghost var base := working.accounts;
      for k := 0 to |keys|
        invariant inTx && committed == old(committed) && working == old(working).(accounts := working.accounts)
        invariant Updated(base, items, keys, k, old(issued), lost)
        invariant locks == old(locks) + AccountLocks(keys[..k])
      {
        assert AccountLocks(keys[..k + 1]) == AccountLocks(keys[..k]) + [AccountRow(keys[k])];
        r, lost := ApplyDelta(keys, k, deltas[keys[k]], items, base, old(issued), lost);
        if r.Failed? { return; }
      }
      assert keys[..|keys|] == keys;
      r := Done;
    }

    /** The netted balance updates of a posted journal, in ascending account order. */
    method UpdateBalances(items: seq<Item>) returns (r: Outcome, ghost lost: set<AccountId>)
      requires inTx
      modifies this`committed, this`working, this`inTx, this`issued, this`locks
      ensures committed == old(committed) && old(issued) <= issued <= old(issued) + |SortSet(Accounts(items))|
      ensures r.Failed? ==>
                Settled() && Retryable(r.error) && Broke(old(issued), issued, r.error) && Survived(old(issued), issued - 1)
      ensures r == Done ==>
                && inTx && working == old(working).(accounts := AddNets(old(working).accounts, items, lost))
                && locks == old(locks) + AccountLocks(SortSet(Accounts(items)))
                && Updates(SortSet(Accounts(items)), old(issued), issued, lost)
    {
      var deltas := NetDeltas(items);
      var keys := SortSet(deltas.Keys);
      ghost var accounts := working.accounts;
      r, lost := ApplyDeltas(keys, deltas, items);
      PartlyAll(accounts, items, keys, lost);
    }

    method InsertEntries(id: JournalId, items: seq<Item>) returns (r: Outcome)
      requires inTx
      modifies this`committed, this`working, this`inTx, this`issued, this`locks
      ensures committed == old(committed) && old(issued) <= issued <= old(issued) + |items|
      ensures r.Failed? ==> Settled() && Broke(old(issued), issued, r.error) && Clean(old(issued), issued - 1)
      ensures r == Done ==> inTx && working == old(working).(rows := old(working).rows + RowsFor(id, items)) && locks == old(locks)
      ensures r == Done ==> issued == old(issued) + |items| && Clean(old(issued), issued)
    {
      for i := 0 to |items|
        invariant inTx && committed == old(committed) && locks == old(locks)
        invariant issued == old(issued) + i && Clean(old(issued), issued)
        invariant working == old(working).(rows := old(working).rows + RowsFor(id, items[..i]))
      {
        var o := Execute(InsertEntry(Row(id, items[i])));
        if o.Failed? { return o; }
        assert RowsFor(id, items[..i + 1]) == RowsFor(id, items[..i]) + [Row(id, items[i])];
      }
      assert items[..|items|] == items;
      r := Done;
    }

    /** isPeriodClosed fails closed: any error of the lookup reads as a closed period. */
    method PeriodBlocks(ctx: Ctx, d: Date) returns (closed: bool)
      requires inTx
      modifies this`committed, this`working, this`inTx, this`issued, this`locks
      ensures committed == old(committed) && issued >= old(issued) && Settled() && (inTx ==> working == old(working))
      ensures !closed ==> inTx && !IsPeriodClosed(ctx.periods, d) && locks == old(locks)
      ensures issued == old(issued) + (if d == 0 then 0 else 1)
      ensures closed <==> d != 0 && (IsPeriodClosed(ctx.periods, d) || faults(old(issued)) != NoFault)
    {
      if d == 0 { return false; }
      var o := Execute(Select);
      closed := o.Failed? || IsPeriodClosed(ctx.periods, d);
    }

    /**
     * Why a posting throws: a failed statement, or six numbered headers that all met a used id or
     * number. No deadlock or lock wait before that one was ever absorbed.
     */
    ghost predicate PostThrows(t: Tables, ctx: Ctx, spec: Spec, ids: nat -> JournalId, first: nat, from: Mark, to: Mark, e: Error)
    {
      Survived(from.own, to.own - 1) && if e == DuplicateError then FirstTaken(t, ids, Ymd(ctx, spec), first, 6) else Struck(from, to, e)
    }

    /** Balance updates that lost nothing but to swallowed errors, and clean entries. */
    ghost predicate AmountsRan(draft: bool, items: seq<Item>, first: nat, end: nat, lost: set<AccountId>) {
      var keys := if draft then [] else SortSet(Accounts(items));
      var u := first + |keys|;
      Updates(keys, first, u, lost) && end == u + |items| && Clean(u, end)
    }

    /** The statements of a posting that went through: nothing failed but swallowed updates, and these are the lost ones. */
    ghost predicate PostRan(draft: bool, items: seq<Item>, first: nat, end: nat, lost: set<AccountId>) {
      exists mid: nat | first <= mid <= end :: Clean(first, mid) && AmountsRan(draft, items, mid, end, lost)
    }

    lemma RanAfter(draft: bool, items: seq<Item>, first: nat, mid: nat, end: nat, lost: set<AccountId>)
      requires first <= mid && Clean(first, mid) && PostRan(draft, items, mid, end, lost)
      ensures PostRan(draft, items, first, end, lost)
    {
      var m: nat :| mid <= m <= end && Clean(mid, m) && AmountsRan(draft, items, m, end, lost);
      assert Clean(first, m);
    }

    lemma RanSurvives(draft: bool, items: seq<Item>, first: nat, end: nat, lost: set<AccountId>)
      requires PostRan(draft, items, first, end, lost)
      ensures Survived(first, end)
    {}

    lemma ThrewAfter(t: Tables, ctx: Ctx, spec: Spec, ids: nat -> JournalId, base: nat, from: Mark, mid: Mark, to: Mark, e: Error)
      requires from.own <= mid.own && from.pool <= mid.pool && Survived(from.own, mid.own)
      requires PostThrows(t, ctx, spec, ids, base, mid, to, e)
      ensures PostThrows(t, ctx, spec, ids, base, from, to, e)
    {}

    /** Balances, unless the journal is a draft, and then the entries. */
    method WriteAmounts(draft: bool, id: JournalId, items: seq<Item>) returns (r: Outcome, ghost lost: set<AccountId>)
      requires inTx
      modifies this`committed, this`working, this`inTx, this`issued, this`locks
      ensures committed == old(committed) && issued >= old(issued)
      ensures r.Failed? ==> Settled() && Broke(old(issued), issued, r.error) && Survived(old(issued), issued - 1)
      ensures r == Done ==>
                && inTx
                && working == old(working).(accounts := if draft then old(working).accounts else AddNets(old(working).accounts, items, lost),
                                            rows := old(working).rows + RowsFor(id, items))
                && locks == old(locks) + (if draft then [] else AccountLocks(SortSet(Accounts(items))))
                && AmountsRan(draft, items, old(issued), issued, lost)
    {
      lost := {};
      if !draft {
        r, lost := UpdateBalances(items);
        if r.Failed? { return; }
      }
      r := InsertEntries(id, items);
    }

    /** What the writes of an accepted journal come to. */
    ghost predicate WriteTold(t: Tables, ctx: Ctx, spec: Spec, items: seq<Item>, ids: nat -> JournalId, base: nat,
                              from: Mark, r: PostResult, lost: set<AccountId>, to: Mark)
    {
      && from.own <= to.own && from.pool <= to.pool && Advanced(from.serials, to.serials, Ymd(ctx, spec), base)
      && match r
         case Rejected(_) => false
         case Threw(e) => lost == {} && PostThrows(t, ctx, spec, ids, base, from, to, e)
         case Success(id, number) =>
           && !Used(t, id, number) && PostRan(spec.draft, items, from.own, to.own, lost)
           && NumberedBy(from.serials, to.serials, Ymd(ctx, spec), base, number)
    }

    lemma HeaderThenAmounts(t: Tables, ctx: Ctx, spec: Spec, items: seq<Item>, ids: nat -> JournalId, base: nat, from: Mark,
                            header: PostResult, tries: nat, mid: Mark, o: Outcome, lost: set<AccountId>, to: Mark)
      requires HeaderTold(t, ids, Ymd(ctx, spec), base, from, header, tries, mid)
      requires header.Success? ==>
                 && mid.own <= to.own && mid.pool == to.pool && mid.serials == to.serials
                 && (if o == Done then AmountsRan(spec.draft, items, mid.own, to.own, lost)
                     else Broke(mid.own, to.own, o.error) && Survived(mid.own, to.own - 1) && o.error != DuplicateError)
      requires header.Threw? ==> mid == to
      ensures header.Threw? ==> WriteTold(t, ctx, spec, items, ids, base, from, header, {}, to)
      ensures header.Success? && o == Done ==> WriteTold(t, ctx, spec, items, ids, base, from, header, lost, to)
      ensures header.Success? && o.Failed? ==> WriteTold(t, ctx, spec, items, ids, base, from, Threw(o.error), {}, to)
    { HeaderFacts(t, ids, Ymd(ctx, spec), base, from, header, tries, mid); }

    /** The writes of an accepted journal: header, balances, entries. */
    method WriteJournal(ctx: Ctx, spec: Spec, items: seq<Item>, ids: nat -> JournalId) returns (r: PostResult, ghost lost: set<AccountId>)
      requires inTx
      modifies this`committed, this`working, this`inTx, this`issued, this`locks, this`serials, this`seqIssued
      ensures committed == old(committed)
      ensures WriteTold(old(working), ctx, spec, items, ids, old(FirstSerial(ctx, spec)), old(Now()), r, lost, Now())
      ensures r.Threw? ==> Settled()
      ensures r.Success? ==>
                && inTx && working == Inserted(old(working), ctx, spec, r.id, r.number, items, lost)
                && locks == old(locks) + (if spec.draft then [] else AccountLocks(SortSet(Accounts(items))))
    {
      ghost var t, base, from := working, FirstSerial(ctx, spec), Now();
      var tries, o;
      r, tries := InsertNumberedHeader(ctx, spec, items, ids);
      ghost var mid := Now();
      if r.Threw? {
        HeaderThenAmounts(t, ctx, spec, items, ids, base, from, r, tries, mid, Done, {}, mid);
        return r, {};
      }
      o, lost := WriteAmounts(spec.draft, r.id, items);
      HeaderThenAmounts(t, ctx, spec, items, ids, base, from, r, tries, mid, o, lost, Now());
      if o.Failed? { return Threw(o.error), {}; }
    }

    /** The period lookup finds a closed period, or fails. */
    ghost predicate Barred(ctx: Ctx, spec: Spec, lookup: nat) {
      && spec.lines != [] && DateOf(ctx, spec) != 0
      && (IsPeriodClosed(ctx.periods, DateOf(ctx, spec)) || faults(lookup) != NoFault)
    }

    /** Everything a posting checks before it writes. */
    method Prepare(ctx: Ctx, spec: Spec) returns (e: Enriched)
      requires inTx
      modifies this`committed, this`working, this`inTx, this`issued, this`locks
      ensures committed == old(committed) && Settled() && issued >= old(issued)
      ensures e.Accepted? ==> inTx && working == old(working) && locks == old(locks) && Plan(ctx, spec) == Checked.Ok(e.items)
      ensures e.Accepted? ==> issued > old(issued) && Clean(old(issued), issued)
      ensures e == Stopped(PeriodClosed) <==> Barred(ctx, spec, old(issued))
      ensures e.Stopped? ==> (e.why == PeriodClosed || Plan(ctx, spec) == Refused(e.why)) && (inTx ==> working == old(working))
      ensures e == Stopped(PeriodClosed) ==> issued == old(issued) + 1
      ensures e.Stopped? && e.why != PeriodClosed ==> Clean(old(issued), issued)
      ensures e.Broken? ==> Broke(old(issued), issued, e.error) && Clean(old(issued), issued - 1)
    {
      if spec.lines == [] { return Stopped(NoLines); }
      var closed := PeriodBlocks(ctx, DateOf(ctx, spec));
      if closed { return Stopped(PeriodClosed); }
      e := EnrichLines(ctx, spec);
      if !e.Accepted? { return; }
      if e.items == [] { return Stopped(AllZero); }
      var td, tc := SumDebit(e.items), SumCredit(e.items);
      if !Balanced(ctx, td, tc) { return Stopped(Unbalanced(td, tc)); }
    }

    /** What the posting body comes to. */
    ghost predicate BodyTold(t: Tables, ctx: Ctx, spec: Spec, ids: nat -> JournalId, base: nat,
                             from: Mark, r: PostResult, lost: set<AccountId>, to: Mark)
    {
      && from.own <= to.own && from.pool <= to.pool && Advanced(from.serials, to.serials, Ymd(ctx, spec), base)
      && (!r.Success? ==> lost == {})
      && (r == Rejected(PeriodClosed) <==> Barred(ctx, spec, from.own))
      && match r
         case Rejected(w) => if w == PeriodClosed then to.own == from.own + 1 else Plan(ctx, spec) == Refused(w) && Clean(from.own, to.own)
         case Threw(e) => from.own < to.own && PostThrows(t, ctx, spec, ids, base, from, to, e)
         case Success(id, number) =>
           && Plan(ctx, spec).Ok? && !Used(t, id, number) && PostRan(spec.draft, Plan(ctx, spec).value, from.own, to.own, lost)
           && NumberedBy(from.serials, to.serials, Ymd(ctx, spec), base, number)
    }

    lemma PreparedThenWritten(t: Tables, ctx: Ctx, spec: Spec, items: seq<Item>, ids: nat -> JournalId, base: nat, from: Mark,
                              mid: Mark, r: PostResult, lost: set<AccountId>, to: Mark)
      requires Plan(ctx, spec) == Checked.Ok(items) && !Barred(ctx, spec, from.own)
      requires from.own < mid.own && mid == from.(own := mid.own) && Clean(from.own, mid.own)
      requires WriteTold(t, ctx, spec, items, ids, base, mid, r, lost, to)
      ensures BodyTold(t, ctx, spec, ids, base, from, r, lost, to)
    {
      if r.Success? { RanAfter(spec.draft, items, from.own, mid.own, to.own, lost); }
      if r.Threw? { ThrewAfter(t, ctx, spec, ids, base, from, mid, to, r.error); }
    }

    /** The posting body; it runs on one connection and stops at the first error it cannot absorb. */
    method PostJournalTx(ctx: Ctx, spec: Spec, ids: nat -> JournalId) returns (r: PostResult, ghost lost: set<AccountId>)
      requires inTx && CodesKnown(working, ctx)
      modifies this`committed, this`working, this`inTx, this`issued, this`locks, this`serials, this`seqIssued
      ensures committed == old(committed) && Settled()
      ensures BodyTold(old(working), ctx, spec, ids, old(FirstSerial(ctx, spec)), old(Now()), r, lost, Now())
      ensures r.Success? ==>
                && inTx && Plan(ctx, spec).Ok? && Insertable(old(working), ctx, r.id, r.number)
                && working == Inserted(old(working), ctx, spec, r.id, r.number, Plan(ctx, spec).value, lost)
                && locks == old(locks) + PostingLocks(ctx, spec)
      ensures r.Rejected? && inTx ==> working == old(working)
    {
      ghost var t, base, from := working, FirstSerial(ctx, spec), Now();
      var e := Prepare(ctx, spec);
      if e.Broken? { return Threw(e.error), {}; }
      if e.Stopped? { return Rejected(e.why), {}; }
      ghost var mid := Now();
      r, lost := WriteJournal(ctx, spec, e.items, ids);
      PreparedThenWritten(t, ctx, spec, e.items, ids, base, from, mid, r, lost, Now());
    }

    /** Tables in order, no transaction pending, and every code names an account. */
    ghost predicate Valid(ctx: Ctx)
      reads this
    { Idle() && Structure(committed) && CodesKnown(committed, ctx) }

    /** No statement of the sequence pool in the window failed. */
    ghost predicate SeqClean(first: nat, end: nat) { forall n | first <= n < end :: seqFaults(n) == NoFault }

    /** Every counter is at least every stored serial of its day. */
    ghost predicate CountersHold()
      reads this`serials, this`committed
    { Covers(serials, NumberSet(committed)) }

    /** The period lookup at this statement bars the posting, and the commit after it goes through. */
    ghost predicate Refuses(ctx: Ctx, spec: Spec, lookup: nat) { Barred(ctx, spec, lookup) && faults(lookup + 1) == NoFault }

    /**
     * What one transaction of postJournal on the tables t comes to: posted exactly once and committed;
     * or refused for a reason that is true, or because the period lookup failed; or thrown, because a
     * statement failed or six tries met used ids or numbers. Only the first changes the tables.
     */
    ghost predicate Concluded(ctx: Ctx, spec: Spec, ids: nat -> JournalId, t: Tables, from: Mark,
                              r: PostResult, lost: set<AccountId>, to: Mark, t': Tables)
    {
      && (r == Rejected(PeriodClosed) <==> Refuses(ctx, spec, from.own))
      && (!r.Success? ==> t' == t && lost == {})
      && match r
         case Success(id, number) =>
           var e := Post(ctx, spec, id, number, lost);
           && Enabled(t, e) && t' == Apply(t, e)
           && to.own > from.own && PostRan(spec.draft, Plan(ctx, spec).value, from.own, to.own - 1, lost) && faults(to.own - 1) == NoFault
         case Rejected(w) => w == PeriodClosed || Plan(ctx, spec) == Refused(w)
         case Threw(e) =>
           || PostThrows(t, ctx, spec, ids, FirstOf(from, t, ctx, spec), from, to, e)
           || (Barred(ctx, spec, from.own) && to.own == from.own + 2 && Broke(from.own, to.own, e))
    }

    /** The end of a transaction: commit, and roll back when that fails or when the body threw. */
    method Finish(threw: bool) returns (c: Outcome)
      requires Settled()
      modifies this`committed, this`working, this`inTx, this`issued
      ensures Idle() && committed == (if !threw && c == Done then old(working) else old(committed))
      ensures if threw then c == Done && issued == old(issued) else issued == old(issued) + 1
      ensures !threw ==> Traced(old(issued), issued, FailureOf(c))
    {
      if threw {
        Rollback();
        return Done;
      }
      c := Commit();
      if c.Failed? { Rollback(); }
    }

    /** The body, and then its commit: what the transaction comes to. */
    lemma Finished(ctx: Ctx, spec: Spec, ids: nat -> JournalId, t: Tables, base: nat, from: Mark, mid: Mark,
                   r: PostResult, lost: set<AccountId>, c: Outcome, to: Mark, t': Tables)
      requires BodyTold(t, ctx, spec, ids, base, from, r, lost, mid) && base == FirstOf(from, t, ctx, spec)
      requires r.Success? ==> CodesKnown(t, ctx)
      requires if r.Threw? then c == Done && to == mid else to == mid.(own := mid.own + 1) && Traced(mid.own, to.own, FailureOf(c))
      requires t' == if r.Success? && c == Done then Inserted(t, ctx, spec, r.id, r.number, Plan(ctx, spec).value, lost) else t
      ensures Concluded(ctx, spec, ids, t, from, if c.Failed? then Threw(c.error) else r, if c.Failed? then {} else lost, to, t')
      ensures from.own < to.own && from.pool <= to.pool && Advanced(from.serials, to.serials, Ymd(ctx, spec), base)
      ensures r.Success? && c == Done ==> NumberedBy(from.serials, to.serials, Ymd(ctx, spec), base, r.number)
    { if c.Failed? { CommitFailed(ctx, spec, ids, t, base, from, mid, r, lost, c.error, to); } }

    /** The body answered and its commit failed. */
    lemma CommitFailed(ctx: Ctx, spec: Spec, ids: nat -> JournalId, t: Tables, base: nat, from: Mark, mid: Mark,
                       r: PostResult, lost: set<AccountId>, e: Error, to: Mark)
      requires BodyTold(t, ctx, spec, ids, base, from, r, lost, mid) && base == FirstOf(from, t, ctx, spec) && !r.Threw?
      requires to == mid.(own := mid.own + 1) && Traced(mid.own, to.own, Some(e))
      ensures Concluded(ctx, spec, ids, t, from, Threw(e), {}, to, t)
    {
      if r.Success? { RanSurvives(spec.draft, Plan(ctx, spec).value, from.own, mid.own, lost); }
    }

    /** One transaction of postJournal: begin, body, commit or roll back. */
    method TryPost(ctx: Ctx, spec: Spec, ids: nat -> JournalId) returns (r: PostResult, ghost lost: set<AccountId>)
      requires Valid(ctx)
      modifies this
      ensures Valid(ctx) && issued > old(issued) && seqIssued >= old(seqIssued)
      ensures Concluded(ctx, spec, ids, old(committed), old(Now()), r, lost, Now(), committed)
      ensures Advanced(old(serials), serials, Ymd(ctx, spec), old(FirstSerial(ctx, spec)))
      ensures r.Success? ==> NumberedBy(old(serials), serials, Ymd(ctx, spec), old(FirstSerial(ctx, spec)), r.number)
      ensures r.Success? ==> Numbered(committed, r.id, r.number)
    {
      ghost var t, base, from := committed, FirstSerial(ctx, spec), Now();
      Begin();
      r, lost := PostJournalTx(ctx, spec, ids);
      ghost var mid := Now();
      var c := Finish(r.Threw?);
      Finished(ctx, spec, ids, t, base, from, mid, r, lost, c, Now(), committed);
      if c.Failed? { r, lost := Threw(c.error), {}; }
      if r.Success? {
        StepValid(t, Post(ctx, spec, r.id, r.number, lost), ctx);
        OwnDay(t, Post(ctx, spec, r.id, r.number, lost), serials[Ymd(ctx, spec)]);
      }
    }

    /** An attempt that ended in a deadlock or a lock wait, and the next one. */
    ghost predicate Retried(a: Mark, b: Mark) {
      a.own < b.own && (Struck(a, b, DeadlockError) || Struck(a, b, TimeoutError))
    }

    /** Where the attempts began: the first at `from`, each other after one that was retried. */
    ghost predicate Attempts(marks: seq<Mark>, from: Mark) {
      |marks| > 0 && marks[0] == from && forall k | 0 <= k < |marks| - 1 :: Retried(marks[k], marks[k + 1])
    }

    /** No attempt yet, or one that is to be retried. */
    ghost predicate Retrying(marks: seq<Mark>, from: Mark, now: Mark) {
      if marks == [] then now == from else Attempts(marks, from) && Retried(marks[|marks| - 1], now)
    }

    lemma NextAttempt(marks: seq<Mark>, from: Mark, now: Mark)
      requires Retrying(marks, from, now)
      ensures Attempts(marks + [now], from)
    {
      var more := marks + [now];
      forall k | 0 <= k < |more| - 1 ensures Retried(more[k], more[k + 1]) {
        if k < |marks| - 1 { assert Retried(marks[k], marks[k + 1]); }
      }
    }

    /**
     * postJournal in pool mode: at most four transactions, each but the last ended by a deadlock or a
     * lock wait; the last one, from marks[attempts - 1] on, is what the call comes to. So exactly one
     * takes effect on success and none otherwise, and a deadlock at the period lookup, with a commit
     * that goes through, refuses the journal without a retry. Counters that are above the stored
     * numbers stay so, and then no number is ever a duplicate.
     */
    method PostJournal(ctx: Ctx, spec: Spec, ids: (nat, nat) -> JournalId)
        returns (r: PostResult, attempts: nat, ghost lost: set<AccountId>, ghost marks: seq<Mark>)
      requires Valid(ctx)
      modifies this
      ensures Valid(ctx) && 1 <= attempts <= 4 && OnlyGaps(old(serials), serials)
      ensures |marks| == attempts && Attempts(marks, old(Now())) && marks[attempts - 1].own < issued
      ensures Concluded(ctx, spec, IdsOf(ids, attempts - 1), old(committed), marks[attempts - 1], r, lost, Now(), committed)
      ensures r == Threw(DeadlockError) || r == Threw(TimeoutError) ==> attempts == 4
      ensures r.Success? ==> Numbered(committed, r.id, r.number)
      ensures Refuses(ctx, spec, old(issued)) ==> attempts == 1
      ensures old(CountersHold()) ==>
                CountersHold() && (r == Threw(DuplicateError) ==> IdsUsed(old(committed), IdsOf(ids, attempts - 1)))
    {
      ghost var t, start := committed, Now();
      attempts, lost, marks := 0, {}, [];
      r := Threw(DeadlockError);
      while attempts < 4
        invariant attempts <= 3 && Valid(ctx) && committed == t && |marks| == attempts
        invariant Counted(start.serials, t, serials, t)
        invariant Retrying(marks, start, Now()) && (attempts > 0 ==> !Refuses(ctx, spec, start.own))
      {
        var attempt := attempts;
        ghost var from := Now();
        NextAttempt(marks, start, from);
        attempts, marks := attempts + 1, marks + [from];
        r, lost := TryPost(ctx, spec, IdsOf(ids, attempt));
        CountersKept(ctx, spec, IdsOf(ids, attempt), t, from, r, lost, Now(), committed);
        if !r.Threw? || !Retryable(r.error) || attempts == 4 { return; }
      }
    }

    /** What one transaction does to the counters, if they were above the stored numbers. */
    lemma CountersKept(ctx: Ctx, spec: Spec, ids: nat -> JournalId, t: Tables, from: Mark,
                       r: PostResult, lost: set<AccountId>, to: Mark, t': Tables)
      requires OrderOk(t) && Concluded(ctx, spec, ids, t, from, r, lost, to, t')
      requires Advanced(from.serials, to.serials, Ymd(ctx, spec), FirstOf(from, t, ctx, spec))
      requires r.Success? ==> NumberedBy(from.serials, to.serials, Ymd(ctx, spec), FirstOf(from, t, ctx, spec), r.number)
      ensures Counted(from.serials, t, to.serials, t')
      ensures Covers(from.serials, NumberSet(t)) && r == Threw(DuplicateError) ==> IdsUsed(t, ids)
    {
      if Covers(from.serials, NumberSet(t)) {
        AdvanceCovers(t, from.serials, to.serials, ctx, spec);
        if r.Success? { PostCovers(t, from.serials, to.serials, Post(ctx, spec, r.id, r.number, lost)); }
        if r == Threw(DuplicateError) {
          forall k: nat | k < 6 ensures ids(k) in t.journals {
            assert Taken(t, ids, Ymd(ctx, spec), FirstOf(from, t, ctx, spec), k);
            FreeNumber(t, from.serials, ctx, spec, FirstOf(from, t, ctx, spec) + k);
          }
        }
      }
    }

    /** No failed statement explains an error: then an acceptable journal is posted, unless six tries met used ids or numbers. */
    lemma UnstruckPosts(ctx: Ctx, spec: Spec, ids: nat -> JournalId, t: Tables, from: Mark,
                        r: PostResult, lost: set<AccountId>, to: Mark, t': Tables)
      requires Concluded(ctx, spec, ids, t, from, r, lost, to, t') && Plan(ctx, spec).Ok?
      requires from.own < to.own && Clean(from.own, to.own) && SeqClean(from.pool, to.pool)
      ensures r.Success? || r == Threw(DuplicateError)
      ensures Covers(from.serials, NumberSet(t)) && OrderOk(t) && !IdsUsed(t, ids) ==> r.Success? && lost == {}
    {
      if Covers(from.serials, NumberSet(t)) && OrderOk(t) && r == Threw(DuplicateError) {
        forall k: nat | k < 6 ensures ids(k) in t.journals {
          assert Taken(t, ids, Ymd(ctx, spec), FirstOf(from, t, ctx, spec), k);
          FreeNumber(t, from.serials, ctx, spec, FirstOf(from, t, ctx, spec) + k);
        }
      }
    }

    // ----- Transitions -----

    /** The result of a transaction body: it answers, or it throws the error of the statement that failed. */
    ghost predicate Answers(before: Tables, e: Event, r: Out, first: nat)
      reads this
    {
      && issued > first && Traced(first, issued, CrashOf(r))
      && match r
         case Crashed(_) => Settled()
         case Ok(_) => inTx && Enabled(before, e) && working == Apply(before, e)
         case Denied(c) => inTx && Denial(before, e) == Some(c) && working == before
    }

    /** Statements in a row, up to the first that fails; none of them inserts a header or takes a lock. */
    method Run(ss: seq<Stmt>) returns (r: Outcome)
      requires inTx && forall s | s in ss :: !s.InsertHeader? && LocksOf(s) == []
      modifies this`committed, this`working, this`inTx, this`issued, this`locks
      ensures committed == old(committed) && Traced(old(issued), issued, FailureOf(r)) && locks == old(locks)
      ensures r.Failed? ==> Settled() && !r.error.Raised?
      ensures r == Done ==> inTx && working == EffectAll(old(working), ss) && issued == old(issued) + |ss|
    {
      for i := 0 to |ss|
        invariant inTx && committed == old(committed) && locks == old(locks)
        invariant issued == old(issued) + i && Traced(old(issued), issued, None)
        invariant working == EffectAll(old(working), ss[..i])
      {
        assert ss[..i + 1][..i] == ss[..i] && ss[i] in ss;
        r := Execute(ss[i]);
        if r.Failed? { return; }
      }
      assert ss[..|ss|] == ss;
      r := Done;
    }

    method ApproveBody(id: JournalId, u: User) returns (r: Out)
      requires inTx
      modifies this`committed, this`working, this`inTx, this`issued, this`locks
      ensures committed == old(committed) && Answers(old(working), Approve(id, u), r, old(issued))
    {
      var o := Execute(SelectForUpdate(id));
      if o.Failed? { return Crashed(o.error); }
      if id !in working.journals { return Denied("not_found"); }
      var j := working.journals[id];
      if SelfMade(j, u) { return Denied("sod-self-approval-denied"); }
      if j.status != Draft { return Denied("not_draft"); }
      o := WriteApproval(id, ActorOf(u));
      r := if o.Failed? then Crashed(o.error) else Out.Ok("approve_journal");
    }

    method WriteApproval(id: JournalId, actor: string) returns (r: Outcome)
      requires inTx && id in working.journals
      modifies this`committed, this`working, this`inTx, this`issued, this`locks
      ensures committed == old(committed) && Traced(old(issued), issued, FailureOf(r))
      ensures r.Failed? ==> Settled()
      ensures r == Done ==>
                var t := old(working);
                inTx && working == Stamped(WithStatus(t, id, Approved, actor, t.journals[id].postedBy), "approve_journal", id, actor)
    {
      var writes := [SetApproved(id, actor), InsertAudit(Audit("approve_journal", id, actor))];
      TwoEffects(working, writes[0], writes[1]);
      r := Run(writes);
    }

    /** checkPeriodOpen on this connection; its query error is thrown, not absorbed. */
    method CheckPeriodOpen(ctx: Ctx, d: Date, force: bool, u: User) returns (r: Out)
      requires inTx
      modifies this`committed, this`working, this`inTx, this`issued, this`locks
      ensures committed == old(committed) && Settled() && Traced(old(issued), issued, CrashOf(r))
      ensures !r.Crashed? ==> inTx && working == old(working) && locks == old(locks)
      ensures r.Ok? ==> PeriodDenial(ctx.periods, d, force, u) == None
      ensures r.Denied? ==> PeriodDenial(ctx.periods, d, force, u) == Some(r.code)
    {
      if d == 0 { return Out.Ok(""); }
      var o := Execute(Select);
      if o.Failed? { return Crashed(o.error); }
      var p := PeriodAt(ctx.periods, d);
      if p.None? || p.value == Open { return Out.Ok(""); }
      if SoftlyClosed(p.value) && force {
        if MayForce(u) { return Out.Ok(""); }
        return Denied("period_force_requires_override_capability");
      }
      r := Denied(if SoftlyClosed(p.value) then "period_locked_soft" else "period_locked_hard");
    }

    /** One UPDATE per entry, ordered by account; the total effect is the netted one. */
    method ApplyBalances(id: JournalId) returns (r: Outcome)
      requires inTx
      modifies this`committed, this`working, this`inTx, this`issued, this`locks
      ensures committed == old(committed) && Traced(old(issued), issued, FailureOf(r))
      ensures r.Failed? ==> Settled()
      ensures r == Done ==>
                && inTx
                && working == old(working).(accounts := AddNets(old(working).accounts, ItemsOf(old(working).rows, id), {}))
                && locks == old(locks) + ItemLocks(SortByAccount(ItemsOf(old(working).rows, id)))
    {
      r := Execute(Select);
      if r.Failed? { return; }
      var entries := SortByAccount(ItemsOf(working.rows, id));
      ghost var base := working.accounts;
      assert AddNets(base, entries[..0], {}) == base;
      for i := 0 to |entries|
        invariant inTx && committed == old(committed) && Traced(old(issued), issued, None)
        invariant working == old(working).(accounts := working.accounts)
        invariant working.accounts == AddNets(base, entries[..i], {})
        invariant locks == old(locks) + ItemLocks(entries[..i])
      {
        var e := entries[i];
        NextEntry(base, entries, i);
        r := AddDelta(e.account, e.debit - e.credit);
        if r.Failed? { return; }
      }
      assert entries[..|entries|] == entries;
      SortedNets(base, ItemsOf(old(working).rows, id));
      r := Done;
    }

    /** The checks of post(), under the row lock. */
    method PostGate(ctx: Ctx, id: JournalId, u: User, force: bool) returns (r: Out)
      requires inTx
      modifies this`committed, this`working, this`inTx, this`issued, this`locks
      ensures committed == old(committed) && Settled() && issued > old(issued) && Traced(old(issued), issued, CrashOf(r))
      ensures !r.Crashed? ==> inTx && working == old(working)
      ensures r.Ok? ==> locks == old(locks) + [JournalRow(id)]
      ensures r.Ok? ==> Denial(old(working), PostApproved(ctx, id, u, force)) == None
      ensures r.Denied? ==> Denial(old(working), PostApproved(ctx, id, u, force)) == Some(r.code)
    {
      var o := Execute(SelectForUpdate(id));
      if o.Failed? { return Crashed(o.error); }
      if id !in working.journals { return Denied("not_found"); }
      var j := working.journals[id];
      if SelfMade(j, u) { return Denied("sod-self-post-denied"); }
      if j.status == Posted { return Denied("already-posted"); }
      if j.status != Approved { return Denied("not-approved"); }
      r := CheckPeriodOpen(ctx, j.date, force, u);
    }

    /** The checks of approvePost(), under the row lock. */
    method ApprovePostGate(ctx: Ctx, id: JournalId, u: User, force: bool) returns (r: Out)
      requires inTx && "finance.gl.approve" in u.caps && "finance.gl.post" in u.caps
      modifies this`committed, this`working, this`inTx, this`issued, this`locks
      ensures committed == old(committed) && Settled() && issued > old(issued) && Traced(old(issued), issued, CrashOf(r))
      ensures !r.Crashed? ==> inTx && working == old(working)
      ensures r.Ok? ==> locks == old(locks) + [JournalRow(id)]
      ensures r.Ok? ==> Denial(old(working), ApprovePost(ctx, id, u, force)) == None
      ensures r.Denied? ==> Denial(old(working), ApprovePost(ctx, id, u, force)) == Some(r.code)
    {
      var o := Execute(SelectForUpdate(id));
      if o.Failed? { return Crashed(o.error); }
      if id !in working.journals { return Denied("not_found"); }
      var j := working.journals[id];
      if SelfMade(j, u) { return Denied("sod-self-approval-denied"); }
      if j.status != Draft { return Denied("not_draft"); }
      r := CheckPeriodOpen(ctx, j.date, force, u);
    }

    /** applyBalances, the status column and the audit row. */
    method WritePosting(id: JournalId, actor: string, action: string) returns (r: Outcome)
      requires inTx && id in working.journals
      modifies this`committed, this`working, this`inTx, this`issued, this`locks
      ensures committed == old(committed) && Traced(old(issued), issued, FailureOf(r))
      ensures r.Failed? ==> Settled()
      ensures r == Done ==>
                var t := old(working);
                && inTx && working == PostedForm(t, id, actor, action)
                && locks == old(locks) + ItemLocks(SortByAccount(ItemsOf(t.rows, id)))
    {
      r := ApplyBalances(id);
      if r.Failed? { return; }
      var writes := [SetPosted(id, actor), InsertAudit(Audit(action, id, actor))];
      TwoEffects(working, writes[0], writes[1]);
      r := Run(writes);
    }

    method PostBody(ctx: Ctx, id: JournalId, u: User, force: bool) returns (r: Out)
      requires inTx
      modifies this`committed, this`working, this`inTx, this`issued, this`locks
      ensures committed == old(committed) && Answers(old(working), PostApproved(ctx, id, u, force), r, old(issued))
      ensures r.Ok? ==> locks == old(locks) + [JournalRow(id)] + ItemLocks(SortByAccount(ItemsOf(old(working).rows, id)))
    {
      r := PostGate(ctx, id, u, force);
      if !r.Ok? { return; }
      var o := WritePosting(id, ActorOf(u), "post_journal");
      r := if o.Failed? then Crashed(o.error) else Out.Ok("post_journal");
    }

    method ApprovePostBody(ctx: Ctx, id: JournalId, u: User, force: bool) returns (r: Out)
      requires inTx && "finance.gl.approve" in u.caps && "finance.gl.post" in u.caps
      modifies this`committed, this`working, this`inTx, this`issued, this`locks
      ensures committed == old(committed) && Answers(old(working), ApprovePost(ctx, id, u, force), r, old(issued))
      ensures r.Ok? ==> locks == old(locks) + [JournalRow(id)] + ItemLocks(SortByAccount(ItemsOf(old(working).rows, id)))
    {
      r := ApprovePostGate(ctx, id, u, force);
      if !r.Ok? { return; }
      var o := ApproveThenPost(ctx, id, u, force);
      r := if o.Failed? then Crashed(o.error) else Out.Ok("approve_post_journal");
    }

    method ApproveThenPost(ctx: Ctx, id: JournalId, u: User, force: bool) returns (o: Outcome)
      requires inTx && Enabled(working, ApprovePost(ctx, id, u, force))
      modifies this`committed, this`working, this`inTx, this`issued, this`locks
      ensures committed == old(committed) && Traced(old(issued), issued, FailureOf(o))
      ensures o.Failed? ==> Settled()
      ensures o == Done ==> inTx && working == Apply(old(working), ApprovePost(ctx, id, u, force))
      ensures o == Done ==> locks == old(locks) + ItemLocks(SortByAccount(ItemsOf(old(working).rows, id)))
    {
      ghost var first := issued;
      ApprovePostEffect(working, ctx, id, u, force);
      o := Execute(SetApproved(id, ActorOf(u)));
      if o.Failed? { return; }
      o := WritePosting(id, ActorOf(u), "approve_post_journal");
      TracedAfterOne(first, issued, FailureOf(o));
    }

    lemma TracedAfterOne(first: nat, end: nat, failure: Option<Error>)
      requires faults(first) == NoFault && Traced(first + 1, end, failure)
      ensures Traced(first, end, failure)
    {}

    method DeleteBody(id: JournalId, u: User) returns (r: Out)
      requires inTx
      modifies this`committed, this`working, this`inTx, this`issued, this`locks
      ensures committed == old(committed) && Answers(old(working), Delete(id, u), r, old(issued))
    {
      var o := Execute(SelectForUpdate(id));
      if o.Failed? { return Crashed(o.error); }
      if id !in working.journals { return Denied("not_found"); }
      var status := working.journals[id].status;
      if status == Approved { return Denied("approved_journal_requires_governed_action"); }
      if status != Draft { return Denied("posted_journal_immutable"); }
      o := WriteDeletion(id, ActorOf(u));
      r := if o.Failed? then Crashed(o.error) else Out.Ok("delete_journal");
    }

    method WriteDeletion(id: JournalId, actor: string) returns (r: Outcome)
      requires inTx
      modifies this`committed, this`working, this`inTx, this`issued, this`locks
      ensures committed == old(committed) && Traced(old(issued), issued, FailureOf(r))
      ensures r.Failed? ==> Settled()
      ensures r == Done ==> inTx && working == Stamped(Deleted(old(working), id), "delete_journal", id, actor)
    {
      var writes := [DeleteEntries(id), DeleteHeader(id), InsertAudit(Audit("delete_journal", id, actor))];
      ThreeEffects(working, writes[0], writes[1], writes[2]);
      r := Run(writes);
    }

    /** The two link-back updates and the audit row of a reversal. */
    method WriteLinks(id: JournalId, newId: JournalId, actor: string) returns (r: Outcome)
      requires inTx && id in working.journals && newId in working.journals
      modifies this`committed, this`working, this`inTx, this`issued, this`locks
      ensures committed == old(committed) && Traced(old(issued), issued, FailureOf(r))
      ensures r.Failed? ==> Settled() && !r.error.Raised?
      ensures r == Done ==>
                && inTx && working == Stamped(Linked(old(working), id, newId), "reverse_journal", id, actor)
                && locks == old(locks) && issued == old(issued) + 3
    {
      var writes := [SetReversedBy(id, newId), SetReverses(newId, id), InsertAudit(Audit("reverse_journal", id, actor))];
      ThreeEffects(working, writes[0], writes[1], writes[2]);
      r := Run(writes);
    }

    /** The checks of reverse() before it posts; every refusal is thrown. */
    method ReverseGate(id: JournalId) returns (r: Out)
      requires inTx
      modifies this`committed, this`working, this`inTx, this`issued, this`locks
      ensures committed == old(committed) && issued > old(issued) && Settled() && !r.Denied?
      ensures r.Ok? ==> issued == old(issued) + 3
      ensures Traced(old(issued), issued, if r.Crashed? && r.error.Raised? then None else CrashOf(r))
      ensures r.Ok? ==>
                && inTx && working == old(working)
                && Reversible(working, id) == None
                && locks == old(locks) + [JournalRow(id)]
      ensures r.Crashed? && r.error.Raised? ==> Reversible(old(working), id) == Some(r.error.code)
    {
      var o := Execute(SelectForUpdate(id));
      if o.Failed? { return Crashed(o.error); }
      if id !in working.journals { return Crashed(Raised("not_found")); }
      var j := working.journals[id];
      if j.status != Posted { return Crashed(Raised("only_posted_can_be_reversed")); }
      if j.reversedBy.Some? { return Crashed(Raised("already_reversed")); }
      o := Execute(Select);
      if o.Failed? { return Crashed(o.error); }
      if ItemsOf(working.rows, id) == [] { return Crashed(Raised("no_entries")); }
      o := Execute(Select);
      if o.Failed? { return Crashed(o.error); }
      r := Out.Ok("");
    }

    /**
     * Why the posting of a reversal gives no journal: its lines are refused, its period lookup bars it,
     * or it throws what is no deadlock or lock wait.
     */
    ghost predicate MirrorFails(t: Tables, ctx: Ctx, spec: Spec, ids: nat -> JournalId, base: nat, from: Mark, to: Mark) {
      || Plan(ctx, spec).Refused?
      || Barred(ctx, spec, from.own)
      || PostThrows(t, ctx, spec, ids, base, from, to, DuplicateError)
      || PostThrows(t, ctx, spec, ids, base, from, to, SqlError)
    }

    /** What the posting of a reversal comes to. */
    ghost predicate MirrorTold(t: Tables, ctx: Ctx, spec: Spec, ids: nat -> JournalId, base: nat, from: Mark, r: Out,
                               newId: JournalId, number: string, lost: set<AccountId>, to: Mark)
    {
      && from.own <= to.own && from.pool <= to.pool && Advanced(from.serials, to.serials, Ymd(ctx, spec), base)
      && match r
         case Denied(_) => false
         case Ok(_) =>
           && Plan(ctx, spec).Ok? && !Used(t, newId, number) && PostRan(spec.draft, Plan(ctx, spec).value, from.own, to.own, lost)
           && NumberedBy(from.serials, to.serials, Ymd(ctx, spec), base, number)
         case Crashed(err) =>
           if err.Raised? then err.code == "reversal_post_failed" && MirrorFails(t, ctx, spec, ids, base, from, to)
           else Struck(from, to, err)
    }

    /** The reversal journal itself: an error answer of postJournal becomes a thrown one. */
    method PostMirror(ctx: Ctx, spec: Spec, ids: nat -> JournalId)
        returns (r: Out, newId: JournalId, ghost number: string, ghost lost: set<AccountId>)
      requires inTx && CodesKnown(working, ctx)
      modifies this`committed, this`working, this`inTx, this`issued, this`locks, this`serials, this`seqIssued
      ensures committed == old(committed) && Settled()
      ensures MirrorTold(old(working), ctx, spec, ids, old(FirstSerial(ctx, spec)), old(Now()), r, newId, number, lost, Now())
      ensures r.Ok? ==>
                && inTx && Plan(ctx, spec).Ok?
                && working == Inserted(old(working), ctx, spec, newId, number, Plan(ctx, spec).value, lost)
                && locks == old(locks) + PostingLocks(ctx, spec)
    {
      newId, number := "", "";
      var p;
      p, lost := PostJournalTx(ctx, spec, ids);
      match p
      case Success(i, n) => r, newId, number := Out.Ok(""), i, n;
      case Rejected(_) => r := Crashed(Raised("reversal_post_failed"));
      case Threw(e) => r := Crashed(if Retryable(e) then e else Raised("reversal_post_failed"));
    }

    /** What reverse() raises: a refusal that is true, or that its posting gave no journal. */
    ghost predicate Raises(before: Tables, e: Event, code: string, ids: nat -> JournalId, base: nat, from: Mark, to: Mark)
      requires e.Reverse?
    {
      || (Reversible(before, e.id) == Some(code) && Clean(from.own, to.own))
      || (code == "reversal_post_failed" && Reversible(before, e.id) == None && Clean(from.own, from.own + 3)
          && MirrorFails(before, e.ctx, SpecOf(before, e), ids, base, from.(own := from.own + 3), to))
    }

    /** The statements of a reversal: three to look, the posting, three to link and stamp. */
    ghost predicate ReverseRan(t: Tables, e: Event, first: nat, end: nat)
      requires e.Reverse? && Enabled(t, e)
    {
      end >= first + 3 && PostRan(false, Plan(e.ctx, SpecOf(t, e)).value, first, end - 3, e.lost) && Clean(end - 3, end)
    }

    /** What a reversal body comes to: done, raised, or ended by a failed statement; it denies nothing itself. */
    ghost predicate ReverseAnswers(before: Tables, e: Event, r: Out, ids: nat -> JournalId, base: nat, from: Mark, to: Mark)
      requires e.Reverse?
      reads this
    {
      && ReverseTold(before, e, r, ids, base, from, to)
      && (r.Ok? ==> inTx && working == Apply(before, e)) && (r.Crashed? ==> Settled())
    }

    /** A reversal after its look at the original. */
    ghost predicate LinkTold(t: Tables, e: Event, r: Out, ids: nat -> JournalId, base: nat, from: Mark, to: Mark)
      requires e.Reverse?
    {
      var spec := SpecOf(t, e);
      && from.own <= to.own && from.pool <= to.pool && Advanced(from.serials, to.serials, Ymd(e.ctx, spec), base)
      && match r
         case Denied(_) => false
         case Ok(_) =>
           Enabled(t, e) && ReverseRan(t, e, from.own, to.own) && NumberedBy(from.serials, to.serials, Ymd(e.ctx, spec), base, e.number)
         case Crashed(err) =>
           if err.Raised? then err.code == "reversal_post_failed" && MirrorFails(t, e.ctx, spec, ids, base, from, to)
           else Struck(from, to, err)
    }

    /** The links of a posted reversal go through. */
    lemma MirrorLinked(t: Tables, e: Event, ids: nat -> JournalId, base: nat, from: Mark, p: Out, mid: Mark, to: Mark)
      requires e.Reverse? && Reversible(t, e.id) == None && CodesKnown(t, e.ctx) && p.Ok?
      requires MirrorTold(t, e.ctx, SpecOf(t, e), ids, base, from, p, e.newId, e.number, e.lost, mid)
      requires to == mid.(own := mid.own + 3) && Clean(mid.own, to.own)
      ensures LinkTold(t, e, p, ids, base, from, to)
    { ReverseEffect(t, e); }

    /** The posting, and then its links, if it gave a journal. */
    lemma MirrorThenLinks(t: Tables, e: Event, ids: nat -> JournalId, base: nat, from: Mark, p: Out, mid: Mark, o: Outcome, to: Mark)
      requires e.Reverse? && Reversible(t, e.id) == None && CodesKnown(t, e.ctx)
      requires MirrorTold(t, e.ctx, SpecOf(t, e), ids, base, from, p, e.newId, e.number, e.lost, mid)
      requires if p.Ok? then to == mid.(own := to.own) && Traced(mid.own, to.own, FailureOf(o)) && (o == Done ==> to.own == mid.own + 3)
               else to == mid
      ensures LinkTold(t, e, if p.Ok? && o.Failed? then Crashed(o.error) else p, ids, base, from, to)
    { if p.Ok? && o == Done { MirrorLinked(t, e, ids, base, from, p, mid, to); } }

    /** The mirrored journal, the links and the audit row. */
    method PostAndLink(ctx: Ctx, id: JournalId, u: User, date: Date, ids: nat -> JournalId)
        returns (r: Out, ghost newId: JournalId, ghost number: string, ghost lost: set<AccountId>)
      requires inTx && CodesKnown(working, ctx) && Reversible(working, id) == None
      modifies this`committed, this`working, this`inTx, this`issued, this`locks, this`serials, this`seqIssued
      ensures committed == old(committed) && Settled()
      ensures LinkTold(old(working), Reverse(ctx, id, u, date, newId, number, lost), r, ids,
                       old(FirstSerial(ctx, MirrorSpec(working, id, u, date))), old(Now()), Now())
      ensures r.Ok? ==>
                && inTx && working == Apply(old(working), Reverse(ctx, id, u, date, newId, number, lost))
                && locks == old(locks) + PostingLocks(ctx, MirrorSpec(old(working), id, u, date))
    {
      ghost var t, base, from := working, FirstSerial(ctx, MirrorSpec(working, id, u, date)), Now();
      var j;
      r, j, number, lost := PostMirror(ctx, MirrorSpec(working, id, u, date), ids);
      newId := j;
      ghost var e, mid := Reverse(ctx, id, u, date, newId, number, lost), Now();
      if r.Crashed? {
        MirrorThenLinks(t, e, ids, base, from, r, mid, Done, mid);
        return;
      }
      ReverseEffect(t, e);
      var o := WriteLinks(id, j, ReverserOf(u));
      MirrorThenLinks(t, e, ids, base, from, r, mid, o, Now());
      r := if o.Failed? then Crashed(o.error) else Out.Ok("reverse_journal");
    }

    /** A reversal body without its look at the original: what it says of the statements that ran. */
    ghost predicate ReverseTold(before: Tables, e: Event, r: Out, ids: nat -> JournalId, base: nat, from: Mark, to: Mark)
      requires e.Reverse?
    {
      match r
      case Denied(_) => false
      case Ok(_) => Enabled(before, e) && ReverseRan(before, e, from.own, to.own)
      case Crashed(err) =>
        if err.Raised? then Raises(before, e, err.code, ids, base, from, to) else Struck(from, to, err)
    }

    /** Three clean statements to look, then the posting. */
    lemma LookedThenPosted(before: Tables, e: Event, r: Out, ids: nat -> JournalId, base: nat, from: Mark, mid: Mark, to: Mark)
      requires e.Reverse? && mid == from.(own := from.own + 3) && Clean(from.own, mid.own) && Reversible(before, e.id) == None
      requires LinkTold(before, e, r, ids, base, mid, to)
      ensures ReverseTold(before, e, r, ids, base, from, to)
    { if r.Ok? { RanAfter(false, Plan(e.ctx, SpecOf(before, e)).value, from.own, mid.own, to.own - 3, e.lost); } }

    /** reverse(): every refusal is thrown, so that nothing of a half-made reversal survives. */
    method ReverseBody(ctx: Ctx, id: JournalId, u: User, date: Date, ids: nat -> JournalId)
        returns (r: Out, ghost newId: JournalId, ghost number: string, ghost lost: set<AccountId>)
      requires inTx && CodesKnown(working, ctx)
      modifies this`committed, this`working, this`inTx, this`issued, this`locks, this`serials, this`seqIssued
      ensures committed == old(committed) && issued > old(issued) && seqIssued >= old(seqIssued)
      ensures ReverseAnswers(old(working), Reverse(ctx, id, u, date, newId, number, lost), r, ids,
                             old(FirstSerial(ctx, MirrorSpec(working, id, u, date))), old(Now()), Now())
      ensures var spec := MirrorSpec(old(working), id, u, date);
              var base := old(FirstSerial(ctx, MirrorSpec(working, id, u, date)));
              && Advanced(old(serials), serials, Ymd(ctx, spec), base)
              && (r.Ok? ==> NumberedBy(old(serials), serials, Ymd(ctx, spec), base, number))
      ensures r.Ok? ==> locks == old(locks) + [JournalRow(id)] + PostingLocks(ctx, MirrorSpec(old(working), id, u, date))
    {
      newId, number, lost := "", "", {};
      r := ReverseGate(id);
      if r.Crashed? { return; }
      ghost var before, from, mid := working, old(Now()), Now();
      ghost var base := FirstSerial(ctx, MirrorSpec(working, id, u, date));
      r, newId, number, lost := PostAndLink(ctx, id, u, date, ids);
      LookedThenPosted(before, Reverse(ctx, id, u, date, newId, number, lost), r, ids, base, from, mid, Now());
    }

    /** What the body of an operation comes to. */
    ghost predicate OpTold(op: Op, ctx: Ctx, ids: nat -> JournalId, t: Tables, base: nat, from: Mark, r: Out,
                           newId: JournalId, number: string, lost: set<AccountId>, to: Mark)
    {
      var e := EventOf(op, ctx, newId, number, lost);
      && from.own < to.own && from.pool <= to.pool
      && if op.OpReverse? then
           && ReverseTold(t, e, r, ids, base, from, to) && Advanced(from.serials, to.serials, Ymd(ctx, SpecOf(t, e)), base)
           && (r.Ok? ==> NumberedBy(from.serials, to.serials, Ymd(ctx, SpecOf(t, e)), base, number))
         else
           && to.serials == from.serials && Traced(from.own, to.own, CrashOf(r))
           && (r.Ok? ==> Enabled(t, e)) && (r.Denied? ==> Denial(t, e) == Some(r.code))
    }

    method Body(op: Op, ctx: Ctx, ids: nat -> JournalId, ghost base: nat)
        returns (r: Out, ghost newId: JournalId, ghost number: string, ghost lost: set<AccountId>)
      requires inTx && CodesKnown(working, ctx)
      requires Entitled(op)
      requires op.OpReverse? ==> base == FirstSerial(ctx, MirrorSpec(working, op.id, op.user, op.date))
      modifies this`committed, this`working, this`inTx, this`issued, this`locks, this`serials, this`seqIssued
      ensures committed == old(committed) && Settled()
      ensures OpTold(op, ctx, ids, old(working), base, old(Now()), r, newId, number, lost, Now())
      ensures r.Ok? ==> working == Apply(old(working), EventOf(op, ctx, newId, number, lost))
      ensures r.Denied? ==> working == old(working)
    {
      newId, number, lost := "", "", {};
      match op
      case OpApprove(id, u) => r := ApproveBody(id, u);
      case OpPost(id, u, force) => r := PostBody(ctx, id, u, force);
      case OpApprovePost(id, u, force) => r := ApprovePostBody(ctx, id, u, force);
      case OpDelete(id, u) => r := DeleteBody(id, u);
      case OpReverse(id, u, date) => r, newId, number, lost := ReverseBody(ctx, id, u, date, ids);
    }

    /**
     * What one transaction of a transition comes to: the operation applied once; its true denial; for a
     * reversal, what it raises; or the error of a statement that failed. Only the first changes the tables.
     */
    ghost predicate Transacted(op: Op, ctx: Ctx, ids: nat -> JournalId, t: Tables, from: Mark, r: Out,
                               newId: JournalId, number: string, lost: set<AccountId>, to: Mark, t': Tables)
    {
      var e := EventOf(op, ctx, newId, number, lost);
      && (!r.Ok? ==> t' == t)
      && match r
         case Ok(_) =>
           && Enabled(t, e) && t' == Apply(t, e) && to.own > from.own && faults(to.own - 1) == NoFault
           && (if op.OpReverse? then ReverseRan(t, e, from.own, to.own - 1) else Clean(from.own, to.own))
         case Denied(c) => !op.OpReverse? && Denial(t, e) == Some(c) && Clean(from.own, to.own)
         case Crashed(err) =>
           if err.Raised? then op.OpReverse? && Raises(t, e, err.code, ids, FirstOf(from, t, ctx, SpecOf(t, e)), from, to)
           else Struck(from, to, err)
    }

    /** The body, and then its commit: what the transaction comes to. */
    lemma OpFinished(op: Op, ctx: Ctx, ids: nat -> JournalId, t: Tables, base: nat, from: Mark, mid: Mark, r: Out,
                     newId: JournalId, number: string, lost: set<AccountId>, c: Outcome, to: Mark, t': Tables)
      requires OpTold(op, ctx, ids, t, base, from, r, newId, number, lost, mid)
      requires op.OpReverse? ==> base == FirstOf(from, t, ctx, MirrorSpec(t, op.id, op.user, op.date))
      requires if r.Crashed? then c == Done && to == mid else to == mid.(own := mid.own + 1) && Traced(mid.own, to.own, FailureOf(c))
      requires t' == if r.Ok? && c == Done then Apply(t, EventOf(op, ctx, newId, number, lost)) else t
      ensures Transacted(op, ctx, ids, t, from, if c.Failed? then Crashed(c.error) else r, newId, number, lost, to, t')
    {
      if r.Ok? && op.OpReverse? && c == Done { assert ReverseRan(t, EventOf(op, ctx, newId, number, lost), from.own, mid.own); }
    }

    /** One pass of withTransaction: begin, body, commit or roll back. */
    method TryTransition(op: Op, ctx: Ctx, ids: nat -> JournalId)
        returns (r: Out, ghost newId: JournalId, ghost number: string, ghost lost: set<AccountId>)
      requires Valid(ctx) && Entitled(op)
      modifies this
      ensures Valid(ctx) && issued > old(issued) && seqIssued >= old(seqIssued)
      ensures Passed(op, ctx, ids, old(committed), old(Now()), r, newId, number, lost, Now(), committed)
    {
      ghost var t, from := committed, Now();
      ghost var base := if op.OpReverse? then FirstSerial(ctx, MirrorSpec(committed, op.id, op.user, op.date)) else 0;
      Begin();
      r, newId, number, lost := Body(op, ctx, ids, base);
      ghost var mid := Now();
      var c := Finish(r.Crashed?);
      OpFinished(op, ctx, ids, t, base, from, mid, r, newId, number, lost, c, Now(), committed);
      if c.Failed? { r := Crashed(c.error); }
      PassEnds(op, ctx, ids, t, from, r, newId, number, lost, Now(), committed);
      if r.Ok? { StepValid(t, EventOf(op, ctx, newId, number, lost), ctx); }
      r := Shown(r);
    }

    /** A reversal's raised error comes out as a denial. */
    function Shown(r: Out): Out { if r.Crashed? && r.error.Raised? then Denied(r.error.code) else r }

    /**
     * What one pass comes to for the caller: its end, counters in order, a reason to retry after a
     * deadlock or a lock wait, and a reversal numbered by the day it is stored under.
     */
    ghost predicate Passed(op: Op, ctx: Ctx, ids: nat -> JournalId, t: Tables, from: Mark, r: Out,
                           newId: JournalId, number: string, lost: set<AccountId>, to: Mark, t': Tables)
    {
      && Ends(op, ctx, ids, t, from, r, newId, number, lost, to, t')
      && Counted(from.serials, t, to.serials, t')
      && (r.Crashed? ==> !r.error.Raised? && t' == t)
      && (r.Crashed? && Retryable(r.error) ==> Retried(from, to))
      && (r.Ok? && op.OpReverse? ==> Numbered(t', newId, number))
    }

    lemma PassEnds(op: Op, ctx: Ctx, ids: nat -> JournalId, t: Tables, from: Mark, r: Out,
                   newId: JournalId, number: string, lost: set<AccountId>, to: Mark, t': Tables)
      requires OrderOk(t) && from.own < to.own
      requires Transacted(op, ctx, ids, t, from, r, newId, number, lost, to, t')
      requires Drawn(op, ctx, t, from.serials, r, number, to.serials)
      ensures Passed(op, ctx, ids, t, from, Shown(r), newId, number, lost, to, t')
    {
      DrawnCounters(t, from.serials, op, ctx, newId, number, lost, r, to.serials, t');
      if r.Ok? && op.OpReverse? { DrawnNumber(t, from.serials, op, ctx, newId, number, lost, r, to.serials); }
    }

    /** What the caller sees. */
    ghost predicate Ends(op: Op, ctx: Ctx, ids: nat -> JournalId, t: Tables, from: Mark, r: Out,
                         newId: JournalId, number: string, lost: set<AccountId>, to: Mark, t': Tables)
    {
      if op.OpReverse? && r.Denied? then Transacted(op, ctx, ids, t, from, Crashed(Raised(r.code)), newId, number, lost, to, t')
      else Transacted(op, ctx, ids, t, from, r, newId, number, lost, to, t')
    }

    /** approvePost needs both capabilities; every other right is the caller's to check. */
    predicate Entitled(op: Op) { op.OpApprovePost? ==> "finance.gl.approve" in op.user.caps && "finance.gl.post" in op.user.caps }

    /**
     * withTransaction: at most four runs of the body, each but the last ended by a deadlock or a lock
     * wait; the last is what the call comes to.
     */
    method WithTransaction(op: Op, ctx: Ctx, ids: (nat, nat) -> JournalId)
        returns (r: Out, attempts: nat, ghost newId: JournalId, ghost number: string, ghost lost: set<AccountId>, ghost marks: seq<Mark>)
      requires Valid(ctx) && Entitled(op)
      modifies this
      ensures Valid(ctx) && 1 <= attempts <= 4 && |marks| == attempts
      ensures Attempts(marks, old(Now())) && marks[attempts - 1].own < issued
      ensures Passed(op, ctx, IdsOf(ids, attempts - 1), old(committed), marks[attempts - 1], r, newId, number, lost, Now(), committed)
      ensures OnlyGaps(old(serials), serials) && (old(CountersHold()) ==> CountersHold())
      ensures r.Crashed? && (r.error == DeadlockError || r.error == TimeoutError) ==> attempts == 4
    {
      newId, number, lost, attempts, marks := "", "", {}, 0, [];
      ghost var t, start := committed, Now();
      r := Crashed(DeadlockError);
      while attempts < 4
        invariant attempts <= 3 && Valid(ctx) && committed == t && |marks| == attempts
        invariant Counted(start.serials, t, serials, t) && Retrying(marks, start, Now())
      {
        var attempt := attempts;
        ghost var from := Now();
        NextAttempt(marks, start, from);
        attempts, marks := attempts + 1, marks + [from];
        r, newId, number, lost := TryTransition(op, ctx, IdsOf(ids, attempt));
        if !r.Crashed? || !Retryable(r.error) || attempts == 4 { return; }
      }
    }

    /**
     * A transition: denied without the capabilities, or what withTransaction comes to. So success is
     * the operation applied once, anything else leaves the tables as they were, and nothing but a
     * failed statement crashes it.
     */
    method Transition(op: Op, ctx: Ctx, ids: (nat, nat) -> JournalId)
        returns (r: Out, attempts: nat, ghost newId: JournalId, ghost number: string, ghost lost: set<AccountId>, ghost marks: seq<Mark>)
      requires Valid(ctx)
      modifies this
      ensures Valid(ctx) && attempts <= 4 && OnlyGaps(old(serials), serials) && |marks| == attempts
      ensures attempts == 0 <==> !Entitled(op)
      ensures attempts == 0 ==> r == Denied("PERMISSION_DENIED") && committed == old(committed)
      ensures attempts > 0 ==>
                && Attempts(marks, old(Now())) && marks[attempts - 1].own < issued
                && Passed(op, ctx, IdsOf(ids, attempts - 1), old(committed), marks[attempts - 1], r, newId, number, lost, Now(), committed)
      ensures r.Crashed? && (r.error == DeadlockError || r.error == TimeoutError) ==> attempts == 4
      ensures old(CountersHold()) ==> CountersHold()
    {
      if !Entitled(op) { return Denied("PERMISSION_DENIED"), 0, "", "", {}, []; }
      r, attempts, newId, number, lost, marks := WithTransaction(op, ctx, ids);
    }
  }

  /** What a transition does to the counters: nothing, but for the serials a reversal draws. */
  predicate Drawn(op: Op, ctx: Ctx, t: Tables, before: map<string, nat>, r: Out, number: string, after: map<string, nat>) {
    if !op.OpReverse? then after == before
    else
      var ymd := Ymd(ctx, MirrorSpec(t, op.id, op.user, op.date));
      var base := Next(before, ymd, NumbersOf(t.order, t.journals));
      Advanced(before, after, ymd, base) && (r.Ok? ==> NumberedBy(before, after, ymd, base, number))
  }

  /** How drawing serials moves the counters. */
  ghost predicate Counted(before: map<string, nat>, t: Tables, after: map<string, nat>, t': Tables) {
    OnlyGaps(before, after) && (Covers(before, NumberSet(t)) ==> Covers(after, NumberSet(t')))
  }

  lemma DrawnNumber(t: Tables, before: map<string, nat>, op: Op, ctx: Ctx, newId: JournalId, number: string,
                    lost: set<AccountId>, r: Out, after: map<string, nat>)
    requires op.OpReverse? && r.Ok? && Drawn(op, ctx, t, before, r, number, after)
    requires Enabled(t, EventOf(op, ctx, newId, number, lost))
    ensures Numbered(Apply(t, EventOf(op, ctx, newId, number, lost)), newId, number)
  {
    var e := EventOf(op, ctx, newId, number, lost);
    OwnDay(t, e, after[Ymd(ctx, SpecOf(t, e))]);
  }

  lemma DrawnCounters(t: Tables, before: map<string, nat>, op: Op, ctx: Ctx, newId: JournalId, number: string,
                      lost: set<AccountId>, r: Out, after: map<string, nat>, t': Tables)
    requires OrderOk(t) && Drawn(op, ctx, t, before, r, number, after)
    requires var e := EventOf(op, ctx, newId, number, lost); if r.Ok? then Enabled(t, e) && t' == Apply(t, e) else t' == t
    ensures Counted(before, t, after, t')
  {
    var e := EventOf(op, ctx, newId, number, lost);
    if Covers(before, NumberSet(t)) {
      if op.OpReverse? {
        AdvanceCovers(t, before, after, ctx, SpecOf(t, e));
        if r.Ok? { PostCovers(t, before, after, e); }
      } else if r.Ok? {
        NumbersStay(t, e);
      }
    }
  }

  /** Only an insertion brings a number in. */
  lemma NumbersStay(t: Tables, e: Event)
    requires Enabled(t, e) && !e.Post? && !e.Reverse?
    ensures NumberSet(Apply(t, e)) <= NumberSet(t)
  {
    forall x | x in NumberSet(Apply(t, e)) ensures x in NumberSet(t) {
      var k :| k in Apply(t, e).journals && Apply(t, e).journals[k].number == x;
      assert k in t.journals && t.journals[k].number == x;
    }
  }

  /** The specification of the mirrored journal. */
  function MirrorSpec(t: Tables, id: JournalId, u: User, date: Date): Spec {
    ReversalSpec(id, ItemsOf(t.rows, id), date, ReverserOf(u))
  }

  lemma {:induction false} NumbersComplete(order: seq<JournalId>, js: map<JournalId, Journal>, k: JournalId)
    requires k in order && k in js
    ensures js[k].number in NumbersOf(order, js)
  { if order[0] != k { NumbersComplete(order[1..], js, k); } }

  lemma AllNumbers(t: Tables)
    requires OrderOk(t)
    ensures forall x | x in NumberSet(t) :: x in NumbersOf(t.order, t.journals)
  {
    forall x | x in NumberSet(t) ensures x in NumbersOf(t.order, t.journals) {
      var k :| k in t.journals && t.journals[k].number == x;
      NumbersComplete(t.order, t.journals, k);
    }
  }

  function IdsOf(ids: (nat, nat) -> JournalId, attempt: nat): nat -> JournalId { (i: nat) => ids(attempt, i) }

  /** Six ids of one attempt that are all in use. */
  ghost predicate IdsUsed(t: Tables, ids: nat -> JournalId) { forall k: nat | k < 6 :: ids(k) in t.journals }

  /** The serial the next allocation gives the journal's day, counted from this point. */
  function FirstOf(from: Mark, t: Tables, ctx: Ctx, spec: Spec): nat {
    Next(from.serials, Ymd(ctx, spec), NumbersOf(t.order, t.journals))
  }

  /** A number the counter gives is free. */
  lemma FreeNumber(t: Tables, serials: map<string, nat>, ctx: Ctx, spec: Spec, n: nat)
    requires OrderOk(t) && Covers(serials, NumberSet(t)) && n >= Next(serials, Ymd(ctx, spec), NumbersOf(t.order, t.journals))
    ensures NumberFree(t, Dated(Ymd(ctx, spec), n))
  {
    AllNumbers(t);
    NextIsUnused(serials, Ymd(ctx, spec), NumbersOf(t.order, t.journals), NumberSet(t), n);
  }

  /** Gaps do no harm to the counters. */
  lemma AdvanceCovers(t: Tables, before: map<string, nat>, after: map<string, nat>, ctx: Ctx, spec: Spec)
    requires OrderOk(t) && Covers(before, NumberSet(t))
    requires Advanced(before, after, Ymd(ctx, spec), Next(before, Ymd(ctx, spec), NumbersOf(t.order, t.journals)))
    ensures Covers(after, NumberSet(t)) && OnlyGaps(before, after)
  {
    var ymd := Ymd(ctx, spec);
    AllNumbers(t);
    if after != before {
      CoversAdvance(before, ymd, NumbersOf(t.order, t.journals), NumberSet(t), after[ymd]);
    }
  }

  /** Neither does the journal the last serial numbers. */
  lemma PostCovers(t: Tables, before: map<string, nat>, after: map<string, nat>, e: Event)
    requires OrderOk(t) && Covers(before, NumberSet(t)) && (e.Post? || e.Reverse?) && Enabled(t, e)
    requires var ymd := Ymd(e.ctx, SpecOf(t, e));
             NumberedBy(before, after, ymd, Next(before, ymd, NumbersOf(t.order, t.journals)), e.number)
    ensures Covers(after, NumberSet(Apply(t, e)))
  {
    var ymd := Ymd(e.ctx, SpecOf(t, e));
    AllNumbers(t);
    CoversAdvance(before, ymd, NumbersOf(t.order, t.journals), NumberSet(t), after[ymd]);
    forall x | x in NumberSet(Apply(t, e)) ensures x in NumberSet(t) + {e.number} {
      var k :| k in Apply(t, e).journals && Apply(t, e).journals[k].number == x;
    }
  }

  lemma StepValid(t: Tables, e: Event, ctx: Ctx)
    requires Structure(t) && CodesKnown(t, ctx) && Enabled(t, e)
    ensures Structure(Apply(t, e)) && CodesKnown(Apply(t, e), ctx)
  {
    StepStructure(t, e);
    assert Apply(t, e).accounts.Keys == t.accounts.Keys;
  }

  function Reversible(t: Tables, id: JournalId): Option<string> {
    if id !in t.journals then Some("not_found")
    else if t.journals[id].status != Posted then Some("only_posted_can_be_reversed")
    else if t.journals[id].reversedBy.Some? then Some("already_reversed")
    else if ItemsOf(t.rows, id) == [] then Some("no_entries")
    else None
  }

  lemma ReverseEffect(t: Tables, e: Event)
    requires e.Reverse? && Reversible(t, e.id) == None && Plan(e.ctx, SpecOf(t, e)).Ok?
    requires Insertable(t, e.ctx, e.newId, e.number)
    ensures Enabled(t, e)
    ensures e.id in InsertedBy(t, e).journals && e.newId in InsertedBy(t, e).journals
    ensures Apply(t, e) == Stamped(Linked(InsertedBy(t, e), e.id, e.newId), "reverse_journal", e.id, ReverserOf(e.user))
  {}

  function ItemLocks(items: seq<Item>): seq<Lock> {
    seq(|items|, i requires 0 <= i < |items| => AccountRow(items[i].account))
  }

  lemma NextEntry(base: map<AccountId, int>, entries: seq<Item>, i: nat)
    requires i < |entries|
    ensures AddNets(base, entries[..i + 1], {})
         == AddOne(AddNets(base, entries[..i], {}), entries[i].account, entries[i].debit - entries[i].credit)
    ensures ItemLocks(entries[..i + 1]) == ItemLocks(entries[..i]) + [AccountRow(entries[i].account)]
  {
    assert entries[..i + 1] == entries[..i] + [entries[i]];
    AddNetsSnoc(base, entries[..i], entries[i]);
  }

  /** A stored journal posted: balances, status column and audit row. */
  function PostedForm(t: Tables, id: JournalId, actor: string, action: string): Tables
    requires id in t.journals
  {
    Stamped(WithStatus(t, id, Posted, t.journals[id].approvedBy, actor)
              .(accounts := AddNets(t.accounts, ItemsOf(t.rows, id), {})), action, id, actor)
  }

  /** Approving and then posting in one transaction is the one-step event. */
  lemma ApprovePostEffect(t: Tables, ctx: Ctx, id: JournalId, u: User, force: bool)
    requires Enabled(t, ApprovePost(ctx, id, u, force))
    ensures var mid := Effect(t, SetApproved(id, ActorOf(u)));
            && id in mid.journals && mid.rows == t.rows
            && PostedForm(mid, id, ActorOf(u), "approve_post_journal") == Apply(t, ApprovePost(ctx, id, u, force))
  {
    var mid := Effect(t, SetApproved(id, ActorOf(u)));
    assert mid.journals[id := mid.journals[id].(status := Posted, postedBy := ActorOf(u))]
        == t.journals[id := t.journals[id].(status := Posted, approvedBy := ActorOf(u), postedBy := ActorOf(u))];
  }

  /** A refusal found in a prefix of the lines is the refusal of all of them. */
  lemma {:induction false} RefusalSticks(codes: map<string, AccountId>, h: HeaderDims, lines: seq<Line>, n: nat)
    requires n <= |lines| && Enrich(codes, h, lines[..n]).Refused?
    ensures Enrich(codes, h, lines) == Enrich(codes, h, lines[..n])
  {
    if n < |lines| {
      assert lines[..|lines| - 1][..n] == lines[..n];
      RefusalSticks(codes, h, lines[..|lines| - 1], n);
    } else {
      assert lines[..n] == lines;
    }
  }

  lemma EnrichNext(codes: map<string, AccountId>, h: HeaderDims, lines: seq<Line>, i: nat)
    requires i < |lines| && Enrich(codes, h, lines[..i]).Ok?
    ensures var next := Accept(codes, h, lines[i]);
            if next.Ok? then Enrich(codes, h, lines[..i + 1]) == Checked.Ok(Enrich(codes, h, lines[..i]).value + next.value)
            else Enrich(codes, h, lines) == Refused(next.why)
  {
    assert lines[..i + 1][..i] == lines[..i];
    if Accept(codes, h, lines[i]).Refused? { RefusalSticks(codes, h, lines, i + 1); }
  }

  /** The balances after the accounts in `done` have been updated. */
  function Partly(accounts: map<AccountId, int>, items: seq<Item>, done: seq<AccountId>, lost: set<AccountId>): map<AccountId, int> {
    map a | a in accounts :: accounts[a] + (if a in done && a !in lost then NetOn(items, a) else 0)
  }

  lemma PartlyLost(accounts: map<AccountId, int>, items: seq<Item>, done: seq<AccountId>, a: AccountId, lost: set<AccountId>)
    requires a !in done && a !in lost
    ensures Partly(accounts, items, done + [a], lost + {a}) == Partly(accounts, items, done, lost)
  {
    var x, y := Partly(accounts, items, done + [a], lost + {a}), Partly(accounts, items, done, lost);
    forall b | b in accounts ensures x[b] == y[b] {
      if b != a { assert b in done + [a] <==> b in done; }
    }
  }

  lemma PartlyDone(accounts: map<AccountId, int>, items: seq<Item>, done: seq<AccountId>, a: AccountId, lost: set<AccountId>)
    requires a !in done && a !in lost
    ensures Partly(accounts, items, done + [a], lost) == AddOne(Partly(accounts, items, done, lost), a, NetOn(items, a))
  {
    var x, y := Partly(accounts, items, done + [a], lost), AddOne(Partly(accounts, items, done, lost), a, NetOn(items, a));
    assert x.Keys == y.Keys == accounts.Keys;
    forall b | b in accounts ensures x[b] == y[b] {
      if b == a { assert a in done + [a]; } else { assert b in done + [a] <==> b in done; }
    }
  }

  lemma PartlyAll(accounts: map<AccountId, int>, items: seq<Item>, done: seq<AccountId>, lost: set<AccountId>)
    requires forall a :: a in done <==> a in Accounts(items)
    ensures Partly(accounts, items, done, lost) == AddNets(accounts, items, lost)
  {
    forall a | a in accounts && a !in done ensures NetOn(items, a) == 0 { NetOffAccounts(items, a); }
  }

  // ----- A deadlock at the period lookup -----

  /** A sale that balances, in an open period, on a healthy ledger: one deadlock at its first statement refuses it for good. */
  method DeadlockAtPeriodLookup() returns (r: PostResult, attempts: nat)
    ensures Plan(SMALL_CHART, ONE_SALE).Ok?
    ensures r == Rejected(PeriodClosed) && attempts == 1
  {
    var faults := (n: nat) => if n == 0 then DeadlockFault else NoFault;
    var c := new Connection(TWO_ACCOUNTS, map[], faults, (n: nat) => NoFault);
    FreshInv(TWO_ACCOUNTS);
    OneSaleAccepted([Item("cash", "1100", 100, 0, NO_DIMS), Item("sales", "4100", 0, 100, NO_DIMS)]);
    ghost var lost, marks;
    r, attempts, lost, marks := c.PostJournal(SMALL_CHART, ONE_SALE, (i: nat, j: nat) => "j");
  }
}
